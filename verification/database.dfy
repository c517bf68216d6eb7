/**
 * The persistent room store (database/types.go, database/errors.go,
 * database/crud.go). The document store is a map from user id to the user's
 * document in the users collection; a read is a map lookup and an update
 * replaces the document's `Rooms` field.
 */
module Database {
  import opened Wrappers

  /** Name of the users collection. Its definition is not part of this model; any non-empty name will do. */
  const UserCollectionName: string := "users"

  /** Name of the document field that holds a user's rooms. */
  const RoomsField: string := "Rooms"

  /** database/types.go: a room owned by a user, with its lock flag. */
  datatype Room = Room(roomId: string, isLocked: bool)

  /** database/types.go: a user document. */
  datatype User = User(id: string, name: string, email: string, rooms: seq<Room>)

  /** The users collection: document id to document. */
  type Store = map<string, User>

  /**
   * database/errors.go declares four sentinel errors; every other error the
   * functions below build with errors.New or fmt.Errorf is a fresh value that
   * never compares equal to a sentinel, whatever its text.
   */
  datatype DbError =
    | NotFound
    | InvalidRequest
    | InternalServerError
    | RoomPresent
    | Failure(text: string)

  /** The store after a write together with the error returned to the caller. */
  datatype Update = Update(store: Store, outcome: Outcome<DbError>)

  /** The text of the error a missing document produces. */
  const MissingDocument: string := "Document Doesn't Exists"

  /** Reads document `docId`; a missing document is an error. */
  function GetDocument(store: Store, docId: string): (r: Result<User, DbError>)
    ensures r.Ok? <==> docId in store
    ensures r.Ok? ==> r.value == store[docId]
    ensures r.Err? ==> r.error == Failure(MissingDocument)
  {
    if docId in store then Ok(store[docId]) else Err(Failure(MissingDocument))
  }

  /** Reads a user; an empty id is refused before the store is consulted. */
  function GetUser(store: Store, id: string): (r: Result<User, DbError>)
    ensures r.Ok? <==> id != "" && id in store
    ensures r.Ok? ==> r.value == store[id]
    ensures r.Err? ==> r.error.Failure?
  {
    if id == "" then Err(Failure("Invalid user id")) else GetDocument(store, id)
  }

  /**
   * Sets `field` of document `docId` to `rooms`. Arguments are validated, but a
   * failed store update (here: the document does not exist) is only logged,
   * and the function still reports success. Only the `Rooms` field is part of
   * the modelled user view; writing any other field leaves that view as it is.
   */
  function UpdateDocument(store: Store, docId: string, field: string, rooms: seq<Room>, collection: string): (r: Update)
    ensures r.outcome.Fail? <==> docId == "" || field == "" || collection == ""
    ensures r.outcome.Fail? ==> r.store == store
    ensures r.outcome.Pass? && collection == UserCollectionName && field == RoomsField && docId in store ==>
              r.store == store[docId := store[docId].(rooms := rooms)]
    ensures docId !in store || collection != UserCollectionName || field != RoomsField ==> r.store == store
  {
    if docId == "" || field == "" || collection == "" then
      Update(store, Fail(Failure("Invalid user id or field value or collection name")))
    else if collection == UserCollectionName && docId in store && field == RoomsField then
      Update(store[docId := store[docId].(rooms := rooms)], Pass)
    else
      Update(store, Pass)
  }

  /** Updates a field of a user document. */
  function UpdateUser(store: Store, id: string, field: string, rooms: seq<Room>): (r: Update)
    ensures r.outcome.Fail? <==> id == "" || field == ""
    ensures r.outcome.Pass? && field == RoomsField && id in store ==>
              r.store == store[id := store[id].(rooms := rooms)]
    ensures r.outcome.Fail? || id !in store ==> r.store == store
  {
    if id == "" || field == "" then Update(store, Fail(Failure("Invalid user id or field value")))
    else UpdateDocument(store, id, field, rooms, UserCollectionName)
  }

  /** Replaces (or creates) document `docId`. */
  function SaveDocument(store: Store, docId: string, data: User, collection: string): (r: Update)
    ensures r.outcome.Fail? <==> docId == ""
    ensures r.outcome.Pass? && collection == UserCollectionName ==> r.store == store[docId := data]
    ensures r.outcome.Fail? || collection != UserCollectionName ==> r.store == store
  {
    if docId == "" then Update(store, Fail(Failure("Invalid document id")))
    else if collection == UserCollectionName then Update(store[docId := data], Pass)
    else Update(store, Pass)
  }

  /** Saves a user under its own id; an id that is empty or differs from `user.id` is refused. */
  function SaveUser(store: Store, id: string, user: User): (r: Update)
    ensures r.outcome.Fail? <==> id == "" || id != user.id
    ensures r.outcome.Fail? ==> r.store == store
    ensures r.outcome.Pass? ==> r.store == store[id := user] && r.store[id].id == id
  {
    if id == "" || id != user.id then Update(store, Fail(Failure("Invalid user id")))
    else SaveDocument(store, id, user, UserCollectionName)
  }

  /**
   * The index of the first room of `rooms` whose id is `roomId`, or -1 when
   * there is none: the linear search crud.go repeats in four functions.
   */
  function FirstRoomIndex(rooms: seq<Room>, roomId: string): (i: int)
    ensures -1 <= i < |rooms|
    ensures i >= 0 ==> rooms[i].roomId == roomId
    ensures i >= 0 ==> forall j :: 0 <= j < i ==> rooms[j].roomId != roomId
    ensures i == -1 <==> forall j :: 0 <= j < |rooms| ==> rooms[j].roomId != roomId
    decreases |rooms|
  {
    if rooms == [] then -1
    else if rooms[0].roomId == roomId then 0
    else
      var k := FirstRoomIndex(rooms[1..], roomId);
      if k == -1 then -1 else k + 1
  }

  /** `roomId` names some room of `rooms`. */
  predicate HasRoom(rooms: seq<Room>, roomId: string) {
    exists j :: 0 <= j < |rooms| && rooms[j].roomId == roomId
  }

  /**
   * Swap-with-last delete: the last room overwrites index `i`, then the list
   * is cut by one. Order is not kept, but every other room is.
   */
  function SwapRemove(rooms: seq<Room>, i: nat): (r: seq<Room>)
    requires i < |rooms|
    ensures |r| == |rooms| - 1
    ensures forall j :: 0 <= j < |r| && j != i ==> r[j] == rooms[j]
    ensures i < |r| ==> r[i] == rooms[|rooms| - 1]
    ensures multiset(r) == multiset(rooms) - multiset{rooms[i]}
  {
    var last := |rooms| - 1;
    var r := rooms[i := rooms[last]][..last];
    if i == last then
      assert rooms == r + [rooms[i]];
      r
    else
      assert rooms == rooms[..i] + [rooms[i]] + rooms[i + 1..last] + [rooms[last]];
      assert r == rooms[..i] + [rooms[last]] + rooms[i + 1..last];
      r
  }

  /** Appends `room` to the rooms of user `id`. */
  function AddRoom(store: Store, id: string, room: Room): (r: Update)
    ensures r.outcome.Pass? <==> id != "" && room.roomId != "" && id in store
    ensures r.outcome.Fail? ==> r.store == store
    ensures r.outcome.Pass? ==> r.store == store[id := store[id].(rooms := store[id].rooms + [room])]
  {
    if id == "" || room.roomId == "" then Update(store, Fail(Failure("Invalid user id or room id")))
    else
      match GetUser(store, id)
      case Err(e) => Update(store, Fail(e))
      case Ok(user) => UpdateUser(store, id, RoomsField, user.rooms + [room])
  }

  /** Removes the first room of user `id` named `roomId`, by swap-with-last. */
  function DeleteRoom(store: Store, id: string, roomId: string): (r: Update)
    ensures r.outcome.Pass? <==> id != "" && roomId != "" && id in store && HasRoom(store[id].rooms, roomId)
    ensures r.outcome.Fail? ==> r.store == store
    ensures r.outcome.Pass? ==>
              var rooms := store[id].rooms;
              var i := FirstRoomIndex(rooms, roomId);
              0 <= i && r.store == store[id := store[id].(rooms := SwapRemove(rooms, i))]
  {
    if id == "" || roomId == "" then Update(store, Fail(Failure("Invalid user id or room id")))
    else
      match GetUser(store, id)
      case Err(e) => Update(store, Fail(e))
      case Ok(user) =>
        var i := FirstRoomIndex(user.rooms, roomId);
        if i == -1 then Update(store, Fail(Failure("Room " + roomId + " not present for user: " + id)))
        else UpdateUser(store, id, RoomsField, SwapRemove(user.rooms, i))
  }

  /** Flips the lock flag of the first room of user `id` named `roomId`. */
  function ToggleRoomLock(store: Store, id: string, roomId: string): (r: Update)
    ensures r.outcome.Pass? <==> id != "" && id in store && HasRoom(store[id].rooms, roomId)
    ensures r.outcome.Fail? ==> r.store == store
    ensures r.outcome.Pass? ==>
              var rooms := store[id].rooms;
              var i := FirstRoomIndex(rooms, roomId);
              0 <= i && r.store == store[id := store[id].(rooms := rooms[i := rooms[i].(isLocked := !rooms[i].isLocked)])]
  {
    match GetUser(store, id)
    case Err(e) => Update(store, Fail(e))
    case Ok(user) =>
      var i := FirstRoomIndex(user.rooms, roomId);
      if i == -1 then Update(store, Fail(Failure("Room " + roomId + " not present for user: " + id)))
      else UpdateUser(store, id, RoomsField, user.rooms[i := user.rooms[i].(isLocked := !user.rooms[i].isLocked)])
  }

  /** The first room of user `id` named `roomId`. */
  function GetUserRoom(store: Store, id: string, roomId: string): (r: Result<Room, DbError>)
    ensures r.Ok? <==> id != "" && id in store && HasRoom(store[id].rooms, roomId)
    ensures r.Ok? ==> r.value == store[id].rooms[FirstRoomIndex(store[id].rooms, roomId)]
    ensures r.Ok? ==> r.value.roomId == roomId
    ensures r.Err? ==> r.error.Failure?
  {
    match GetUser(store, id)
    case Err(e) => Err(e)
    case Ok(user) =>
      var i := FirstRoomIndex(user.rooms, roomId);
      if i == -1 then Err(Failure("Room: " + roomId + " not found for user: " + user.id))
      else Ok(user.rooms[i])
  }

  /** Some user document lists a room named `roomId`. */
  ghost predicate RoomTaken(store: Store, roomId: string) {
    exists u :: u in store && HasRoom(store[u].rooms, roomId)
  }

  /**
   * The `array-contains-any` query over all user documents: a document that
   * lists a room named `roomId`, or none. Which one of several matches the
   * store returns is not specified.
   */
  ghost function CheckRoom(store: Store, roomId: string): (r: Result<Option<User>, DbError>)
    ensures r.Err? <==> roomId == ""
    ensures r.Err? ==> r.error.Failure?
    ensures r.Ok? ==> (r.value.Some? <==> RoomTaken(store, roomId))
    ensures r.Ok? && r.value.Some? ==> r.value.value in store.Values && HasRoom(r.value.value.rooms, roomId)
  {
    if roomId == "" then Err(Failure("Invalid room id"))
    else if RoomTaken(store, roomId) then
      var u :| u in store && HasRoom(store[u].rooms, roomId);
      Ok(Some(store[u]))
    else Ok(None)
  }

  /** The room named `roomId` of whichever document the query returns. */
  ghost function GetRoom(store: Store, roomId: string): (r: Result<Room, DbError>)
    ensures r.Ok? <==> roomId != "" && RoomTaken(store, roomId)
    ensures r.Ok? ==> r.value.roomId == roomId
    ensures r.Ok? ==> exists u :: u in store && r.value in store[u].rooms
    ensures r.Err? ==> r.error.Failure?
  {
    match CheckRoom(store, roomId)
    case Err(e) => Err(e)
    case Ok(None) => Err(Failure("Room not found: " + roomId))
    case Ok(Some(user)) =>
      var i := FirstRoomIndex(user.rooms, roomId);
      if i == -1 then Err(Failure("Room not found: " + roomId))
      else Ok(user.rooms[i])
  }

  /** Creates a room for user `id`, refusing a room id that any user already lists. */
  ghost function NewRoom(store: Store, id: string, room: Room): (r: Update)
    ensures r.outcome.Pass? <==> id != "" && room.roomId != "" && !RoomTaken(store, room.roomId) && id in store
    ensures r.outcome.Fail? ==> r.store == store
    ensures r.outcome.Pass? ==> r.store == store[id := store[id].(rooms := store[id].rooms + [room])]
  {
    if id == "" || room.roomId == "" then Update(store, Fail(Failure("Invalid user or room id")))
    else
      match CheckRoom(store, room.roomId)
      case Err(e) => Update(store, Fail(e))
      case Ok(Some(_)) => Update(store, Fail(Failure("Room already present : " + room.roomId)))
      case Ok(None) => AddRoom(store, id, room)
  }
}
