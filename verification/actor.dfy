/**
 * The room manager (signaling/room_managers.go): one event at a time, a
 * register, unregister, forward or admission request is applied to the
 * registry, producing messages queued on connections and queues closed.
 *
 * Each broadcast walks a map in `Enumerate` order, standing for Go's
 * unspecified map order; marshalling a reply is taken to succeed.
 */
module Actor {
  import opened Wrappers
  import opened Collections
  import opened Protocol
  import opened Rooms
  import Database

  /** The ERROR reply queued on `c` for error `e`. */
  function ErrorMessage(c: Conn, e: SignalError): Message {
    Message(ERROR, c.userId, ErrorText(e), "", c.userId, "", "")
  }

  /** Queues an ERROR reply addressed to the connection's own user id. */
  function SendError(c: Conn, e: SignalError): (r: Effect)
    ensures r.Send? && r.to == c && r.msg.action == ERROR && r.msg.to == c.userId
    ensures r.msg.data == ErrorText(e)
  {
    Send(c, ErrorMessage(c, e))
  }

  /**
   * The error reported for a failed room-store lookup: the two store
   * sentinels are translated, every other error is passed on unchanged.
   */
  function LookupError(e: Database.DbError): (r: SignalError)
    ensures e == Database.NotFound ==> r == NotFound
    ensures e == Database.InvalidRequest ==> r == BadMessage
    ensures e != Database.NotFound && e != Database.InvalidRequest ==> r == Store(e)
  {
    match e
    case NotFound => NotFound
    case InvalidRequest => BadMessage
    case _ => Store(e)
  }

  /** The READY message telling member `to` that `entrant` is in. */
  function ReadyMessage(to: UserId, entrant: UserId): Message {
    Reply(READY, to, entrant)
  }

  /**
   * READY to each member visited in `order` that is not the entrant. The
   * register paths compare the member connection's user id with the entrant,
   * the admission path compares the map key (`byKey`).
   */
  function Readies(users: map<UserId, Conn>, order: seq<UserId>, entrant: UserId, byKey: bool): (r: seq<Effect>)
    requires forall i :: 0 <= i < |order| ==> order[i] in users
    ensures |r| <= |order|
    decreases |order|
  {
    if order == [] then []
    else
      var k := order[0];
      var uc := users[k];
      var rest := Readies(users, order[1..], entrant, byKey);
      (if (if byKey then k else uc.userId) != entrant then [Send(uc, ReadyMessage(uc.userId, entrant))] else []) + rest
  }

  /** The PERMIT prompt asking the owner to admit waiting user `from`. */
  function PermitMessage(owner: Conn, from: UserId, displayName: string): Message {
    Message(PERMIT, "", NoData, "", owner.userId, from, displayName)
  }

  /** One PERMIT to `owner` per waiting user visited in `order`. */
  function Permits(owner: Conn, waitUsers: map<UserId, Conn>, order: seq<UserId>): (r: seq<Effect>)
    requires forall i :: 0 <= i < |order| ==> order[i] in waitUsers
    ensures |r| == |order|
    ensures forall i :: 0 <= i < |order| ==>
              r[i] == Send(owner, PermitMessage(owner, order[i], waitUsers[order[i]].displayName))
    decreases |order|
  {
    if order == [] then []
    else [Send(owner, PermitMessage(owner, order[0], waitUsers[order[0]].displayName))] + Permits(owner, waitUsers, order[1..])
  }

  /** Closes the queue of each connection visited in `order`. */
  function CloseAll(m: map<UserId, Conn>, order: seq<UserId>): (r: seq<Effect>)
    requires forall i :: 0 <= i < |order| ==> order[i] in m
    ensures |r| == |order|
    ensures forall i :: 0 <= i < |order| ==> r[i] == Close(m[order[i]])
    decreases |order|
  {
    if order == [] then [] else [Close(m[order[0]])] + CloseAll(m, order[1..])
  }

  /** Whether `c` is the owner connection, compared by identity as Go compares pointers. */
  predicate IsOwner(room: Room, c: Conn) {
    room.owner.Some? && room.owner.value.id == c.id
  }

  /**
   * Register with an ownership claim (lines 51-154). It never panics, the
   * claimant is always answered first, and a registry it changes has the
   * claimant as the room's owner.
   */
  ghost function RegisterOwner(rooms: Registry, user: User, lookup: Lookup): (r: Turn)
    ensures r.Next? && r.effects != [] && r.effects[0].Send? && r.effects[0].to == user.conn
    ensures lookup.Failed? ==> r.rooms == rooms
    ensures r.rooms != rooms ==> user.roomId in r.rooms && r.rooms[user.roomId].owner == Some(user.conn)
  {
    var conn := user.conn;
    match lookup
    case Failed(e) => Next(rooms, [SendError(conn, LookupError(e))])
    case Found(locked) =>
      if user.roomId !in rooms then
        var room := Room(user.roomId, locked, Some(conn), map[conn.userId := conn], map[]);
        Next(rooms[user.roomId := room], [Send(conn, Reply(APPROVE, conn.userId, ServerId))])
      else
        var room := rooms[user.roomId];
        if conn.userId !in room.users then
          if |room.users| < Capacity then
            var users := room.users[conn.userId := conn];
            var room' := room.(users := users, owner := Some(conn));
            var permits := if locked then Permits(conn, room.waitUsers, Enumerate(room.waitUsers.Keys)) else [];
            Next(rooms[user.roomId := room'],
                 [Send(conn, Reply(APPROVE, conn.userId, ServerId))]
                 + Readies(users, Enumerate(users.Keys), conn.userId, false)
                 + permits)
          else
            Next(rooms, [Send(conn, Reply(FULL, conn.userId, ""))])
        else
          Next(rooms, [SendError(conn, UserAlreadyPresent(conn.userId, user.roomId)), Close(conn)])
  }

  /**
   * Register without an ownership claim (lines 155-271): a room the store
   * knows is first shadowed here. It never panics, and after a successful
   * lookup the room is registered with its owner unchanged (none when new).
   */
  ghost function RegisterJoiner(rooms: Registry, user: User, lookup: Lookup): (r: Turn)
    ensures r.Next?
    ensures lookup.Failed? ==> r.rooms == rooms
    ensures lookup.Found? ==>
              user.roomId in r.rooms &&
              r.rooms[user.roomId].owner == (if user.roomId in rooms then rooms[user.roomId].owner else None)
  {
    match lookup
    case Failed(e) => Next(rooms, [SendError(user.conn, LookupError(e))])
    case Found(locked) =>
      var rooms := if user.roomId !in rooms then rooms[user.roomId := Room(user.roomId, locked, None, map[], map[])] else rooms;
      if rooms[user.roomId].isLocked then JoinLocked(rooms, user) else JoinOpen(rooms, user)
  }

  /** Joining a locked room (lines 179-215): wait for the owner's decision; the members and the owner stay as they are. */
  ghost function JoinLocked(rooms: Registry, user: User): (r: Turn)
    requires user.roomId in rooms
    ensures r.Next? && r.rooms.Keys == rooms.Keys
    ensures r.rooms[user.roomId].users == rooms[user.roomId].users
    ensures r.rooms[user.roomId].owner == rooms[user.roomId].owner
  {
    var conn := user.conn;
    var room := rooms[user.roomId];
    if conn.userId !in room.waitUsers && conn.userId !in room.users then
      var room' := room.(waitUsers := room.waitUsers[conn.userId := conn]);
      var permit := if room.owner.Some?
                    then [Send(room.owner.value, PermitMessage(room.owner.value, conn.userId, conn.displayName))]
                    else [];
      Next(rooms[user.roomId := room'], permit + [Send(conn, Reply(WAIT, conn.userId, ServerId))])
    else
      Next(rooms, [SendError(conn, UserAlreadyPresent(conn.userId, user.roomId)), Close(conn)])
  }

  /**
   * Joining an open room (lines 216-269): straight in, unless full or already
   * in. Only the joiner can be added, and the waiting list and owner stay.
   */
  ghost function JoinOpen(rooms: Registry, user: User): (r: Turn)
    requires user.roomId in rooms
    ensures r.Next? && r.rooms.Keys == rooms.Keys
    ensures r.rooms[user.roomId].users.Keys <= rooms[user.roomId].users.Keys + {user.conn.userId}
    ensures r.rooms[user.roomId].waitUsers == rooms[user.roomId].waitUsers
    ensures r.rooms[user.roomId].owner == rooms[user.roomId].owner
  {
    var conn := user.conn;
    var room := rooms[user.roomId];
    if conn.userId !in room.users then
      if |room.users| < Capacity then
        var users := room.users[conn.userId := conn];
        Next(rooms[user.roomId := room.(users := users)],
             [Send(conn, Reply(APPROVE, conn.userId, ServerId))] + Readies(users, Enumerate(users.Keys), conn.userId, false))
      else
        Next(rooms, [Send(conn, Reply(FULL, conn.userId, ""))])
    else
      Next(rooms, [SendError(conn, UserAlreadyPresent(conn.userId, user.roomId)), Close(conn)])
  }

  /** The registry, the room as mutated so far, and the effects of a removal. */
  datatype Cleanup = Cleanup(rooms: Registry, room: Room, effects: seq<Effect>)

  /**
   * deleteUser (lines 24-45): drops the entry under the connection's user id,
   * closes the connection passed in, clears the owner if it is that
   * connection, and when no member is left closes every waiting connection
   * and deletes the room.
   */
  ghost function DeleteUser(rooms: Registry, room: Room, conn: Conn): (r: Cleanup)
    ensures r.effects != [] && r.effects[0] == Close(conn)
    ensures conn.userId !in r.room.users && r.room.roomId == room.roomId
  {
    var users := room.users - {conn.userId};
    var owner := if IsOwner(room, conn) then None else room.owner;
    if |users| == 0 then
      Cleanup(rooms - {room.roomId},
              room.(users := users, owner := owner, waitUsers := map[]),
              [Close(conn)] + CloseAll(room.waitUsers, Enumerate(room.waitUsers.Keys)))
    else
      var room' := room.(users := users, owner := owner);
      Cleanup(rooms[room.roomId := room'], room', [Close(conn)])
  }

  /**
   * The loop of lines 280-282: deleteUser on each member, in map order. An
   * entry removed before the loop reaches it is skipped, as Go's range does.
   */
  ghost function DeleteAll(rooms: Registry, room: Room, order: seq<UserId>): (r: Cleanup)
    ensures r.room.roomId == room.roomId
    ensures r.room.users.Keys <= room.users.Keys
    ensures forall k :: 0 <= k < |order| && order[k] in room.users && KeyedByUserId(room.users) ==> order[k] !in r.room.users
    decreases |order|
  {
    if order == [] then Cleanup(rooms, room, [])
    else if order[0] in room.users then
      var c := DeleteUser(rooms, room, room.users[order[0]]);
      var rest := DeleteAll(c.rooms, c.room, order[1..]);
      Cleanup(rest.rooms, rest.room, c.effects + rest.effects)
    else DeleteAll(rooms, room, order[1..])
  }

  /**
   * Unregister (lines 272-299): it never panics, ignores an unknown room, and
   * a member's SELF closes the member's own queue first.
   */
  ghost function UnregisterUser(rooms: Registry, user: User, scope: Scope): (r: Turn)
    ensures r.Next?
    ensures user.roomId !in rooms ==> r.rooms == rooms && r.effects == []
    ensures scope == Self && user.roomId in rooms && user.conn.userId in rooms[user.roomId].users ==>
              r.effects != [] && r.effects[0] == Close(user.conn)
  {
    if user.roomId !in rooms then Next(rooms, [])
    else
      var room := rooms[user.roomId];
      var uid := user.conn.userId;
      if scope == All then
        var c := DeleteAll(rooms, room, Enumerate(room.users.Keys));
        Next(c.rooms, c.effects)
      else if uid in room.users then
        var c := DeleteUser(rooms, room, user.conn);
        Next(c.rooms, c.effects)
      else if uid in room.waitUsers then
        var room' := room.(waitUsers := room.waitUsers - {uid});
        if |room'.users| == 0 && |room'.waitUsers| == 0 then Next(rooms - {room.roomId}, [Close(user.conn)])
        else Next(rooms[user.roomId := room'], [Close(user.conn)])
      else Next(rooms, [])
  }

  /**
   * The message queued by the loop of lines 308-317: the first member in
   * `order` whose key differs from the sender and whose connection's user id
   * is the destination, or nobody.
   */
  function ForwardTo(users: map<UserId, Conn>, order: seq<UserId>, msg: Message): (r: seq<Effect>)
    requires forall i :: 0 <= i < |order| ==> order[i] in users
    ensures |r| <= 1
    ensures r != [] ==> exists i :: 0 <= i < |order| && order[i] != msg.from && users[order[i]].userId == msg.to &&
                          r == [Send(users[order[i]], msg)] &&
                          forall j :: 0 <= j < i ==> order[j] == msg.from || users[order[j]].userId != msg.to
    ensures r == [] <==> forall i :: 0 <= i < |order| ==> order[i] == msg.from || users[order[i]].userId != msg.to
    decreases |order|
  {
    if order == [] then []
    else if order[0] != msg.from && msg.to == users[order[0]].userId then [Send(users[order[0]], msg)]
    else ForwardTo(users, order[1..], msg)
  }

  /** Forward (lines 300-319): the message, verbatim, to at most one member of the room; the registry stays. */
  ghost function ForwardMessage(rooms: Registry, roomId: RoomId, msg: Message): (r: Turn)
    ensures r.Next? && r.rooms == rooms && |r.effects| <= 1
    ensures forall e :: e in r.effects ==> e.Send? && e.msg == msg && roomId in rooms && e.to in rooms[roomId].users.Values
  {
    if roomId !in rooms then Next(rooms, [])
    else
      var users := rooms[roomId].users;
      Next(rooms, ForwardTo(users, Enumerate(users.Keys), msg))
  }

  /**
   * Admission (lines 320-395). Any action other than APPROVE is handled as a
   * rejection; a target that is not waiting is ignored.
   */
  ghost function Admission(rooms: Registry, userId: UserId, action: string, roomId: RoomId): (r: Turn)
    ensures r.Panic? ==> roomId in rooms && userId in rooms[roomId].waitUsers && rooms[roomId].owner.None?
    ensures r.Next? ==> r.rooms.Keys <= rooms.Keys
  {
    if roomId !in rooms || userId !in rooms[roomId].waitUsers then Next(rooms, [])
    else if action == APPROVE then Approve(rooms, userId, roomId)
    else Reject(rooms, userId, roomId)
  }

  /**
   * APPROVE of a waiting user (lines 322-368): moved in while the room has
   * space, told FULL otherwise. The reply names the owner as sender; without
   * an owner the nil dereference panics.
   */
  ghost function Approve(rooms: Registry, userId: UserId, roomId: RoomId): (r: Turn)
    requires roomId in rooms && userId in rooms[roomId].waitUsers
    ensures r.Panic? <==> |rooms[roomId].users| < Capacity && rooms[roomId].owner.None?
    ensures r.Next? && |rooms[roomId].users| < Capacity ==>
              roomId in r.rooms && userId !in r.rooms[roomId].waitUsers &&
              rooms[roomId].waitUsers[userId].userId in r.rooms[roomId].users
    ensures r.Next? && |rooms[roomId].users| >= Capacity ==> r.rooms == rooms
  {
    var room := rooms[roomId];
    var conn := room.waitUsers[userId];
    if |room.users| < Capacity then
      var users := room.users[conn.userId := conn];
      var room' := room.(users := users, waitUsers := room.waitUsers - {userId});
      match room.owner
      case None => Panic
      case Some(owner) =>
        Next(rooms[roomId := room'],
             [Send(conn, Reply(APPROVE, userId, owner.userId))] + Readies(users, Enumerate(users.Keys), conn.userId, true))
    else
      Next(rooms, [Send(conn, Reply(FULL, conn.userId, ""))])
  }

  /**
   * REJECT of a waiting user (lines 372-393): told REJECT and dropped from the
   * waiting list, its queue left open; an emptied room is deleted. Without an
   * owner the nil dereference panics.
   */
  ghost function Reject(rooms: Registry, userId: UserId, roomId: RoomId): (r: Turn)
    requires roomId in rooms && userId in rooms[roomId].waitUsers
    ensures r.Panic? <==> rooms[roomId].owner.None?
    ensures r.Next? && rooms[roomId].roomId == roomId && roomId in r.rooms ==>
              userId !in r.rooms[roomId].waitUsers && r.rooms[roomId].users == rooms[roomId].users
    ensures r.Next? ==> |r.effects| == 1 && r.effects[0].Send? && r.effects[0].to == rooms[roomId].waitUsers[userId]
  {
    var room := rooms[roomId];
    var conn := room.waitUsers[userId];
    match room.owner
    case None => Panic
    case Some(owner) =>
      var room' := room.(waitUsers := room.waitUsers - {userId});
      var rooms' := if |room'.users| == 0 && |room'.waitUsers| == 0 then rooms - {room.roomId} else rooms[roomId := room'];
      Next(rooms', [Send(conn, Reply(REJECT, userId, owner.userId))])
  }

  /** One turn of the room manager's loop. `lookup` answers a register event's room-store query. */
  ghost function Step(rooms: Registry, ev: Event, lookup: Lookup): (r: Turn)
    ensures r.Panic? ==> ev.Admit? && ev.roomId in rooms && rooms[ev.roomId].owner.None?
  {
    match ev
    case Register(user) =>
      if user.isOwner then RegisterOwner(rooms, user, lookup) else RegisterJoiner(rooms, user, lookup)
    case Unregister(user, scope) => UnregisterUser(rooms, user, scope)
    case Forward(roomId, msg) => ForwardMessage(rooms, roomId, msg)
    case Admit(userId, action, roomId) => Admission(rooms, userId, action, roomId)
  }
}
