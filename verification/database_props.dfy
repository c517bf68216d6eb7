/**
 * Properties of the room store that relate several calls: room ids stay
 * unique across all users under NewRoom, DeleteRoom and ToggleRoomLock, and
 * with unique ids the answer of GetRoom does not depend on which document the
 * query returns.
 */
module StoreProofs {
  import opened Wrappers
  import opened Database

  /** No room id is listed twice, neither within one user's rooms nor across users. */
  ghost predicate UniqueRoomIds(store: Store) {
    forall u, v, i, j ::
      u in store && v in store && 0 <= i < |store[u].rooms| && 0 <= j < |store[v].rooms| &&
      store[u].rooms[i].roomId == store[v].rooms[j].roomId
      ==> u == v && i == j
  }

  /** Creating a room through NewRoom keeps room ids unique. */
  lemma NewRoomKeepsIdsUnique(store: Store, id: string, room: Room)
    requires UniqueRoomIds(store)
    ensures UniqueRoomIds(NewRoom(store, id, room).store)
  {
    var r := NewRoom(store, id, room);
    if r.outcome.Pass? {
      var s := r.store;
      var n := |store[id].rooms|;
      // the new room sits at index n of user id's list; every other entry is old
      // and, as no user listed the new id, differs from it
      assert forall v, j :: v in store && 0 <= j < |store[v].rooms| ==> store[v].rooms[j].roomId != room.roomId;
      assert forall v, j :: v in s && 0 <= j < |s[v].rooms| && !(v == id && j == n) ==> s[v].rooms[j] == store[v].rooms[j];
    }
  }

  /** A plain AddRoom does not check other users, so it can introduce a duplicate room id. */
  lemma AddRoomMayDuplicateIds()
    ensures exists store: Store, id: string, room: Room ::
              UniqueRoomIds(store) && AddRoom(store, id, room).outcome.Pass? &&
              !UniqueRoomIds(AddRoom(store, id, room).store)
  {
    var r := Room("r1", false);
    var store: Store := map["a" := User("a", "", "", [r]), "b" := User("b", "", "", [])];
    var after := AddRoom(store, "b", r).store;
    assert after["b"].rooms[0] == r;
    assert after["a"].rooms[0] == r;
    assert !UniqueRoomIds(after);
  }

  /** Deleting a room keeps room ids unique. */
  lemma DeleteRoomKeepsIdsUnique(store: Store, id: string, roomId: string)
    requires UniqueRoomIds(store)
    ensures UniqueRoomIds(DeleteRoom(store, id, roomId).store)
  {
    var r := DeleteRoom(store, id, roomId);
    if r.outcome.Pass? {
      var s := r.store;
      forall u, v, i, j |
        u in s && v in s && 0 <= i < |s[u].rooms| && 0 <= j < |s[v].rooms| &&
        s[u].rooms[i].roomId == s[v].rooms[j].roomId
        ensures u == v && i == j
      {
        DeleteRoomMovesOne(store, id, roomId, u, i);
        DeleteRoomMovesOne(store, id, roomId, v, j);
      }
    }
  }

  /** Where a room of a user's list stood before a deletion: the last slot fills the deleted one. */
  function OldIndex(store: Store, id: string, roomId: string, u: string, i: int): int
    requires id in store
  {
    if u == id && i == FirstRoomIndex(store[id].rooms, roomId) then |store[id].rooms| - 1 else i
  }

  /** After a deletion, every room of every list is the room that stood at its old index. */
  lemma DeleteRoomMovesOne(store: Store, id: string, roomId: string, u: string, i: int)
    requires DeleteRoom(store, id, roomId).outcome.Pass?
    requires u in DeleteRoom(store, id, roomId).store && 0 <= i < |DeleteRoom(store, id, roomId).store[u].rooms|
    ensures u in store && 0 <= OldIndex(store, id, roomId, u, i) < |store[u].rooms|
    ensures DeleteRoom(store, id, roomId).store[u].rooms[i] == store[u].rooms[OldIndex(store, id, roomId, u, i)]
    ensures u == id ==> i < |store[u].rooms| - 1
  {
  }

  /** Flipping a lock flag keeps room ids unique. */
  lemma ToggleRoomLockKeepsIdsUnique(store: Store, id: string, roomId: string)
    requires UniqueRoomIds(store)
    ensures UniqueRoomIds(ToggleRoomLock(store, id, roomId).store)
  {
    var r := ToggleRoomLock(store, id, roomId);
    if r.outcome.Pass? {
      var s := r.store;
      forall u, v, i, j |
        u in s && v in s && 0 <= i < |s[u].rooms| && 0 <= j < |s[v].rooms| &&
        s[u].rooms[i].roomId == s[v].rooms[j].roomId
        ensures u == v && i == j
      {
        assert s[u].rooms[i].roomId == store[u].rooms[i].roomId;
        assert s[v].rooms[j].roomId == store[v].rooms[j].roomId;
      }
    }
  }

  /**
   * With unique room ids GetRoom finds the one room of that name, whichever
   * document the query returns, and it agrees with GetUserRoom for its owner.
   */
  lemma GetRoomIsTheOwnersRoom(store: Store, owner: string, roomId: string)
    requires UniqueRoomIds(store)
    requires owner != "" && roomId != "" && owner in store && HasRoom(store[owner].rooms, roomId)
    ensures GetRoom(store, roomId) == GetUserRoom(store, owner, roomId)
  {
    var g := GetRoom(store, roomId);
    var rooms := store[owner].rooms;
    var k := FirstRoomIndex(rooms, roomId);
    assert RoomTaken(store, roomId);
    assert g.Ok?;
    var u :| u in store && g.value in store[u].rooms;
    var i :| 0 <= i < |store[u].rooms| && store[u].rooms[i] == g.value;
    assert store[u].rooms[i].roomId == rooms[k].roomId;
  }
}
