/**
 * Properties of the room manager: each event keeps every room valid (at most
 * four members, never empty, keyed by user id), and each branch moves
 * members, replies and closes queues exactly as the rules of
 * signaling/room_managers.go say.
 */
module ActorProofs {
  import opened Wrappers
  import opened Collections
  import opened Protocol
  import opened Rooms
  import opened Actor
  import Database

  /** Adding one new key to a map grows it by exactly one. */
  lemma InsertGrows<V>(m: map<UserId, V>, k: UserId, v: V)
    requires k !in m
    ensures |m[k := v]| == |m| + 1
  {
    assert m[k := v].Keys == m.Keys + {k};
  }

  /** Removing a present key shrinks a map by exactly one. */
  lemma RemoveShrinks<V>(m: map<UserId, V>, k: UserId)
    requires k in m
    ensures |m - {k}| == |m| - 1
  {
    assert (m - {k}).Keys == m.Keys - {k};
  }

  /** Storing a valid room under its own id keeps the registry valid. */
  lemma InvUpdate(rooms: Registry, room: Room)
    requires Inv(rooms) && ValidRoom(room)
    ensures Inv(rooms[room.roomId := room])
  {
  }

  /** Deleting a room keeps the registry valid. */
  lemma InvRemove(rooms: Registry, id: RoomId)
    requires Inv(rooms)
    ensures Inv(rooms - {id})
  {
  }

  // ---------------------------------------------------------------------------
  // Register

  /** The turn an owner claim takes on a live room with space that it is not a member of. */
  lemma TakeoverTurn(rooms: Registry, user: User, locked: bool)
    requires user.roomId in rooms
    requires user.conn.userId !in rooms[user.roomId].users && |rooms[user.roomId].users| < Capacity
    ensures var conn := user.conn;
      var room := rooms[user.roomId];
      var users := room.users[conn.userId := conn];
      var permits := if locked then Permits(conn, room.waitUsers, Enumerate(room.waitUsers.Keys)) else [];
      RegisterOwner(rooms, user, Found(locked)) ==
        Next(rooms[user.roomId := room.(users := users, owner := Some(conn))],
             [Send(conn, Reply(APPROVE, conn.userId, ServerId))] + Readies(users, Enumerate(users.Keys), conn.userId, false) + permits)
  {
  }

  /** A member added to a valid room with space, as its owner, leaves it valid. */
  lemma TakeoverKeepsValid(room: Room, conn: Conn)
    requires ValidRoom(room) && conn.userId !in room.users && |room.users| < Capacity
    ensures ValidRoom(room.(users := room.users[conn.userId := conn], owner := Some(conn)))
  {
    InsertGrows(room.users, conn.userId, conn);
  }

  /** An owner register never panics and keeps every room valid. */
  lemma RegisterOwnerKeepsInv(rooms: Registry, user: User, lookup: Lookup)
    requires Inv(rooms)
    ensures RegisterOwner(rooms, user, lookup).Next?
    ensures Inv(RegisterOwner(rooms, user, lookup).rooms)
  {
    var conn := user.conn;
    var t := RegisterOwner(rooms, user, lookup);
    if lookup.Found? {
      if user.roomId !in rooms {
        var room := Room(user.roomId, lookup.isLocked, Some(conn), map[conn.userId := conn], map[]);
        assert t.rooms == rooms[user.roomId := room];
        InvUpdate(rooms, room);
      } else {
        var room := rooms[user.roomId];
        if conn.userId !in room.users && |room.users| < Capacity {
          TakeoverTurn(rooms, user, lookup.isLocked);
          TakeoverKeepsValid(room, conn);
          InvUpdate(rooms, room.(users := room.users[conn.userId := conn], owner := Some(conn)));
        } else {
          assert t.rooms == rooms;
        }
      }
    } else {
      assert t.rooms == rooms;
    }
  }

  /** Every room but `id` is valid and stored under its own id. */
  ghost predicate InvExcept(rooms: Registry, id: RoomId) {
    forall other :: other in rooms && other != id ==> rooms[other].roomId == other && ValidRoom(rooms[other])
  }

  /** Storing a valid room under its own id completes a registry valid elsewhere. */
  lemma InvFromExcept(rooms: Registry, room: Room)
    requires InvExcept(rooms, room.roomId) && ValidRoom(room)
    ensures Inv(rooms[room.roomId := room])
  {
  }

  /** A room just created by a joiner: no member, nobody waiting, no owner. */
  ghost predicate Shadow(room: Room) {
    room.users == map[] && room.waitUsers == map[] && room.owner == None
  }

  /** The registry a joiner's step starts from: valid except that its room may be a fresh shadow. */
  ghost predicate JoinReady(rooms: Registry, user: User) {
    && user.roomId in rooms
    && InvExcept(rooms, user.roomId)
    && rooms[user.roomId].roomId == user.roomId
    && (ValidRoom(rooms[user.roomId]) || Shadow(rooms[user.roomId]))
  }

  /** Joining a locked room leaves every room valid. */
  lemma JoinLockedKeepsInv(rooms: Registry, user: User)
    requires JoinReady(rooms, user) && rooms[user.roomId].isLocked
    ensures JoinLocked(rooms, user).Next? && Inv(JoinLocked(rooms, user).rooms)
  {
    var conn := user.conn;
    var room := rooms[user.roomId];
    if conn.userId !in room.waitUsers && conn.userId !in room.users {
      InsertGrows(room.waitUsers, conn.userId, conn);
      var room' := room.(waitUsers := room.waitUsers[conn.userId := conn]);
      assert ValidRoom(room');
      InvFromExcept(rooms, room');
      assert JoinLocked(rooms, user).rooms == rooms[user.roomId := room'];
    } else {
      assert ValidRoom(room);
      InvFromExcept(rooms, room);
      assert rooms[user.roomId := room] == rooms;
    }
  }

  /** Joining an open room leaves every room valid. */
  lemma JoinOpenKeepsInv(rooms: Registry, user: User)
    requires JoinReady(rooms, user) && !rooms[user.roomId].isLocked
    ensures JoinOpen(rooms, user).Next? && Inv(JoinOpen(rooms, user).rooms)
  {
    var conn := user.conn;
    var room := rooms[user.roomId];
    if conn.userId !in room.users && |room.users| < Capacity {
      InsertGrows(room.users, conn.userId, conn);
      var room' := room.(users := room.users[conn.userId := conn]);
      assert ValidRoom(room');
      InvFromExcept(rooms, room');
      assert JoinOpen(rooms, user).rooms == rooms[user.roomId := room'];
    } else {
      assert ValidRoom(room);
      InvFromExcept(rooms, room);
      assert rooms[user.roomId := room] == rooms;
      assert JoinOpen(rooms, user).rooms == rooms;
    }
  }

  /** A joiner register never panics and keeps every room valid. */
  lemma RegisterJoinerKeepsInv(rooms: Registry, user: User, lookup: Lookup)
    requires Inv(rooms)
    ensures RegisterJoiner(rooms, user, lookup).Next?
    ensures Inv(RegisterJoiner(rooms, user, lookup).rooms)
  {
    if lookup.Found? {
      var rooms1 := if user.roomId !in rooms then rooms[user.roomId := Room(user.roomId, lookup.isLocked, None, map[], map[])] else rooms;
      assert JoinReady(rooms1, user);
      if rooms1[user.roomId].isLocked {
        JoinLockedKeepsInv(rooms1, user);
      } else {
        JoinOpenKeepsInv(rooms1, user);
      }
    }
  }

  // ---------------------------------------------------------------------------
  // Unregister

  /**
   * deleteUser on a member: the member's entry is gone, the connection passed
   * in is closed first, the owner is cleared exactly when it is that
   * connection, and the room is deleted, with every waiting connection
   * closed after it, exactly when no member is left.
   */
  lemma DeleteUserSpec(rooms: Registry, room: Room, conn: Conn)
    requires Inv(rooms) && room.roomId in rooms && rooms[room.roomId] == room
    requires conn.userId in room.users
    ensures DeleteUser(rooms, room, conn).effects[0] == Close(conn)
    ensures DeleteUser(rooms, room, conn).room.users == room.users - {conn.userId}
    ensures DeleteUser(rooms, room, conn).room.owner.None? <==> room.owner.None? || room.owner.value.id == conn.id
    ensures |room.users| == 1 ==>
              && DeleteUser(rooms, room, conn).rooms == rooms - {room.roomId}
              && DeleteUser(rooms, room, conn).effects == [Close(conn)] + CloseAll(room.waitUsers, Enumerate(room.waitUsers.Keys))
    ensures |room.users| > 1 ==>
              && DeleteUser(rooms, room, conn).rooms == rooms[room.roomId := DeleteUser(rooms, room, conn).room]
              && DeleteUser(rooms, room, conn).effects == [Close(conn)]
              && DeleteUser(rooms, room, conn).room.waitUsers == room.waitUsers
              && ValidRoom(DeleteUser(rooms, room, conn).room)
    ensures Inv(DeleteUser(rooms, room, conn).rooms)
  {
    var c := DeleteUser(rooms, room, conn);
    DeleteUserShape(rooms, room, conn);
    if |room.users| == 1 {
      DeleteUserLast(rooms, room, conn);
      InvRemove(rooms, room.roomId);
    } else {
      assert ValidRoom(room);
      RemainingMembersValid(room, conn);
      InvUpdate(rooms, c.room);
    }
  }

  /** What deleteUser does to the registry, the room and the effects, whatever the registry holds. */
  lemma DeleteUserShape(rooms: Registry, room: Room, conn: Conn)
    requires conn.userId in room.users
    ensures var c := DeleteUser(rooms, room, conn);
      && c.effects[0] == Close(conn)
      && c.room.users == room.users - {conn.userId}
      && c.room.roomId == room.roomId && c.room.isLocked == room.isLocked
      && (c.room.owner.None? <==> room.owner.None? || room.owner.value.id == conn.id)
      && (c.room.owner.Some? ==> c.room.owner == room.owner)
      && (|room.users| > 1 ==>
            && c.rooms == rooms[room.roomId := c.room]
            && c.effects == [Close(conn)]
            && c.room.waitUsers == room.waitUsers)
  {
    RemoveShrinks(room.users, conn.userId);
  }

  /** When the last member leaves, deleteUser deletes the room and then closes every waiting connection. */
  lemma DeleteUserLast(rooms: Registry, room: Room, conn: Conn)
    requires conn.userId in room.users && |room.users| == 1
    ensures var c := DeleteUser(rooms, room, conn);
      && c.rooms == rooms - {room.roomId}
      && c.effects == [Close(conn)] + CloseAll(room.waitUsers, Enumerate(room.waitUsers.Keys))
  {
    RemoveShrinks(room.users, conn.userId);
  }

  /** A valid room that loses one of several members stays valid. */
  lemma RemainingMembersValid(room: Room, conn: Conn)
    requires ValidRoom(room) && conn.userId in room.users && |room.users| > 1
    ensures ValidRoom(DeleteUser(map[], room, conn).room)
  {
    RemoveShrinks(room.users, conn.userId);
  }

  /** Closing every connection of a map, in an order that visits each key once. */
  lemma CloseAllCovers(m: map<UserId, Conn>, order: seq<UserId>)
    requires forall i :: 0 <= i < |order| ==> order[i] in m
    requires forall k :: k in m ==> k in order
    ensures forall e :: e in CloseAll(m, order) ==> e.Close? && e.conn in m.Values
    ensures forall w :: w in m.Values ==> Close(w) in CloseAll(m, order)
  {
    var r := CloseAll(m, order);
    forall w | w in m.Values ensures Close(w) in r {
      var k :| k in m && m[k] == w;
      var i :| 0 <= i < |order| && order[i] == k;
      assert r[i] == Close(w);
    }
  }

  /** The relation between the registry and the room object a removal loop works on. */
  ghost predicate Tracks(rooms: Registry, room: Room) {
    && (room.roomId in rooms ==> rooms[room.roomId] == room)
    && (room.roomId !in rooms ==> room.users == map[])
  }

  /** The member loop of an ALL unregister keeps every room valid. */
  lemma {:induction false} DeleteAllKeepsInv(rooms: Registry, room: Room, order: seq<UserId>)
    requires Inv(rooms) && Tracks(rooms, room)
    ensures Inv(DeleteAll(rooms, room, order).rooms)
    ensures Tracks(DeleteAll(rooms, room, order).rooms, DeleteAll(rooms, room, order).room)
    decreases |order|
  {
    if order != [] && order[0] in room.users {
      var conn := room.users[order[0]];
      DeleteUserSpec(rooms, room, conn);
      var c := DeleteUser(rooms, room, conn);
      DeleteAllKeepsInv(c.rooms, c.room, order[1..]);
    } else if order != [] {
      DeleteAllKeepsInv(rooms, room, order[1..]);
    }
  }

  /** `order` visits exactly the keys of `m`, each once. */
  ghost predicate Visits<V>(order: seq<UserId>, m: map<UserId, V>) {
    Distinct(order) && (forall k :: k in order <==> k in m)
  }

  /** An ALL loop over a room with no member changes nothing. */
  lemma {:induction false} DeleteAllOnEmpty(rooms: Registry, room: Room, order: seq<UserId>)
    requires room.users == map[]
    ensures DeleteAll(rooms, room, order) == Cleanup(rooms, room, [])
    decreases |order|
  {
    if order != [] {
      DeleteAllOnEmpty(rooms, room, order[1..]);
    }
  }

  /** The facts the ALL loop over a room guarantees: room gone, one close per held connection. */
  ghost predicate ClosesRoom(rooms: Registry, room: Room, c: Cleanup) {
    && c.rooms == rooms - {room.roomId}
    && |c.effects| == |room.users| + |room.waitUsers|
    && (forall e :: e in c.effects ==> e.Close? && Holds(room, e.conn))
    && (forall w :: Holds(room, w) ==> Close(w) in c.effects)
  }

  /**
   * The ALL loop over a room with members: the room leaves the registry, the
   * other rooms stay, and the effects close the queue of every member and of
   * every waiting joiner.
   */
  lemma {:induction false} DeleteAllSpec(rooms: Registry, room: Room, order: seq<UserId>)
    requires Inv(rooms) && room.roomId in rooms && rooms[room.roomId] == room
    requires Visits(order, room.users) && |room.users| > 0
    ensures ClosesRoom(rooms, room, DeleteAll(rooms, room, order))
    decreases |order|
  {
    if |room.users| == 1 {
      DeleteAllLastMember(rooms, room, order);
    } else {
      var k := order[0];
      var conn := room.users[k];
      var d := DeleteUser(rooms, room, conn);
      DeleteOneOfMany(rooms, room, k);
      assert Visits(order[1..], d.room.users) by {
        assert Distinct(order[1..]);
        forall x ensures x in order[1..] <==> x in d.room.users {
          if x in order[1..] { assert x != order[0]; }
          if x in d.room.users { assert x in order; assert x != order[0]; }
        }
      }
      var rest := DeleteAll(d.rooms, d.room, order[1..]);
      DeleteAllSpec(d.rooms, d.room, order[1..]);
      DeleteAllNextMember(rooms, room, k, d, rest);
      assert DeleteAll(rooms, room, order) == Cleanup(rest.rooms, rest.room, d.effects + rest.effects);
    }
  }

  /** Deleting one of several members keeps the room registered under its id, with the rest. */
  lemma DeleteOneOfMany(rooms: Registry, room: Room, k: UserId)
    requires Inv(rooms) && room.roomId in rooms && rooms[room.roomId] == room
    requires k in room.users && |room.users| > 1
    ensures var conn := room.users[k];
      var d := DeleteUser(rooms, room, conn);
      && Inv(d.rooms) && d.room.roomId == room.roomId && d.room.roomId in d.rooms && d.rooms[d.room.roomId] == d.room
      && d.effects == [Close(conn)] && d.room.users == room.users - {k} && d.room.waitUsers == room.waitUsers
      && d.rooms - {d.room.roomId} == rooms - {room.roomId} && |d.room.users| > 0
  {
    var conn := room.users[k];
    assert conn.userId == k;
    DeleteUserSpec(rooms, room, conn);
    RemoveShrinks(room.users, k);
  }

  /** The ALL loop when one member is left: its close, then the waiting list's closes. */
  lemma DeleteAllLastMember(rooms: Registry, room: Room, order: seq<UserId>)
    requires Inv(rooms) && room.roomId in rooms && rooms[room.roomId] == room
    requires Visits(order, room.users) && |room.users| == 1
    ensures ClosesRoom(rooms, room, DeleteAll(rooms, room, order))
  {
    var k := order[0];
    var conn := room.users[k];
    DeleteUserSpec(rooms, room, conn);
    var d := DeleteUser(rooms, room, conn);
    RemoveShrinks(room.users, k);
    DeleteAllOnEmpty(d.rooms, d.room, order[1..]);
    assert DeleteAll(rooms, room, order) == Cleanup(d.rooms, d.room, d.effects + []);
    assert d.effects + [] == d.effects;
    LastMemberCloses(room, k);
  }

  /** The closes of a room's last member leaving: its own, then each waiting connection's. */
  lemma LastMemberCloses(room: Room, k: UserId)
    requires k in room.users && |room.users| == 1
    ensures var effects := [Close(room.users[k])] + CloseAll(room.waitUsers, Enumerate(room.waitUsers.Keys));
      && |effects| == |room.users| + |room.waitUsers|
      && (forall e :: e in effects ==> e.Close? && Holds(room, e.conn))
      && (forall w :: Holds(room, w) ==> Close(w) in effects)
  {
    var conn := room.users[k];
    var waiting := Enumerate(room.waitUsers.Keys);
    CloseAllCovers(room.waitUsers, waiting);
    assert room.users.Keys == {k} by {
      RemoveShrinks(room.users, k);
      assert (room.users - {k}).Keys == room.users.Keys - {k};
    }
    forall w | w in room.users.Values ensures w == conn {
      var j :| j in room.users && room.users[j] == w;
      assert j in {k};
    }
  }

  /** One turn of the ALL loop when more members follow, given the facts for the rest. */
  lemma DeleteAllNextMember(rooms: Registry, room: Room, k: UserId, d: Cleanup, rest: Cleanup)
    requires k in room.users && |room.users| > 1
    requires d.effects == [Close(room.users[k])]
    requires d.room.users == room.users - {k} && d.room.waitUsers == room.waitUsers
    requires d.rooms - {d.room.roomId} == rooms - {room.roomId}
    requires ClosesRoom(d.rooms, d.room, rest)
    ensures ClosesRoom(rooms, room, Cleanup(rest.rooms, rest.room, d.effects + rest.effects))
  {
    var conn := room.users[k];
    RemoveShrinks(room.users, k);
    HeldAfterRemoval(room, d.room, k);
    var all := d.effects + rest.effects;
    assert |all| == |room.users| + |room.waitUsers|;
    forall w | Holds(room, w) ensures Close(w) in all {
      if w != conn {
        assert Close(w) in rest.effects;
      }
    }
    forall e | e in all ensures e.Close? && Holds(room, e.conn) {
      if e != Close(conn) {
        assert e in rest.effects;
      }
    }
  }

  /** After removing member `k`, the room holds every connection it held before but `k`'s. */
  lemma HeldAfterRemoval(room: Room, room': Room, k: UserId)
    requires k in room.users
    requires room'.users == room.users - {k} && room'.waitUsers == room.waitUsers
    ensures forall w :: Holds(room, w) && w != room.users[k] ==> Holds(room', w)
    ensures forall w :: Holds(room', w) ==> Holds(room, w)
  {
    forall w | Holds(room, w) && w != room.users[k] ensures Holds(room', w) {
      if w in room.users.Values {
        var j :| j in room.users && room.users[j] == w;
        assert j in room'.users;
      }
    }
  }

  /** Every unregister keeps every room valid. */
  lemma UnregisterKeepsInv(rooms: Registry, user: User, scope: Scope)
    requires Inv(rooms)
    ensures UnregisterUser(rooms, user, scope).Next?
    ensures Inv(UnregisterUser(rooms, user, scope).rooms)
  {
    if user.roomId in rooms {
      var room := rooms[user.roomId];
      var uid := user.conn.userId;
      if scope == All {
        DeleteAllKeepsInv(rooms, room, Enumerate(room.users.Keys));
        assert Tracks(rooms, room);
      } else if uid in room.users {
        DeleteUserSpec(rooms, room, user.conn);
      } else if uid in room.waitUsers {
        RemoveShrinks(room.waitUsers, uid);
      }
    }
  }

  // ---------------------------------------------------------------------------
  // Admission

  /** An approval keeps every room valid whenever it does not panic. */
  lemma ApproveKeepsInv(rooms: Registry, userId: UserId, roomId: RoomId)
    requires Inv(rooms) && roomId in rooms && userId in rooms[roomId].waitUsers
    ensures Approve(rooms, userId, roomId).Next? ==> Inv(Approve(rooms, userId, roomId).rooms)
  {
    var room := rooms[roomId];
    var conn := room.waitUsers[userId];
    var t := Approve(rooms, userId, roomId);
    if |room.users| < Capacity && t.Next? {
      assert room.isLocked && conn.userId == userId;
      var users := room.users[conn.userId := conn];
      assert |users| <= Capacity by {
        if conn.userId !in room.users { InsertGrows(room.users, conn.userId, conn); }
        else { assert users.Keys == room.users.Keys; }
      }
      var room' := room.(users := users, waitUsers := room.waitUsers - {userId});
      assert ValidRoom(room');
      InvUpdate(rooms, room');
      assert t.rooms == rooms[roomId := room'];
    }
  }

  /** A rejection keeps every room valid whenever it does not panic. */
  lemma RejectKeepsInv(rooms: Registry, userId: UserId, roomId: RoomId)
    requires Inv(rooms) && roomId in rooms && userId in rooms[roomId].waitUsers
    ensures Reject(rooms, userId, roomId).Next? ==> Inv(Reject(rooms, userId, roomId).rooms)
  {
    var room := rooms[roomId];
    var t := Reject(rooms, userId, roomId);
    if t.Next? {
      var room' := room.(waitUsers := room.waitUsers - {userId});
      if |room'.users| == 0 && |room'.waitUsers| == 0 {
        InvRemove(rooms, room.roomId);
      } else {
        assert ValidRoom(room');
        InvUpdate(rooms, room');
      }
    }
  }

  /** An admission decision keeps every room valid whenever it does not panic. */
  lemma AdmissionKeepsInv(rooms: Registry, userId: UserId, action: string, roomId: RoomId)
    requires Inv(rooms)
    ensures Admission(rooms, userId, action, roomId).Next? ==> Inv(Admission(rooms, userId, action, roomId).rooms)
  {
    if roomId in rooms && userId in rooms[roomId].waitUsers {
      if action == APPROVE {
        ApproveKeepsInv(rooms, userId, roomId);
      } else {
        RejectKeepsInv(rooms, userId, roomId);
      }
    }
  }

  // ---------------------------------------------------------------------------
  // The whole step and runs of steps

  /** Every turn of the room manager that does not panic keeps every room valid. */
  lemma StepKeepsInv(rooms: Registry, ev: Event, lookup: Lookup)
    requires Inv(rooms)
    ensures Step(rooms, ev, lookup).Next? ==> Inv(Step(rooms, ev, lookup).rooms)
  {
    match ev
    case Register(user) =>
      if user.isOwner { RegisterOwnerKeepsInv(rooms, user, lookup); }
      else { RegisterJoinerKeepsInv(rooms, user, lookup); }
    case Unregister(user, scope) => UnregisterKeepsInv(rooms, user, scope);
    case Forward(_, _) =>
    case Admit(userId, action, roomId) => AdmissionKeepsInv(rooms, userId, action, roomId);
  }

  /** An event together with the room-store answer it receives if it is a register. */
  datatype Input = Input(ev: Event, lookup: Lookup)

  /** The registry after a sequence of events, or None once one of them panics. */
  ghost function Run(rooms: Registry, inputs: seq<Input>): Option<Registry>
    decreases |inputs|
  {
    if inputs == [] then Some(rooms)
    else
      match Step(rooms, inputs[0].ev, inputs[0].lookup)
      case Panic => None
      case Next(rooms', _) => Run(rooms', inputs[1..])
  }

  /**
   * From an empty registry, any sequence of events leaves only rooms with at
   * most four members, none of them empty, for as long as the process runs.
   */
  lemma {:induction false} RunKeepsInv(rooms: Registry, inputs: seq<Input>)
    requires Inv(rooms)
    ensures Run(rooms, inputs).Some? ==> Inv(Run(rooms, inputs).value)
    ensures Run(rooms, inputs).Some? ==>
              forall id :: id in Run(rooms, inputs).value ==>
                var room := Run(rooms, inputs).value[id];
                |room.users| <= Capacity && (room.users != map[] || room.waitUsers != map[])
    decreases |inputs|
  {
    if inputs != [] {
      StepKeepsInv(rooms, inputs[0].ev, inputs[0].lookup);
      var t := Step(rooms, inputs[0].ev, inputs[0].lookup);
      if t.Next? {
        RunKeepsInv(t.rooms, inputs[1..]);
      }
    }
    if Run(rooms, inputs).Some? {
      var final := Run(rooms, inputs).value;
      forall id | id in final
        ensures |final[id].users| <= Capacity && (final[id].users != map[] || final[id].waitUsers != map[])
      {
        assert ValidRoom(final[id]);
      }
    }
  }
}
