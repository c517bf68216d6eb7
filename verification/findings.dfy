/**
 * Four defects of the room manager, each shown on a concrete run of the
 * model as written, and a corrected room manager (`StepFixed`) with the
 * property the defect breaks proved about it.
 */
module Findings {
  import opened Wrappers
  import opened Collections
  import opened Protocol
  import opened Rooms
  import opened Actor
  import opened ActorProofs
  import opened ActorRules
  import Pump

  /** The only visiting order of a one-element set. */
  lemma EnumerateSingleton<T(!new)>(x: T)
    ensures Enumerate({x}) == [x]
  {
    var r := Enumerate({x});
    assert |r| == 1 && r[0] in {x};
  }

  // ---------------------------------------------------------------------------
  // Findings, as written

  /**
   * An owner claim ignores the waiting list (lines 87-99). A connection that
   * joined a locked room before its owner arrived, and then claims it, ends up
   * both a member and waiting; when it leaves, deleteUser closes its queue
   * once as the member and once more as a waiting user, which panics in Go.
   */
  lemma WaitingClaimantClosedTwice()
    ensures var c := Conn(1, "x", "X");
      var t1 := Step(map[], Register(User(c, "r", false)), Found(true));
      && t1.Next? && Inv(t1.rooms)
      && var t2 := Step(t1.rooms, Register(User(c, "r", true)), Found(true));
      && t2.Next? && Inv(t2.rooms) && !Disjoint(t2.rooms)
      && Step(t2.rooms, Unregister(User(c, "r", true), Self), Found(false)) == Next(map[], [Close(c), Close(c)])
  {
    var c := Conn(1, "x", "X");
    var waiting := Room("r", true, None, map[], map["x" := c]);
    var claimed := Room("r", true, Some(c), map["x" := c], map["x" := c]);
    WaitingClaimantJoins(c);
    WaitingClaimantClaims(c);
    WaitingClaimantLeaves(c);
    assert |waiting.waitUsers| == 1 && |claimed.users| == 1;
    assert "x" in claimed.users.Keys && "x" in claimed.waitUsers.Keys;
  }

  /** The first turn of the first finding: the joiner waits in a fresh ownerless locked room. */
  lemma WaitingClaimantJoins(c: Conn)
    requires c.userId == "x"
    ensures Step(map[], Register(User(c, "r", false)), Found(true)) ==
              Next(map["r" := Room("r", true, None, map[], map["x" := c])], [Send(c, Reply(WAIT, "x", ServerId))])
  {
  }

  /** The second turn: its owner claim makes it a member without taking it off the waiting list. */
  lemma WaitingClaimantClaims(c: Conn)
    requires c.userId == "x"
    ensures var waiting := Room("r", true, None, map[], map["x" := c]);
      var claimed := Room("r", true, Some(c), map["x" := c], map["x" := c]);
      Step(map["r" := waiting], Register(User(c, "r", true)), Found(true)) ==
        Next(map["r" := claimed], [Send(c, Reply(APPROVE, "x", ServerId)), Send(c, PermitMessage(c, "x", c.displayName))])
  {
    EnumerateSingleton("x");
    assert map["x" := c].Keys == {"x"};
    assert Readies(map["x" := c], ["x"], "x", false) == [];
  }

  /** The third turn: its SELF closes its queue as the last member and again as a waiting user. */
  lemma WaitingClaimantLeaves(c: Conn)
    requires c.userId == "x"
    ensures var claimed := Room("r", true, Some(c), map["x" := c], map["x" := c]);
      Step(map["r" := claimed], Unregister(User(c, "r", true), Self), Found(false)) == Next(map[], [Close(c), Close(c)])
  {
    var claimed := Room("r", true, Some(c), map["x" := c], map["x" := c]);
    assert |claimed.users| == 1;
    assert claimed.users - {"x"} == map[];
    EnumerateSingleton("x");
    assert claimed.waitUsers.Keys == {"x"};
    assert CloseAll(claimed.waitUsers, ["x"]) == [Close(c)];
    assert map["r" := claimed] - {"r"} == map[];
  }

  /**
   * A SELF unregister deletes by user id but closes the caller's queue
   * (lines 284-286 with deleteUser, lines 24-29). A second connection with a
   * member's user id is refused and closed at register; when its pump then
   * sends the deferred SELF, its queue is closed a second time, which panics
   * in Go, and the member's entry is deleted although its queue stays open.
   */
  lemma DuplicateLoginClosedTwice()
    ensures var a := Conn(1, "x", "A");
      var b := Conn(2, "x", "B");
      var rooms := map["r" := Room("r", false, Some(a), map["x" := a], map[])];
      && Inv(rooms)
      && Step(rooms, Register(User(b, "r", true)), Found(false)) ==
           Next(rooms, [SendError(b, UserAlreadyPresent("x", "r")), Close(b)])
      && Step(rooms, Unregister(User(b, "r", true), Self), Found(false)) == Next(map[], [Close(b)])
  {
    var a := Conn(1, "x", "A");
    var room := Room("r", false, Some(a), map["x" := a], map[]);
    assert |room.users| == 1;
    assert room.users - {"x"} == map[];
    assert Enumerate(room.waitUsers.Keys) == [];
    assert map["r" := room] - {"r"} == map[];
  }

  /**
   * END is authorised by the pump's own ownership claim only (read_write.go
   * lines 54 and 71-73), and the room manager closes the whole room on it
   * without checking who asks (lines 278-282). A client whose START was
   * refused by the room store can then END someone else's meeting: every
   * member is disconnected.
   */
  lemma UnverifiedClaimEndsRoom(e: Database.DbError)
    ensures var a := Conn(1, "x", "A");
      var b := Conn(2, "", "B");
      var rooms := map["r" := Room("r", false, Some(a), map["x" := a], map[])];
      var start := Message(START, "y", Text("r"), "", "", "", "");
      var end := Message(END, "", NoData, "", "", "", "");
      var claimed := User(b.(userId := "y"), "r", true);
      && Inv(rooms)
      && Pump.Run(User(b, "", false), [Pump.Received(start), Pump.Received(end)]).requests ==
           [Register(claimed), Unregister(claimed, All)]
      && Step(rooms, Register(claimed), Failed(e)) == Next(rooms, [SendError(claimed.conn, LookupError(e))])
      && Step(rooms, Unregister(claimed, All), Found(false)) == Next(map[], [Close(a)])
  {
    var a := Conn(1, "x", "A");
    var b := Conn(2, "", "B");
    Pump.ClaimAloneAuthorizesEnd(User(b, "", false), "y", "r");
    SoleMemberRoomEnds(a, User(b.(userId := "y"), "r", true));
  }

  /** ALL on a room whose only member is `a` closes `a` and deletes the room, whoever asks. */
  lemma SoleMemberRoomEnds(a: Conn, asker: User)
    requires a.userId == "x" && asker.roomId == "r"
    ensures var rooms := map["r" := Room("r", false, Some(a), map["x" := a], map[])];
      && Inv(rooms)
      && Step(rooms, Unregister(asker, All), Found(false)) == Next(map[], [Close(a)])
  {
    var room := Room("r", false, Some(a), map["x" := a], map[]);
    var rooms := map["r" := room];
    EnumerateSingleton("x");
    assert room.users.Keys == {"x"};
    assert |room.users| == 1;
    assert room.users - {"x"} == map[];
    assert Enumerate(room.waitUsers.Keys) == [];
    assert rooms - {"r"} == map[];
    var d := DeleteUser(rooms, room, a);
    assert d == Cleanup(map[], room.(users := map[], owner := None, waitUsers := map[]), [Close(a)]);
    assert DeleteAll(rooms, room, ["x"]) == Cleanup(d.rooms, d.room, [Close(a)]);
  }

  /**
   * The admission branch dereferences the owner without a nil check (lines
   * 331 and 378), and the pump passes on an APPROVE from any connection.
   * Two users that join a locked room before its owner wait there ownerless;
   * either can APPROVE the other, and the room manager panics, ending the
   * process for every meeting.
   */
  lemma OwnerlessApprovalPanics()
    ensures var x := Conn(1, "x", "X");
      var y := Conn(2, "y", "Y");
      var t1 := Step(map[], Register(User(x, "r", false)), Found(true));
      && t1.Next?
      && var t2 := Step(t1.rooms, Register(User(y, "r", false)), Found(true));
      && t2.Next? && Inv(t2.rooms)
      && Pump.Dispatch(User(x, "r", false), Message(APPROVE, "", NoData, "", "y", "", "")) ==
           Pump.Continue(User(x, "r", false), Some(Admit("y", APPROVE, "r")))
      && Step(t2.rooms, Admit("y", APPROVE, "r"), Found(false)).Panic?
  {
    var x := Conn(1, "x", "X");
    var y := Conn(2, "y", "Y");
    var r1 := Room("r", true, None, map[], map["x" := x]);
    assert Step(map[], Register(User(x, "r", false)), Found(true)) == Next(map["r" := r1], [Send(x, Reply(WAIT, "x", ServerId))]);
    var r2 := Room("r", true, None, map[], map["x" := x, "y" := y]);
    assert Step(map["r" := r1], Register(User(y, "r", false)), Found(true)) == Next(map["r" := r2], [Send(y, Reply(WAIT, "y", ServerId))]);
    assert "x" in r2.waitUsers.Keys;
  }

  // ---------------------------------------------------------------------------
  // The corrected room manager

  /**
   * The registry an owner claim works on once the claimant is taken off the
   * waiting list, in the case where the claim makes it a member.
   */
  ghost function Unqueued(rooms: Registry, user: User, lookup: Lookup): (r: Registry)
    ensures r.Keys == rooms.Keys
    ensures forall id :: id in rooms && id != user.roomId ==> r[id] == rooms[id]
    ensures user.roomId in rooms ==> r[user.roomId].users == rooms[user.roomId].users
    ensures user.roomId in rooms ==> user.conn.userId !in r[user.roomId].waitUsers || r == rooms
  {
    var id := user.roomId;
    if lookup.Found? && id in rooms && user.conn.userId !in rooms[id].users && |rooms[id].users| < Capacity then
      rooms[id := rooms[id].(waitUsers := rooms[id].waitUsers - {user.conn.userId})]
    else rooms
  }

  /** An owner claim that also takes the claimant off the waiting list; it never panics and answers the claimant first. */
  ghost function RegisterOwnerFixed(rooms: Registry, user: User, lookup: Lookup): (r: Turn)
    ensures r.Next? && r.effects != [] && r.effects[0].Send? && r.effects[0].to == user.conn
  {
    RegisterOwner(Unqueued(rooms, user, lookup), user, lookup)
  }

  /**
   * Unregister that acts only for the connection the room holds: SELF
   * removes the caller's entry only if the entry is that very connection,
   * and ALL is honoured only from the room's owner.
   */
  ghost function UnregisterFixed(rooms: Registry, user: User, scope: Scope): (r: Turn)
    ensures r.Next?
    ensures scope == All && !(user.roomId in rooms && IsOwner(rooms[user.roomId], user.conn)) ==>
              r.rooms == rooms && r.effects == []
    ensures scope == Self && user.roomId in rooms && user.conn.userId in rooms[user.roomId].users &&
            rooms[user.roomId].users[user.conn.userId].id != user.conn.id ==>
              r.rooms == rooms && r.effects == []
  {
    if user.roomId !in rooms then Next(rooms, [])
    else
      var room := rooms[user.roomId];
      var uid := user.conn.userId;
      var mine := || (uid in room.users && room.users[uid].id == user.conn.id)
                  || (uid !in room.users && uid in room.waitUsers && room.waitUsers[uid].id == user.conn.id);
      if (scope == All && IsOwner(room, user.conn)) || (scope == Self && mine) then UnregisterUser(rooms, user, scope)
      else Next(rooms, [])
  }

  /** Admission that leaves an ownerless room's waiting list for its owner to decide; it never panics. */
  ghost function AdmissionFixed(rooms: Registry, userId: UserId, action: string, roomId: RoomId): (r: Turn)
    ensures r.Next?
    ensures roomId in rooms && rooms[roomId].owner.None? ==> r.rooms == rooms && r.effects == []
  {
    if roomId in rooms && rooms[roomId].owner.None? then Next(rooms, [])
    else Admission(rooms, userId, action, roomId)
  }

  /** One turn of the corrected room manager: no event makes it panic. */
  ghost function StepFixed(rooms: Registry, ev: Event, lookup: Lookup): (r: Turn)
    ensures r.Next?
  {
    match ev
    case Register(user) =>
      if user.isOwner then RegisterOwnerFixed(rooms, user, lookup) else RegisterJoiner(rooms, user, lookup)
    case Unregister(user, scope) => UnregisterFixed(rooms, user, scope)
    case Forward(roomId, msg) => ForwardMessage(rooms, roomId, msg)
    case Admit(userId, action, roomId) => AdmissionFixed(rooms, userId, action, roomId)
  }

  // ---------------------------------------------------------------------------
  // Properties of the corrected room manager

  /** Replacing one room by a room whose members and waiting users are apart keeps them apart everywhere. */
  lemma DisjointUpdate(rooms: Registry, id: RoomId, room: Room)
    requires Disjoint(rooms) && room.users.Keys !! room.waitUsers.Keys
    ensures Disjoint(rooms[id := room])
  {
  }

  /** Whether an owner claim makes the claimant a member of a live room. */
  ghost predicate TakesOver(rooms: Registry, user: User, lookup: Lookup) {
    lookup.Found? && user.roomId in rooms && user.conn.userId !in rooms[user.roomId].users &&
    |rooms[user.roomId].users| < Capacity
  }

  /** A claim that does not take a live room over leaves it alone or creates a fresh one. */
  lemma ClaimOutsideTakeover(rooms: Registry, user: User, lookup: Lookup)
    requires Inv(rooms) && Disjoint(rooms) && !TakesOver(rooms, user, lookup)
    ensures RegisterOwnerFixed(rooms, user, lookup).Next?
    ensures Inv(RegisterOwnerFixed(rooms, user, lookup).rooms)
    ensures Disjoint(RegisterOwnerFixed(rooms, user, lookup).rooms)
  {
    assert Unqueued(rooms, user, lookup) == rooms;
    RegisterOwnerKeepsInv(rooms, user, lookup);
    if lookup.Found? && user.roomId !in rooms {
      var conn := user.conn;
      DisjointUpdate(rooms, user.roomId, Room(user.roomId, lookup.isLocked, Some(conn), map[conn.userId := conn], map[]));
    }
  }

  /** The registry after an owner claim that takes a live room over. */
  lemma TakeoverRooms(rooms: Registry, user: User, locked: bool)
    requires user.roomId in rooms && user.conn.userId !in rooms[user.roomId].users
    requires |rooms[user.roomId].users| < Capacity
    ensures var room := rooms[user.roomId];
      && RegisterOwner(rooms, user, Found(locked)).Next?
      && RegisterOwner(rooms, user, Found(locked)).rooms ==
           rooms[user.roomId := room.(users := room.users[user.conn.userId := user.conn], owner := Some(user.conn))]
  {
  }

  /** A takeover under the correction moves the claimant from the waiting list to the members. */
  lemma ClaimTakeover(rooms: Registry, user: User, lookup: Lookup)
    requires Inv(rooms) && Disjoint(rooms) && TakesOver(rooms, user, lookup)
    ensures var room := rooms[user.roomId];
      RegisterOwnerFixed(rooms, user, lookup).rooms ==
        rooms[user.roomId := room.(users := room.users[user.conn.userId := user.conn], owner := Some(user.conn),
                                   waitUsers := room.waitUsers - {user.conn.userId})]
    ensures RegisterOwnerFixed(rooms, user, lookup).Next?
  {
    var id := user.roomId;
    var conn := user.conn;
    var room := rooms[id];
    var waiting := room.waitUsers - {conn.userId};
    var cleared := rooms[id := room.(waitUsers := waiting)];
    assert Unqueued(rooms, user, lookup) == cleared;
    var room' := room.(users := room.users[conn.userId := conn], owner := Some(conn), waitUsers := waiting);
    assert lookup == Found(lookup.isLocked);
    assert RegisterOwnerFixed(rooms, user, lookup) == RegisterOwner(cleared, user, lookup);
    TakeoverRooms(cleared, user, lookup.isLocked);
    UpdateTwice(rooms, id, room.(waitUsers := waiting), room');
  }

  /** The room a corrected takeover leaves is valid and its members and waiting users are apart. */
  lemma TakeoverRoomValid(rooms: Registry, user: User)
    requires Inv(rooms) && Disjoint(rooms) && user.roomId in rooms
    requires user.conn.userId !in rooms[user.roomId].users && |rooms[user.roomId].users| < Capacity
    ensures var room := rooms[user.roomId];
      var room' := room.(users := room.users[user.conn.userId := user.conn], owner := Some(user.conn),
                         waitUsers := room.waitUsers - {user.conn.userId});
      Inv(rooms[user.roomId := room']) && Disjoint(rooms[user.roomId := room'])
  {
    var id := user.roomId;
    var conn := user.conn;
    var room := rooms[id];
    var room' := room.(users := room.users[conn.userId := conn], owner := Some(conn),
                       waitUsers := room.waitUsers - {conn.userId});
    assert ValidRoom(room') by {
      InsertGrows(room.users, conn.userId, conn);
      assert conn.userId in room'.users;
      assert ValidRoom(room);
    }
    InvUpdate(rooms, room');
    assert room.users.Keys !! room.waitUsers.Keys;
    DisjointUpdate(rooms, id, room');
  }

  /** The corrected owner claim keeps every room valid and no user both member and waiting. */
  lemma RegisterOwnerFixedKeeps(rooms: Registry, user: User, lookup: Lookup)
    requires Inv(rooms) && Disjoint(rooms)
    ensures RegisterOwnerFixed(rooms, user, lookup).Next?
    ensures Inv(RegisterOwnerFixed(rooms, user, lookup).rooms)
    ensures Disjoint(RegisterOwnerFixed(rooms, user, lookup).rooms)
  {
    if TakesOver(rooms, user, lookup) {
      ClaimTakeover(rooms, user, lookup);
      TakeoverRoomValid(rooms, user);
    } else {
      ClaimOutsideTakeover(rooms, user, lookup);
    }
  }

  /** A joiner's register, unchanged by the correction, keeps no user both member and waiting. */
  lemma RegisterJoinerKeepsDisjoint(rooms: Registry, user: User, lookup: Lookup)
    requires Inv(rooms) && Disjoint(rooms)
    ensures Disjoint(RegisterJoiner(rooms, user, lookup).rooms)
  {
    if lookup.Found? {
      var id := user.roomId;
      var conn := user.conn;
      var shadowed := if id !in rooms then rooms[id := Room(id, lookup.isLocked, None, map[], map[])] else rooms;
      DisjointUpdate(rooms, id, shadowed[id]);
      assert Disjoint(shadowed) by { assert shadowed == rooms[id := shadowed[id]]; }
      var room := shadowed[id];
      if room.isLocked {
        if conn.userId !in room.waitUsers && conn.userId !in room.users {
          DisjointUpdate(shadowed, id, room.(waitUsers := room.waitUsers[conn.userId := conn]));
        }
      } else if conn.userId !in room.users && |room.users| < Capacity {
        assert room.waitUsers == map[];
        DisjointUpdate(shadowed, id, room.(users := room.users[conn.userId := conn]));
      }
    }
  }

  /** Every unregister, as written or corrected, keeps no user both member and waiting. */
  lemma UnregisterKeepsDisjoint(rooms: Registry, user: User, scope: Scope)
    requires Inv(rooms) && Disjoint(rooms)
    ensures Disjoint(UnregisterUser(rooms, user, scope).rooms)
  {
    if user.roomId in rooms {
      var room := rooms[user.roomId];
      var uid := user.conn.userId;
      if scope == All {
        AllKeepsDisjoint(rooms, user);
      } else if uid in room.users {
        MemberLeaveKeepsDisjoint(rooms, user);
      } else if uid in room.waitUsers {
        var room' := room.(waitUsers := room.waitUsers - {uid});
        DisjointUpdate(rooms, user.roomId, room');
      }
    }
  }

  /** Closing a whole room keeps no user both member and waiting. */
  lemma AllKeepsDisjoint(rooms: Registry, user: User)
    requires Inv(rooms) && Disjoint(rooms) && user.roomId in rooms
    ensures Disjoint(UnregisterUser(rooms, user, All).rooms)
  {
    AllEndsRoom(rooms, user);
    assert Step(rooms, Unregister(user, All), Found(false)) == UnregisterUser(rooms, user, All);
  }

  /** A member's departure keeps no user both member and waiting. */
  lemma MemberLeaveKeepsDisjoint(rooms: Registry, user: User)
    requires Inv(rooms) && Disjoint(rooms) && user.roomId in rooms
    requires user.conn.userId in rooms[user.roomId].users
    ensures Disjoint(UnregisterUser(rooms, user, Self).rooms)
  {
    var room := rooms[user.roomId];
    var d := DeleteUser(rooms, room, user.conn);
    assert UnregisterUser(rooms, user, Self) == Next(d.rooms, d.effects);
    DeleteUserSpec(rooms, room, user.conn);
    if |room.users| > 1 {
      DisjointUpdate(rooms, user.roomId, d.room);
    }
  }

  /** Every admission that does not panic keeps no user both member and waiting. */
  lemma AdmissionKeepsDisjoint(rooms: Registry, userId: UserId, action: string, roomId: RoomId)
    requires Inv(rooms) && Disjoint(rooms)
    ensures Admission(rooms, userId, action, roomId).Next? ==> Disjoint(Admission(rooms, userId, action, roomId).rooms)
  {
    if roomId in rooms && userId in rooms[roomId].waitUsers {
      var room := rooms[roomId];
      var conn := room.waitUsers[userId];
      assert conn.userId == userId by { assert KeyedByUserId(room.waitUsers); }
      var waiting := room.waitUsers - {userId};
      if action == APPROVE && |room.users| < Capacity {
        DisjointUpdate(rooms, roomId, room.(users := room.users[userId := conn], waitUsers := waiting));
      } else if action != APPROVE {
        DisjointUpdate(rooms, roomId, room.(waitUsers := waiting));
      }
    }
  }

  /**
   * The corrected room manager never panics, keeps every room valid, and
   * never holds a user both as a member and as waiting.
   */
  lemma StepFixedKeeps(rooms: Registry, ev: Event, lookup: Lookup)
    requires Inv(rooms) && Disjoint(rooms)
    ensures StepFixed(rooms, ev, lookup).Next?
    ensures Inv(StepFixed(rooms, ev, lookup).rooms) && Disjoint(StepFixed(rooms, ev, lookup).rooms)
  {
    match ev
    case Register(user) =>
      if user.isOwner {
        assert StepFixed(rooms, ev, lookup) == RegisterOwnerFixed(rooms, user, lookup);
        RegisterOwnerFixedKeeps(rooms, user, lookup);
      } else {
        assert StepFixed(rooms, ev, lookup) == RegisterJoiner(rooms, user, lookup);
        RegisterJoinerKeepsInv(rooms, user, lookup);
        RegisterJoinerKeepsDisjoint(rooms, user, lookup);
      }
    case Unregister(user, scope) =>
      assert StepFixed(rooms, ev, lookup) == UnregisterFixed(rooms, user, scope);
      UnregisterFixedKeeps(rooms, user, scope);
    case Forward(roomId, msg) =>
      assert StepFixed(rooms, ev, lookup) == ForwardMessage(rooms, roomId, msg);
    case Admit(userId, action, roomId) =>
      assert StepFixed(rooms, ev, lookup) == AdmissionFixed(rooms, userId, action, roomId);
      AdmissionFixedKeeps(rooms, userId, action, roomId);
  }

  /** The corrected unregister keeps every room valid and members apart from waiting users. */
  lemma UnregisterFixedKeeps(rooms: Registry, user: User, scope: Scope)
    requires Inv(rooms) && Disjoint(rooms)
    ensures var t := UnregisterFixed(rooms, user, scope);
      t.Next? && Inv(t.rooms) && Disjoint(t.rooms)
  {
    UnregisterKeepsInv(rooms, user, scope);
    UnregisterKeepsDisjoint(rooms, user, scope);
  }

  /** The corrected admission never panics, and keeps every room valid and members apart from waiting users. */
  lemma AdmissionFixedKeeps(rooms: Registry, userId: UserId, action: string, roomId: RoomId)
    requires Inv(rooms) && Disjoint(rooms)
    ensures var t := AdmissionFixed(rooms, userId, action, roomId);
      t.Next? && Inv(t.rooms) && Disjoint(t.rooms)
  {
    AdmissionKeepsInv(rooms, userId, action, roomId);
    AdmissionKeepsDisjoint(rooms, userId, action, roomId);
    if roomId in rooms && userId in rooms[roomId].waitUsers && rooms[roomId].owner.Some? {
      assert Admission(rooms, userId, action, roomId).Next?;
    }
  }

  /** The registry after a sequence of events under the corrected room manager. */
  ghost function RunFixed(rooms: Registry, inputs: seq<Input>): Registry
    decreases |inputs|
  {
    if inputs == [] then rooms
    else RunFixed(StepFixed(rooms, inputs[0].ev, inputs[0].lookup).rooms, inputs[1..])
  }

  /**
   * From any valid registry, every sequence of events runs without a panic
   * under the corrected room manager, each turn keeping every room valid and
   * no user both member and waiting.
   */
  lemma {:induction false} RunFixedKeeps(rooms: Registry, inputs: seq<Input>)
    requires Inv(rooms) && Disjoint(rooms)
    ensures Inv(RunFixed(rooms, inputs)) && Disjoint(RunFixed(rooms, inputs))
    ensures forall i :: 0 <= i < |inputs| ==>
              StepFixed(RunFixed(rooms, inputs[..i]), inputs[i].ev, inputs[i].lookup).Next?
    decreases |inputs|
  {
    if inputs != [] {
      StepFixedKeeps(rooms, inputs[0].ev, inputs[0].lookup);
      var next := StepFixed(rooms, inputs[0].ev, inputs[0].lookup).rooms;
      RunFixedKeeps(next, inputs[1..]);
      forall i | 0 <= i < |inputs|
        ensures StepFixed(RunFixed(rooms, inputs[..i]), inputs[i].ev, inputs[i].lookup).Next?
      {
        if i > 0 {
          assert inputs[..i][0] == inputs[0] && inputs[..i][1..] == inputs[1..][..i - 1];
          assert RunFixed(rooms, inputs[..i]) == RunFixed(next, inputs[1..][..i - 1]);
          assert inputs[i] == inputs[1..][i - 1];
        } else {
          assert inputs[..0] == [];
        }
      }
    }
  }

  /** Some connection the room holds has identity `id`. */
  ghost predicate HoldsId(room: Room, id: nat) {
    exists c :: Holds(room, c) && c.id == id
  }

  /** Closing the connections of a keyed map in a repetition-free order closes each at most once. */
  lemma {:induction false} CloseAllOnce(m: map<UserId, Conn>, order: seq<UserId>, c: Conn)
    requires KeyedByUserId(m) && Distinct(order)
    requires forall i :: 0 <= i < |order| ==> order[i] in m
    ensures Count(CloseAll(m, order), Close(c)) <= 1
    decreases |order|
  {
    if order != [] {
      var rest := CloseAll(m, order[1..]);
      assert CloseAll(m, order) == [Close(m[order[0]])] + rest;
      assert Distinct(order[1..]);
      CloseAllOnce(m, order[1..], c);
      if m[order[0]] == c {
        forall j | 0 <= j < |rest| ensures rest[j] != Close(c) {
          assert order[1..][j] != order[0];
          assert m[order[1..][j]].userId == order[1..][j];
        }
      }
      assert multiset([Close(m[order[0]])] + rest)[Close(c)] == multiset([Close(m[order[0]])])[Close(c)] + multiset(rest)[Close(c)];
    }
  }

  /**
   * The closes of a last member's departure: its own connection, then every
   * waiting one; each at most once when the leaver is not itself waiting.
   */
  lemma LastLeaverClosesOnce(conn: Conn, waitUsers: map<UserId, Conn>)
    requires KeyedByUserId(waitUsers) && conn.userId !in waitUsers
    ensures var effects := [Close(conn)] + CloseAll(waitUsers, Enumerate(waitUsers.Keys));
      && (forall e :: e in effects ==> e.Close? && (e.conn == conn || e.conn in waitUsers.Values))
      && Close(conn) in effects
      && (forall w :: w in waitUsers.Values ==> Close(w) in effects)
      && (forall c :: Count(effects, Close(c)) <= 1)
  {
    var order := Enumerate(waitUsers.Keys);
    var closes := CloseAll(waitUsers, order);
    CloseAllCovers(waitUsers, order);
    LeaverNotAmongWaiting(conn, waitUsers, order);
    forall c ensures Count([Close(conn)] + closes, Close(c)) <= 1 {
      CloseAllOnce(waitUsers, order, c);
      CountAppend([Close(conn)], closes, Close(c));
    }
  }

  /** A connection whose user id is not waiting is not among the waiting list's closes. */
  lemma LeaverNotAmongWaiting(conn: Conn, waitUsers: map<UserId, Conn>, order: seq<UserId>)
    requires KeyedByUserId(waitUsers) && conn.userId !in waitUsers
    requires forall i :: 0 <= i < |order| ==> order[i] in waitUsers
    ensures Count(CloseAll(waitUsers, order), Close(conn)) == 0
  {
    var closes := CloseAll(waitUsers, order);
    forall j | 0 <= j < |closes| ensures closes[j] != Close(conn) {
      assert waitUsers[order[j]].userId == order[j];
    }
  }

  /** A waiting user's own SELF closes its own queue, which the room holds, and nothing else. */
  lemma WaitingSelfClosesHeldOnce(rooms: Registry, user: User)
    requires user.roomId in rooms && user.conn.userId !in rooms[user.roomId].users
    requires user.conn.userId in rooms[user.roomId].waitUsers
    requires rooms[user.roomId].waitUsers[user.conn.userId].id == user.conn.id
    ensures var t := UnregisterUser(rooms, user, Self);
      && t.effects == [Close(user.conn)]
      && (forall e :: e in t.effects ==> e.Close? && HoldsId(rooms[user.roomId], e.conn.id))
      && (forall c :: Count(t.effects, Close(c)) <= 1)
  {
    var room := rooms[user.roomId];
    assert UnregisterUser(rooms, user, Self).effects == [Close(user.conn)];
    assert Holds(room, room.waitUsers[user.conn.userId]);
  }

  /** A member's own SELF, in a registry where no user is both member and waiting, closes held connections only, each once. */
  lemma MemberSelfClosesHeldOnce(rooms: Registry, user: User)
    requires Inv(rooms) && Disjoint(rooms) && user.roomId in rooms
    requires user.conn.userId in rooms[user.roomId].users
    requires rooms[user.roomId].users[user.conn.userId].id == user.conn.id
    ensures var t := UnregisterUser(rooms, user, Self);
      && (forall e :: e in t.effects ==> e.Close? && HoldsId(rooms[user.roomId], e.conn.id))
      && (forall c :: Count(t.effects, Close(c)) <= 1)
  {
    var room := rooms[user.roomId];
    var uid := user.conn.userId;
    var t := UnregisterUser(rooms, user, Self);
    DeleteUserSpec(rooms, room, user.conn);
    assert Holds(room, room.users[uid]);
    if |room.users| == 1 {
      assert uid !in room.waitUsers;
      LastLeaverClosesOnce(user.conn, room.waitUsers);
      forall e | e in t.effects ensures e.Close? && HoldsId(room, e.conn.id) {
        if e.conn != user.conn {
          assert Holds(room, e.conn);
        }
      }
    }
  }

  /**
   * Under the correction a SELF unregister closes only connections the room
   * holds, identified by identity, and each at most once.
   */
  lemma SelfFixedClosesHeldOnce(rooms: Registry, user: User)
    requires Inv(rooms) && Disjoint(rooms)
    ensures var t := StepFixed(rooms, Unregister(user, Self), Found(false));
      && (forall e :: e in t.effects ==> e.Close? && user.roomId in rooms && HoldsId(rooms[user.roomId], e.conn.id))
      && (forall c :: Count(t.effects, Close(c)) <= 1)
  {
    assert StepFixed(rooms, Unregister(user, Self), Found(false)) == UnregisterFixed(rooms, user, Self);
    if user.roomId in rooms {
      var room := rooms[user.roomId];
      var uid := user.conn.userId;
      if uid in room.users && room.users[uid].id == user.conn.id {
        assert UnregisterFixed(rooms, user, Self) == UnregisterUser(rooms, user, Self);
        MemberSelfClosesHeldOnce(rooms, user);
      } else if uid !in room.users && uid in room.waitUsers && room.waitUsers[uid].id == user.conn.id {
        assert UnregisterFixed(rooms, user, Self) == UnregisterUser(rooms, user, Self);
        WaitingSelfClosesHeldOnce(rooms, user);
      } else {
        assert UnregisterFixed(rooms, user, Self) == Next(rooms, []);
      }
    }
  }

  /**
   * The duplicate login of the second finding under the correction: the
   * refused connection's SELF closes nothing and the member keeps its place.
   */
  lemma DuplicateLoginFixed()
    ensures var a := Conn(1, "x", "A");
      var b := Conn(2, "x", "B");
      var rooms := map["r" := Room("r", false, Some(a), map["x" := a], map[])];
      && StepFixed(rooms, Register(User(b, "r", true)), Found(false)) ==
           Next(rooms, [SendError(b, UserAlreadyPresent("x", "r")), Close(b)])
      && StepFixed(rooms, Unregister(User(b, "r", true), Self), Found(false)) == Next(rooms, [])
  {
  }

  /**
   * Under the correction ALL is honoured only from the room's owner: from any
   * other connection it changes nothing, and from the owner it closes the
   * room as before.
   */
  lemma EndFixedNeedsOwner(rooms: Registry, user: User)
    requires Inv(rooms) && user.roomId in rooms
    ensures var t := StepFixed(rooms, Unregister(user, All), Found(false));
      var room := rooms[user.roomId];
      && (!IsOwner(room, user.conn) ==> t == Next(rooms, []))
      && (IsOwner(room, user.conn) && room.users != map[] ==>
            ClosesRoom(rooms, room, Cleanup(t.rooms, room, t.effects)))
  {
    AllEndsRoom(rooms, user);
  }

  /**
   * The claimant of the first finding under the correction: it becomes a
   * member and leaves the waiting list, and its LEAVE closes it once.
   */
  lemma WaitingClaimantFixed()
    ensures var c := Conn(1, "x", "X");
      var waiting := map["r" := Room("r", true, None, map[], map["x" := c])];
      var t2 := StepFixed(waiting, Register(User(c, "r", true)), Found(true));
      && t2 == Next(map["r" := Room("r", true, Some(c), map["x" := c], map[])], [Send(c, Reply(APPROVE, "x", ServerId))])
      && StepFixed(t2.rooms, Unregister(User(c, "r", true), Self), Found(false)) == Next(map[], [Close(c)])
  {
    var c := Conn(1, "x", "X");
    var waiting := Room("r", true, None, map[], map["x" := c]);
    assert waiting.waitUsers - {"x"} == map[];
    var cleared := Room("r", true, None, map[], map[]);
    assert Unqueued(map["r" := waiting], User(c, "r", true), Found(true)) == map["r" := cleared];
    EnumerateSingleton("x");
    assert map["x" := c].Keys == {"x"};
    assert Readies(map["x" := c], ["x"], "x", false) == [];
    assert Enumerate(cleared.waitUsers.Keys) == [];
    var claimed := Room("r", true, Some(c), map["x" := c], map[]);
    assert |claimed.users| == 1 && claimed.users - {"x"} == map[];
    assert Enumerate(claimed.waitUsers.Keys) == [];
    assert map["r" := claimed] - {"r"} == map[];
  }
}
