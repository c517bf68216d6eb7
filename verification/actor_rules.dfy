/**
 * The rules each branch of the room manager follows, stated over a valid
 * registry: who is moved where, who is told what, whose queue is closed.
 */
module ActorRules {
  import opened Wrappers
  import opened Collections
  import opened Protocol
  import opened Rooms
  import opened Actor
  import opened ActorProofs

  /**
   * `r` tells every member of `users` but the entrant, exactly once, that the
   * entrant is in, and tells nobody else anything.
   */
  ghost predicate ReadyToOthers(r: seq<Effect>, users: map<UserId, Conn>, entrant: UserId) {
    && (forall e :: e in r ==>
          e.Send? && e.to.userId in users && users[e.to.userId] == e.to &&
          e.to.userId != entrant && e.msg == ReadyMessage(e.to.userId, entrant))
    && (forall k :: k in users && k != entrant ==> Count(r, Send(users[k], ReadyMessage(k, entrant))) == 1)
  }

  /**
   * A broadcast sends READY about the entrant, and only READY, to exactly the
   * visited members that are not the entrant.
   */
  lemma {:induction false} ReadiesSpec(users: map<UserId, Conn>, order: seq<UserId>, entrant: UserId, byKey: bool)
    requires forall i :: 0 <= i < |order| ==> order[i] in users
    ensures var r := Readies(users, order, entrant, byKey);
      && (forall e :: e in r ==>
            e.Send? && e.to in users.Values && e.msg == ReadyMessage(e.to.userId, entrant) &&
            exists i :: 0 <= i < |order| && e.to == users[order[i]] &&
              (if byKey then order[i] else users[order[i]].userId) != entrant)
      && (forall i :: 0 <= i < |order| && (if byKey then order[i] else users[order[i]].userId) != entrant ==>
            Send(users[order[i]], ReadyMessage(users[order[i]].userId, entrant)) in r)
    decreases |order|
  {
    if order != [] {
      var k := order[0];
      var uc := users[k];
      var head := if (if byKey then k else uc.userId) != entrant then [Send(uc, ReadyMessage(uc.userId, entrant))] else [];
      var rest := Readies(users, order[1..], entrant, byKey);
      assert Readies(users, order, entrant, byKey) == head + rest;
      ReadiesSpec(users, order[1..], entrant, byKey);
      forall e: Effect | e in head + rest
        ensures exists i :: 0 <= i < |order| && e.to == users[order[i]] &&
                  (if byKey then order[i] else users[order[i]].userId) != entrant
      {
        if e in rest {
          var j :| 0 <= j < |order[1..]| && e.to == users[order[1..][j]] &&
                   (if byKey then order[1..][j] else users[order[1..][j]].userId) != entrant;
          assert order[1..][j] == order[j + 1];
        } else {
          assert order[0] == k;
        }
      }
      forall i | 0 <= i < |order| && (if byKey then order[i] else users[order[i]].userId) != entrant
        ensures Send(users[order[i]], ReadyMessage(users[order[i]].userId, entrant)) in head + rest
      {
        if i > 0 {
          assert order[i] == order[1..][i - 1];
        }
      }
    }
  }

  /** Occurrences of one member's READY in a broadcast over a repetition-free order. */
  lemma {:induction false} ReadiesCount(users: map<UserId, Conn>, order: seq<UserId>, entrant: UserId, byKey: bool, k: UserId)
    requires KeyedByUserId(users) && Distinct(order)
    requires forall i :: 0 <= i < |order| ==> order[i] in users
    requires k in users
    ensures Count(Readies(users, order, entrant, byKey), Send(users[k], ReadyMessage(k, entrant))) ==
              if k in order && k != entrant then 1 else 0
    decreases |order|
  {
    if order != [] {
      var target := Send(users[k], ReadyMessage(k, entrant));
      var head := if order[0] != entrant then [Send(users[order[0]], ReadyMessage(order[0], entrant))] else [];
      var rest := Readies(users, order[1..], entrant, byKey);
      assert Readies(users, order, entrant, byKey) == head + rest;
      assert Distinct(order[1..]);
      ReadiesCount(users, order[1..], entrant, byKey, k);
      assert multiset(head + rest)[target] == multiset(head)[target] + multiset(rest)[target];
      if order[0] == k {
        assert k !in order[1..];
      } else {
        assert target !in head;
        assert k in order ==> k in order[1..];
      }
    }
  }

  /**
   * The broadcast of an admission reaches every other member exactly once,
   * whichever way members are compared with the entrant.
   */
  lemma ReadiesReachOthers(users: map<UserId, Conn>, entrant: UserId, byKey: bool)
    requires KeyedByUserId(users)
    ensures ReadyToOthers(Readies(users, Enumerate(users.Keys), entrant, byKey), users, entrant)
  {
    var order := Enumerate(users.Keys);
    var r := Readies(users, order, entrant, byKey);
    ReadiesSpec(users, order, entrant, byKey);
    forall e | e in r
      ensures e.Send? && e.to.userId in users && users[e.to.userId] == e.to
      ensures e.to.userId != entrant && e.msg == ReadyMessage(e.to.userId, entrant)
    {
      var i :| 0 <= i < |order| && e.to == users[order[i]] &&
               (if byKey then order[i] else users[order[i]].userId) != entrant;
      assert users[order[i]].userId == order[i];
    }
    forall k | k in users && k != entrant
      ensures Count(r, Send(users[k], ReadyMessage(k, entrant))) == 1
    {
      ReadiesCount(users, order, entrant, byKey, k);
    }
  }

  // ---------------------------------------------------------------------------
  // Register

  /** A failed store lookup answers the caller with one ERROR and changes nothing. */
  lemma FailedLookupRepliesError(rooms: Registry, user: User, e: Database.DbError)
    ensures Step(rooms, Register(user), Failed(e)) == Next(rooms, [SendError(user.conn, LookupError(e))])
  {
  }

  /**
   * An owner claim on an unknown room creates it with the store's lock flag,
   * the claimant as sole member and owner, and only the claimant is told
   * (APPROVE).
   */
  lemma OwnerCreatesRoom(rooms: Registry, user: User, locked: bool)
    requires user.isOwner && user.roomId !in rooms
    ensures var t := Step(rooms, Register(user), Found(locked));
      && t.Next?
      && t.rooms.Keys == rooms.Keys + {user.roomId}
      && (forall id :: id in rooms ==> t.rooms[id] == rooms[id])
      && t.rooms[user.roomId] == Room(user.roomId, locked, Some(user.conn), map[user.conn.userId := user.conn], map[])
      && t.effects == [Send(user.conn, Reply(APPROVE, user.conn.userId, ServerId))]
  {
  }

  /** The PERMIT prompts `r` ask `owner` about each waiting user exactly once. */
  ghost predicate PermitsFor(r: seq<Effect>, owner: Conn, waitUsers: map<UserId, Conn>) {
    && |r| == |waitUsers|
    && (forall e :: e in r ==>
          e.Send? && e.to == owner && e.msg.from in waitUsers &&
          e.msg == PermitMessage(owner, e.msg.from, waitUsers[e.msg.from].displayName))
    && (forall w :: w in waitUsers ==> Send(owner, PermitMessage(owner, w, waitUsers[w].displayName)) in r)
  }

  /** The PERMIT prompts of a takeover ask about every waiting user exactly once. */
  lemma PermitsCoverWaiting(owner: Conn, waitUsers: map<UserId, Conn>)
    ensures PermitsFor(Permits(owner, waitUsers, Enumerate(waitUsers.Keys)), owner, waitUsers)
  {
    var order := Enumerate(waitUsers.Keys);
    var permits := Permits(owner, waitUsers, order);
    forall e | e in permits
      ensures e.Send? && e.to == owner && e.msg.from in waitUsers
      ensures e.msg == PermitMessage(owner, e.msg.from, waitUsers[e.msg.from].displayName)
    {
      var i :| 0 <= i < |permits| && permits[i] == e;
      assert order[i] in waitUsers.Keys;
    }
    forall w | w in waitUsers ensures Send(owner, PermitMessage(owner, w, waitUsers[w].displayName)) in permits {
      var i :| 0 <= i < |order| && order[i] == w;
      assert permits[i] == Send(owner, PermitMessage(owner, w, waitUsers[w].displayName));
    }
  }

  /**
   * An owner claim on a live room it is not yet a member of, with space left:
   * the claimant joins and becomes owner, is approved, every other member is
   * told READY once, and on a locked room the new owner is prompted once per
   * waiting user.
   */
  lemma OwnerTakesOver(rooms: Registry, user: User, locked: bool)
    requires user.isOwner && user.roomId in rooms && KeyedByUserId(rooms[user.roomId].users)
    requires user.conn.userId !in rooms[user.roomId].users && |rooms[user.roomId].users| < Capacity
    ensures var t := Step(rooms, Register(user), Found(locked));
      var room := rooms[user.roomId];
      var users := room.users[user.conn.userId := user.conn];
      && t.Next?
      && t.rooms == rooms[user.roomId := room.(users := users, owner := Some(user.conn))]
      && TakeoverReplies(t.effects, user.conn, users, room.waitUsers, locked)
  {
    var room := rooms[user.roomId];
    var users := room.users[user.conn.userId := user.conn];
    assert Step(rooms, Register(user), Found(locked)) == RegisterOwner(rooms, user, Found(locked));
    TakeoverTurn(rooms, user, locked);
    assert KeyedByUserId(users);
    ReadiesReachOthers(users, user.conn.userId, false);
    if locked {
      PermitsCoverWaiting(user.conn, room.waitUsers);
    }
    var permits := if locked then Permits(user.conn, room.waitUsers, Enumerate(room.waitUsers.Keys)) else [];
    ThreeRuns(Readies(users, Enumerate(users.Keys), user.conn.userId, false), permits, users, user.conn, room.waitUsers, locked);
  }

  /**
   * The replies of a takeover: APPROVE to the claimant, then READY to every
   * other member once, then, on a locked room, one PERMIT prompt per waiting
   * user.
   */
  ghost predicate TakeoverReplies(effects: seq<Effect>, conn: Conn, users: map<UserId, Conn>, waitUsers: map<UserId, Conn>, locked: bool) {
    var n := |effects| - (if locked then |waitUsers| else 0);
    && 1 <= n
    && effects[0] == Send(conn, Reply(APPROVE, conn.userId, ServerId))
    && ReadyToOthers(effects[1..n], users, conn.userId)
    && (locked ==> PermitsFor(effects[n..], conn, waitUsers))
  }

  /** An APPROVE, a READY broadcast and the PERMIT prompts, read back from their concatenation. */
  lemma ThreeRuns(readies: seq<Effect>, permits: seq<Effect>, users: map<UserId, Conn>, conn: Conn,
                  waitUsers: map<UserId, Conn>, locked: bool)
    requires ReadyToOthers(readies, users, conn.userId)
    requires if locked then PermitsFor(permits, conn, waitUsers) else permits == []
    ensures TakeoverReplies([Send(conn, Reply(APPROVE, conn.userId, ServerId))] + readies + permits, conn, users, waitUsers, locked)
  {
    Spliced(Send(conn, Reply(APPROVE, conn.userId, ServerId)), readies, permits);
  }

  /** The three parts of an effect list made of one effect and two runs. */
  lemma Spliced(first: Effect, middle: seq<Effect>, last: seq<Effect>)
    ensures var all := [first] + middle + last;
      && all[0] == first && all[1..1 + |middle|] == middle && all[1 + |middle|..] == last
  {
  }

  /**
   * A claimant that is already an active member is refused: one ERROR, then
   * its queue is closed, and the registry is unchanged.
   */
  lemma OwnerAlreadyPresentRefused(rooms: Registry, user: User, locked: bool)
    requires user.isOwner && user.roomId in rooms && user.conn.userId in rooms[user.roomId].users
    ensures Step(rooms, Register(user), Found(locked)) ==
              Next(rooms, [SendError(user.conn, UserAlreadyPresent(user.conn.userId, user.roomId)), Close(user.conn)])
  {
  }

  /** The room a joiner's register works on: the live one, or a fresh shadow with the store's lock flag. */
  ghost function JoinTarget(rooms: Registry, roomId: RoomId, locked: bool): Room {
    if roomId in rooms then rooms[roomId] else Room(roomId, locked, None, map[], map[])
  }

  /**
   * A joiner of a locked room that is neither a member nor waiting is put on
   * the waiting list only; the owner, if there is one, is prompted with
   * PERMIT, and the joiner is told WAIT.
   */
  lemma JoinLockedWaits(rooms: Registry, user: User, locked: bool)
    requires Inv(rooms) && !user.isOwner
    requires JoinTarget(rooms, user.roomId, locked).isLocked
    requires user.conn.userId !in JoinTarget(rooms, user.roomId, locked).users
    requires user.conn.userId !in JoinTarget(rooms, user.roomId, locked).waitUsers
    ensures var t := Step(rooms, Register(user), Found(locked));
      var room := JoinTarget(rooms, user.roomId, locked);
      var conn := user.conn;
      && t.Next?
      && t.rooms == rooms[user.roomId := room.(waitUsers := room.waitUsers[conn.userId := conn])]
      && t.effects ==
           (if room.owner.Some? then [Send(room.owner.value, PermitMessage(room.owner.value, conn.userId, conn.displayName))] else [])
           + [Send(conn, Reply(WAIT, conn.userId, ServerId))]
  {
  }

  /**
   * A joiner of a locked room that is already a member or already waiting is
   * refused: one ERROR, then its queue is closed; membership is unchanged.
   */
  lemma JoinLockedRefusesPresent(rooms: Registry, user: User, locked: bool)
    requires Inv(rooms) && !user.isOwner && user.roomId in rooms && rooms[user.roomId].isLocked
    requires user.conn.userId in rooms[user.roomId].users || user.conn.userId in rooms[user.roomId].waitUsers
    ensures Step(rooms, Register(user), Found(locked)) ==
              Next(rooms, [SendError(user.conn, UserAlreadyPresent(user.conn.userId, user.roomId)), Close(user.conn)])
  {
  }

  /**
   * A joiner of an open room with space is admitted, approved, and every
   * other member is told READY once.
   */
  lemma JoinOpenAdmits(rooms: Registry, user: User, locked: bool)
    requires !user.isOwner && (user.roomId in rooms ==> KeyedByUserId(rooms[user.roomId].users))
    requires !JoinTarget(rooms, user.roomId, locked).isLocked
    requires user.conn.userId !in JoinTarget(rooms, user.roomId, locked).users
    requires |JoinTarget(rooms, user.roomId, locked).users| < Capacity
    ensures var t := Step(rooms, Register(user), Found(locked));
      var room := JoinTarget(rooms, user.roomId, locked);
      var users := room.users[user.conn.userId := user.conn];
      && t.Next?
      && t.rooms == rooms[user.roomId := room.(users := users)]
      && t.effects[0] == Send(user.conn, Reply(APPROVE, user.conn.userId, ServerId))
      && ReadyToOthers(t.effects[1..], users, user.conn.userId)
  {
    var room := JoinTarget(rooms, user.roomId, locked);
    JoinOpenTurn(rooms, user, locked);
    assert KeyedByUserId(room.users[user.conn.userId := user.conn]);
    ApprovedThenReady(Send(user.conn, Reply(APPROVE, user.conn.userId, ServerId)), room.users[user.conn.userId := user.conn], user.conn.userId, false);
  }

  /** The turn a join takes on an open room with space that it is not a member of. */
  lemma JoinOpenTurn(rooms: Registry, user: User, locked: bool)
    requires !user.isOwner
    requires !JoinTarget(rooms, user.roomId, locked).isLocked
    requires user.conn.userId !in JoinTarget(rooms, user.roomId, locked).users
    requires |JoinTarget(rooms, user.roomId, locked).users| < Capacity
    ensures var conn := user.conn;
      var room := JoinTarget(rooms, user.roomId, locked);
      var users := room.users[conn.userId := conn];
      Step(rooms, Register(user), Found(locked)) ==
        Next(rooms[user.roomId := room.(users := users)],
             [Send(conn, Reply(APPROVE, conn.userId, ServerId))] + Readies(users, Enumerate(users.Keys), conn.userId, false))
  {
    var id := user.roomId;
    var room := JoinTarget(rooms, id, locked);
    var shadowed := rooms[id := room];
    assert shadowed == if id !in rooms then rooms[id := room] else rooms;
    assert Step(rooms, Register(user), Found(locked)) == JoinOpen(shadowed, user);
    UpdateTwice(rooms, id, room, room.(users := room.users[user.conn.userId := user.conn]));
  }

  /** An approval followed by the READY broadcast of an admission. */
  lemma ApprovedThenReady(first: Effect, users: map<UserId, Conn>, entrant: UserId, byKey: bool)
    requires KeyedByUserId(users)
    ensures var effects := [first] + Readies(users, Enumerate(users.Keys), entrant, byKey);
      effects[0] == first && ReadyToOthers(effects[1..], users, entrant)
  {
    var readies := Readies(users, Enumerate(users.Keys), entrant, byKey);
    ReadiesReachOthers(users, entrant, byKey);
    assert ([first] + readies)[1..] == readies;
  }

  /**
   * Capacity: a register that would make a fifth member, on the owner path or
   * into an open room, is answered FULL and changes nothing.
   */
  lemma RegisterWhenFullRefused(rooms: Registry, user: User, locked: bool)
    requires Inv(rooms) && user.roomId in rooms
    requires user.isOwner || !rooms[user.roomId].isLocked
    requires user.conn.userId !in rooms[user.roomId].users && |rooms[user.roomId].users| == Capacity
    ensures Step(rooms, Register(user), Found(locked)) == Next(rooms, [Send(user.conn, Reply(FULL, user.conn.userId, ""))])
  {
  }

  // ---------------------------------------------------------------------------
  // Unregister

  /**
   * SELF of a member: its entry goes, its queue is closed first, it stops
   * being owner if it was; the room is deleted, with every waiting queue
   * closed, exactly when it was the last member.
   */
  lemma SelfLeavesAsMember(rooms: Registry, user: User)
    requires Inv(rooms) && user.roomId in rooms && user.conn.userId in rooms[user.roomId].users
    ensures var t := Step(rooms, Unregister(user, Self), Found(false));
      var room := rooms[user.roomId];
      && t.Next? && t.effects[0] == Close(user.conn)
      && (|room.users| == 1 ==>
            t.rooms == rooms - {user.roomId} &&
            (forall w :: w in room.waitUsers.Values ==> Close(w) in t.effects))
      && (|room.users| > 1 ==>
            && t.effects == [Close(user.conn)]
            && user.roomId in t.rooms
            && t.rooms[user.roomId].users == room.users - {user.conn.userId}
            && t.rooms[user.roomId].waitUsers == room.waitUsers
            && (t.rooms[user.roomId].owner.None? <==> room.owner.None? || room.owner.value.id == user.conn.id))
  {
    var room := rooms[user.roomId];
    var c := DeleteUser(rooms, room, user.conn);
    assert Step(rooms, Unregister(user, Self), Found(false)) == Next(c.rooms, c.effects);
    DeleteUserSpec(rooms, room, user.conn);
    if |room.users| == 1 {
      CloseAllCovers(room.waitUsers, Enumerate(room.waitUsers.Keys));
    }
  }

  /**
   * SELF of a waiting user: it leaves the waiting list, its queue is closed,
   * and the room is deleted if nobody is left.
   */
  lemma SelfLeavesWaitingList(rooms: Registry, user: User)
    requires Inv(rooms) && user.roomId in rooms
    requires user.conn.userId !in rooms[user.roomId].users && user.conn.userId in rooms[user.roomId].waitUsers
    ensures var t := Step(rooms, Unregister(user, Self), Found(false));
      var room := rooms[user.roomId];
      var room' := room.(waitUsers := room.waitUsers - {user.conn.userId});
      && t.Next? && t.effects == [Close(user.conn)]
      && (room'.users == map[] && room'.waitUsers == map[] ==> t.rooms == rooms - {user.roomId})
      && (room'.users != map[] || room'.waitUsers != map[] ==> t.rooms == rooms[user.roomId := room'])
  {
  }

  /** SELF of a connection the room does not know, or of an unknown room, changes nothing. */
  lemma SelfUnknownIgnored(rooms: Registry, user: User)
    requires user.roomId in rooms ==>
               user.conn.userId !in rooms[user.roomId].users && user.conn.userId !in rooms[user.roomId].waitUsers
    ensures Step(rooms, Unregister(user, Self), Found(false)) == Next(rooms, [])
  {
  }

  /**
   * ALL on a room with members deletes it and closes the queue of every
   * member and every waiting user; on a room with no member (only waiting
   * users) it changes nothing.
   */
  lemma AllEndsRoom(rooms: Registry, user: User)
    requires Inv(rooms) && user.roomId in rooms
    ensures var t := Step(rooms, Unregister(user, All), Found(false));
      var room := rooms[user.roomId];
      && t.Next?
      && (room.users != map[] ==> ClosesRoom(rooms, room, Cleanup(t.rooms, room, t.effects)) && user.roomId !in t.rooms)
      && (room.users == map[] ==> t == Next(rooms, []))
  {
    var room := rooms[user.roomId];
    var order := Enumerate(room.users.Keys);
    if room.users != map[] {
      assert |room.users| > 0 by { assert room.users.Keys != {}; }
      DeleteAllSpec(rooms, room, order);
    } else {
      DeleteAllOnEmpty(rooms, room, order);
    }
  }

  // ---------------------------------------------------------------------------
  // Forward

  /**
   * Forward never changes the registry and queues the message, verbatim, on
   * at most one connection: the member whose user id is the destination,
   * when it is not the sender. Otherwise nothing is sent.
   */
  lemma ForwardDelivers(rooms: Registry, roomId: RoomId, msg: Message)
    requires Inv(rooms)
    ensures var t := Step(rooms, Forward(roomId, msg), Found(false));
      && t.Next? && t.rooms == rooms
      && (roomId in rooms && msg.to in rooms[roomId].users && msg.to != msg.from ==>
            t.effects == [Send(rooms[roomId].users[msg.to], msg)])
      && (!(roomId in rooms && msg.to in rooms[roomId].users && msg.to != msg.from) ==> t.effects == [])
  {
    assert Step(rooms, Forward(roomId, msg), Found(false)) == ForwardMessage(rooms, roomId, msg);
    if roomId in rooms {
      assert KeyedByUserId(rooms[roomId].users) by { assert ValidRoom(rooms[roomId]); }
      ForwardReachesDestination(rooms[roomId].users, msg);
    }
  }

  /** In a room keyed by user id, forwarding finds the destination member, unless it is the sender. */
  lemma ForwardReachesDestination(users: map<UserId, Conn>, msg: Message)
    requires KeyedByUserId(users)
    ensures var r := ForwardTo(users, Enumerate(users.Keys), msg);
      && (msg.to in users && msg.to != msg.from ==> r == [Send(users[msg.to], msg)])
      && (!(msg.to in users && msg.to != msg.from) ==> r == [])
  {
    var order := Enumerate(users.Keys);
    var r := ForwardTo(users, order, msg);
    if msg.to in users && msg.to != msg.from {
      var i :| 0 <= i < |order| && order[i] == msg.to;
      assert users[order[i]].userId == msg.to;
    }
    if r != [] {
      var i :| 0 <= i < |order| && order[i] != msg.from && users[order[i]].userId == msg.to && r == [Send(users[order[i]], msg)];
      assert users[order[i]].userId == order[i];
    }
  }

  // ---------------------------------------------------------------------------
  // Admission

  /**
   * APPROVE of a waiting user while the room has space moves it from the
   * waiting list to the members, approves it in the owner's name, and tells
   * every other member READY once.
   */
  lemma ApproveAdmits(rooms: Registry, userId: UserId, roomId: RoomId)
    requires Inv(rooms) && roomId in rooms && userId in rooms[roomId].waitUsers
    requires |rooms[roomId].users| < Capacity && rooms[roomId].owner.Some?
    ensures var t := Step(rooms, Admit(userId, APPROVE, roomId), Found(false));
      var room := rooms[roomId];
      var conn := room.waitUsers[userId];
      var users := room.users[userId := conn];
      && t.Next?
      && t.rooms == rooms[roomId := room.(users := users, waitUsers := room.waitUsers - {userId})]
      && t.effects[0] == Send(conn, Reply(APPROVE, userId, room.owner.value.userId))
      && ReadyToOthers(t.effects[1..], users, userId)
  {
    var room := rooms[roomId];
    var conn := room.waitUsers[userId];
    var users := room.users[conn.userId := conn];
    ApproveWithSpace(rooms, userId, roomId);
    AdmitOfWaiting(rooms, userId, APPROVE, roomId, Found(false));
    assert conn.userId == userId by { assert KeyedByUserId(room.waitUsers); }
    assert KeyedByUserId(users) by { assert KeyedByUserId(room.users); }
    ApprovedThenReady(Send(conn, Reply(APPROVE, userId, room.owner.value.userId)), users, userId, true);
  }

  /** An admission event for a waiting user is an approval or a rejection. */
  lemma AdmitOfWaiting(rooms: Registry, userId: UserId, action: string, roomId: RoomId, lookup: Lookup)
    requires roomId in rooms && userId in rooms[roomId].waitUsers
    ensures Step(rooms, Admit(userId, action, roomId), lookup) ==
              if action == APPROVE then Approve(rooms, userId, roomId) else Reject(rooms, userId, roomId)
  {
  }

  /** The turn an APPROVE takes when the room has space and an owner. */
  lemma ApproveWithSpace(rooms: Registry, userId: UserId, roomId: RoomId)
    requires roomId in rooms && userId in rooms[roomId].waitUsers
    requires |rooms[roomId].users| < Capacity && rooms[roomId].owner.Some?
    ensures var room := rooms[roomId];
      var conn := room.waitUsers[userId];
      var users := room.users[conn.userId := conn];
      Approve(rooms, userId, roomId) ==
        Next(rooms[roomId := room.(users := users, waitUsers := room.waitUsers - {userId})],
             [Send(conn, Reply(APPROVE, userId, room.owner.value.userId))] + Readies(users, Enumerate(users.Keys), conn.userId, true))
  {
  }

  /** APPROVE while the room is full tells the target FULL and leaves it waiting. */
  lemma ApproveWhenFull(rooms: Registry, userId: UserId, roomId: RoomId)
    requires Inv(rooms) && roomId in rooms && userId in rooms[roomId].waitUsers
    requires |rooms[roomId].users| == Capacity
    ensures Step(rooms, Admit(userId, APPROVE, roomId), Found(false)) ==
              Next(rooms, [Send(rooms[roomId].waitUsers[userId], Reply(FULL, userId, ""))])
  {
  }

  /**
   * REJECT of a waiting user tells it REJECT in the owner's name and drops it
   * from the waiting list without closing its queue; the room is deleted if
   * nobody is left.
   */
  lemma RejectDrops(rooms: Registry, userId: UserId, action: string, roomId: RoomId)
    requires Inv(rooms) && roomId in rooms && userId in rooms[roomId].waitUsers
    requires action != APPROVE && rooms[roomId].owner.Some?
    ensures var t := Step(rooms, Admit(userId, action, roomId), Found(false));
      var room := rooms[roomId];
      var room' := room.(waitUsers := room.waitUsers - {userId});
      && t.Next?
      && t.effects == [Send(room.waitUsers[userId], Reply(REJECT, userId, room.owner.value.userId))]
      && (room'.users == map[] && room'.waitUsers == map[] ==> t.rooms == rooms - {roomId})
      && (room'.users != map[] || room'.waitUsers != map[] ==> t.rooms == rooms[roomId := room'])
  {
  }

  /** A decision about a user who is not waiting, or about an unknown room, changes nothing. */
  lemma AdmissionOfAbsentIgnored(rooms: Registry, userId: UserId, action: string, roomId: RoomId)
    requires roomId in rooms ==> userId !in rooms[roomId].waitUsers
    ensures Step(rooms, Admit(userId, action, roomId), Found(false)) == Next(rooms, [])
  {
  }

  /**
   * The admission branch panics exactly when it must name an absent owner:
   * the target is waiting and either the decision is a rejection or the room
   * has space to admit.
   */
  lemma AdmissionPanicsWithoutOwner(rooms: Registry, userId: UserId, action: string, roomId: RoomId)
    ensures Step(rooms, Admit(userId, action, roomId), Found(false)).Panic? <==>
              && roomId in rooms && userId in rooms[roomId].waitUsers && rooms[roomId].owner.None?
              && (action != APPROVE || |rooms[roomId].users| < Capacity)
  {
  }
}
