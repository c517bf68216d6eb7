/**
 * The per-connection read pump (signaling/read_write.go): each decoded
 * client message is classified into at most one request to the room
 * manager, and when reading stops one final SELF unregister is sent.
 *
 * The socket is a sequence of frames; deadlines and the write pump are
 * reduced to their timing constants.
 */
module Pump {
  import opened Wrappers
  import Collections
  import opened Protocol
  import opened Rooms

  /** One second of Go's time.Duration, in nanoseconds. */
  const Second: nat := 1_000_000_000

  /** Time allowed to write one message to the peer. */
  const WriteWait: nat := 10 * Second

  /** Time allowed between two reads before the connection is given up. */
  const ReadWait: nat := 60 * Second

  /** Period of the keep-alive pings, nine tenths of the read window. */
  const PingPeriod: nat := (ReadWait * 9) / 10

  /**
   * A peer that answers every ping within the slack between the ping period
   * and the read window has its read deadline extended before it expires:
   * the pong to ping k+1 arrives before the deadline the pong to ping k set.
   */
  lemma PongBeatsReadDeadline(k: nat, delay: nat, nextDelay: nat)
    requires delay < ReadWait - PingPeriod && nextDelay < ReadWait - PingPeriod
    ensures 0 < PingPeriod < ReadWait
    ensures (k + 1) * PingPeriod + nextDelay < (k * PingPeriod + delay) + ReadWait
  {
  }

  /** What the socket yields to one read: a message, bytes that are not a message, or an error. */
  datatype Frame = Received(msg: Message) | Undecodable | ReadFailed

  /**
   * The reaction to one message: the pump's new local view and the request
   * it hands to the room manager, if any; or a runtime panic, after the
   * connection's user id has already been overwritten.
   */
  datatype Reaction = Continue(user: User, request: Option<Event>) | Crash(user: User)

  /**
   * The switch of lines 48-105. START and JOIN take the room id from the
   * message's data, which must be a JSON string (the type assertion panics
   * otherwise); END asks to close the room only if this connection has
   * claimed ownership; MESSAGE and the admission actions are checked for
   * empty fields; any other action is ignored.
   */
  function Dispatch(user: User, msg: Message): (r: Reaction)
    ensures r.Crash? <==> (msg.action == START || msg.action == JOIN) && !msg.data.Text?
    ensures (msg.action == START || msg.action == JOIN) ==>
              r.user.conn == user.conn.(userId := msg.userId)
    ensures r.Continue? && (msg.action == START || msg.action == JOIN) ==>
              r.user == User(user.conn.(userId := msg.userId), msg.data.text, msg.action == START) &&
              r.request == Some(Register(r.user))
    ensures r.Continue? && msg.action != START && msg.action != JOIN ==> r.user == user
    ensures msg.action == END ==>
              r.Continue? && (r.request.Some? <==> user.isOwner) &&
              (r.request.Some? ==> r.request.value == Unregister(user, All))
    ensures msg.action == LEAVE ==> r.Continue? && r.request == Some(Unregister(user, Self))
    ensures msg.action == MESSAGE ==>
              r.Continue? &&
              (r.request.Some? <==> user.roomId != "" && msg.from != "" && msg.to != "" && msg.from != msg.to) &&
              (r.request.Some? ==> r.request.value == Forward(user.roomId, msg))
    ensures msg.action == APPROVE || msg.action == REJECT ==>
              r.Continue? && (r.request.Some? <==> user.roomId != "" && msg.to != "") &&
              (r.request.Some? ==> r.request.value == Admit(msg.to, msg.action, user.roomId))
    ensures r.Continue? && r.request.None? <==>
              || (msg.action == END && !user.isOwner)
              || (msg.action == MESSAGE && (user.roomId == "" || msg.from == "" || msg.to == "" || msg.from == msg.to))
              || ((msg.action == APPROVE || msg.action == REJECT) && (user.roomId == "" || msg.to == ""))
              || msg.action !in {START, JOIN, END, LEAVE, MESSAGE, APPROVE, REJECT}
  {
    if msg.action == START || msg.action == JOIN then
      var conn := user.conn.(userId := msg.userId);
      match msg.data
      case Text(roomId) =>
        var user' := User(conn, roomId, msg.action == START);
        Continue(user', Some(Register(user')))
      case _ => Crash(user.(conn := conn))
    else if msg.action == END then
      Continue(user, if user.isOwner then Some(Unregister(user, All)) else None)
    else if msg.action == LEAVE then
      Continue(user, Some(Unregister(user, Self)))
    else if msg.action == MESSAGE then
      var valid := user.roomId != "" && msg.from != "" && msg.to != "" && msg.from != msg.to;
      Continue(user, if valid then Some(Forward(user.roomId, msg)) else None)
    else if msg.action == APPROVE || msg.action == REJECT then
      var valid := user.roomId != "" && msg.to != "";
      Continue(user, if valid then Some(Admit(msg.to, msg.action, user.roomId)) else None)
    else
      Continue(user, None)
  }

  /** Whether the pump is still reading, has left its loop, or has panicked. */
  datatype Status = Reading | Stopped | Crashed

  /** The pump's view, the requests it has sent in order, and its status. */
  datatype Session = Session(user: User, requests: seq<Event>, status: Status)

  /** Whether a frame makes the loop break. */
  predicate Stops(f: Frame) {
    f.Undecodable? || f.ReadFailed?
  }

  /**
   * The loop of lines 33-106 and the deferred unregister of lines 28-32 over
   * the frames read so far. A read error or an undecodable frame breaks the
   * loop; a panic also runs the deferred unregister before the process dies.
   * The deferred request carries the pump's view as last updated.
   */
  function Run(user: User, frames: seq<Frame>): (s: Session)
    ensures |s.requests| <= |frames| + 1
    ensures s.status == Reading ==> |s.requests| <= |frames|
    ensures s.status != Reading ==> |s.requests| > 0 && s.requests[|s.requests| - 1] == Unregister(s.user, Self)
    decreases |frames|
  {
    if frames == [] then Session(user, [], Reading)
    else
      match frames[0]
      case Received(msg) =>
        (match Dispatch(user, msg)
         case Crash(user') => Session(user', [Unregister(user', Self)], Crashed)
         case Continue(user', request) =>
           var rest := Run(user', frames[1..]);
           var now := if request.Some? then [request.value] else [];
           Session(rest.user, now + rest.requests, rest.status))
      case _ => Session(user, [Unregister(user, Self)], Stopped)
  }

  /** The requests one reaction hands on: none, or the one it carries. */
  function Sent(reaction: Reaction): (r: seq<Event>)
    ensures |r| <= 1 && (|r| == 1 <==> reaction.Continue? && reaction.request.Some?)
  {
    if reaction.Continue? && reaction.request.Some? then [reaction.request.value] else []
  }

  /**
   * A message that does not panic the pump is followed by reading the rest
   * of the frames from the view it leaves; its request comes first.
   */
  lemma ReadOne(user: User, frames: seq<Frame>)
    requires frames != [] && frames[0].Received? && Dispatch(user, frames[0].msg).Continue?
    ensures var reaction := Dispatch(user, frames[0].msg);
      var rest := Run(reaction.user, frames[1..]);
      Run(user, frames) == Session(rest.user, Sent(reaction) + rest.requests, rest.status)
  {
  }

  /**
   * Reading is compositional: while the loop has not ended, the frames that
   * follow are read from the view the earlier ones left, and the requests
   * follow one another.
   */
  lemma {:induction false} RunAppend(user: User, frames: seq<Frame>, more: seq<Frame>)
    requires Run(user, frames).status == Reading
    ensures var first := Run(user, frames);
      var second := Run(first.user, more);
      Run(user, frames + more) == Session(second.user, first.requests + second.requests, second.status)
    decreases |frames|
  {
    if frames == [] {
      assert frames + more == more;
    } else {
      assert frames[0].Received? && Dispatch(user, frames[0].msg).Continue?;
      var reaction := Dispatch(user, frames[0].msg);
      var all := frames + more;
      assert all[0] == frames[0] && all[1..] == frames[1..] + more;
      ReadOne(user, frames);
      ReadOne(user, all);
      RunAppend(reaction.user, frames[1..], more);
      var rest := Run(reaction.user, frames[1..]);
      var second := Run(rest.user, more);
      Collections.ConcatAssoc(Sent(reaction), rest.requests, second.requests);
    }
  }

  /**
   * Once the loop has ended, by a break or a panic, nothing read afterwards
   * has any effect: no request follows the deferred unregister.
   */
  lemma {:induction false} RunIgnoresAfterEnd(user: User, frames: seq<Frame>, more: seq<Frame>)
    requires Run(user, frames).status != Reading
    ensures Run(user, frames + more) == Run(user, frames)
    decreases |frames|
  {
    assert frames != [];
    assert (frames + more)[0] == frames[0];
    assert (frames + more)[1..] == frames[1..] + more;
    if frames[0].Received? && Dispatch(user, frames[0].msg).Continue? {
      RunIgnoresAfterEnd(Dispatch(user, frames[0].msg).user, frames[1..], more);
    }
  }

  /**
   * An undecodable frame read while the loop runs ends the session: exactly
   * one more request follows, the SELF unregister for the view as it stands,
   * and whatever is read after it is ignored.
   */
  lemma UndecodableEndsSession(user: User, frames: seq<Frame>, more: seq<Frame>)
    requires Run(user, frames).status == Reading
    ensures var before := Run(user, frames);
      Run(user, frames + [Undecodable] + more) ==
        Session(before.user, before.requests + [Unregister(before.user, Self)], Stopped)
  {
    var before := Run(user, frames);
    RunAppend(user, frames, [Undecodable]);
    assert Run(before.user, [Undecodable]) == Session(before.user, [Unregister(before.user, Self)], Stopped);
    RunIgnoresAfterEnd(user, frames + [Undecodable], more);
  }

  /**
   * A session that ends sends exactly one unregister that no client message
   * asked for: the deferred SELF, last. Every other request answers one
   * message, so there is at most one request per message read.
   */
  lemma {:induction false} RunOneRequestPerMessage(user: User, frames: seq<Frame>)
    ensures var s := Run(user, frames);
      |s.requests| <= |Messages(frames)| + (if s.status == Reading then 0 else 1)
    decreases |frames|
  {
    if frames != [] {
      assert Messages(frames) == (if frames[0].Received? then [frames[0].msg] else []) + Messages(frames[1..]);
      if frames[0].Received? && Dispatch(user, frames[0].msg).Continue? {
        RunOneRequestPerMessage(Dispatch(user, frames[0].msg).user, frames[1..]);
      }
    }
  }

  /** The messages among the frames, in order. */
  function Messages(frames: seq<Frame>): (r: seq<Message>)
    ensures |r| <= |frames|
    decreases |frames|
  {
    if frames == [] then []
    else (if frames[0].Received? then [frames[0].msg] else []) + Messages(frames[1..])
  }

  /**
   * A connection can close a room it never owned: a START naming the room
   * sets the pump's ownership claim whatever the room store then answers, and
   * a following END is passed on as a request to close the whole room.
   */
  lemma ClaimAloneAuthorizesEnd(user: User, claimant: UserId, roomId: RoomId)
    ensures var start := Message(START, claimant, Text(roomId), "", "", "", "");
      var end := Message(END, "", NoData, "", "", "", "");
      var s := Run(user, [Received(start), Received(end)]);
      var claimed := User(user.conn.(userId := claimant), roomId, true);
      s.requests == [Register(claimed), Unregister(claimed, All)] && s.status == Reading
  {
    var start := Message(START, claimant, Text(roomId), "", "", "", "");
    var end := Message(END, "", NoData, "", "", "", "");
    var claimed := User(user.conn.(userId := claimant), roomId, true);
    assert Dispatch(user, start) == Continue(claimed, Some(Register(claimed)));
    assert Dispatch(claimed, end) == Continue(claimed, Some(Unregister(claimed, All)));
    var frames := [Received(start), Received(end)];
    assert frames[1..] == [Received(end)] && frames[1..][1..] == [];
    assert Run(claimed, frames[1..]) == Session(claimed, [Unregister(claimed, All)], Reading);
  }
}
