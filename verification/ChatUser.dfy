/**
 The load-test chat user (loadtest/orbyte_client/chat_user.py): session reuse and parent-message chaining
 across turns, whatever the server does.
 */
module ChatUser {
  import opened Base
  import opened ChatStream

  /** What `_create_session` did. */
  datatype CreateReply = Created(id: string) | NotCreated | CreateRaised

  /** What sending did: a bad status, or some lines and then perhaps an exception. */
  datatype SendReply = HttpError | Streamed(lines: seq<Line>, raised: bool)

  datatype TurnReply = TurnReply(create: CreateReply, send: SendReply)

  /** Class attributes that scenarios set. */
  datatype Scenario = Scenario(maxSessionTurns: int, disconnectAfter: Option<Milestone>)

  /** Sessions created, sends, and the id each stream read so far reserved last, oldest first. */
  datatype Event =
    | SessionCreated(id: string)
    | Sent(session: Option<string>, parent: Option<int>)
    | StreamReserved(messageId: int)

  datatype UserState = UserState(
    sessionId: Option<string>, parentMessageId: Option<int>, sessionTurn: nat, turnIndex: nat,
    history: seq<Event>)

  const NEW_USER := UserState(None, None, 0, 0, [])

  // ---- one turn ---------------------------------------------------------------------------------

  datatype Payload = Payload(session: Option<string>, parent: Option<int>)

  /** `_next_payload`: the fields afterwards and the payload, None when the turn is skipped or creation raised. */
  function NextPayload(c: Scenario, u: UserState, create: CreateReply): (UserState, Option<Payload>) {
    if c.maxSessionTurns <= 1 then (u, Some(Payload(None, None)))
    else if u.sessionId.None? || u.sessionTurn >= c.maxSessionTurns then
      match create
      case CreateRaised => (u, None)
      case NotCreated => (u.(sessionId := None, parentMessageId := None, sessionTurn := 0), None)
      case Created(id) =>
        (u.(sessionId := Some(id), parentMessageId := None, sessionTurn := 0, history := u.history + [SessionCreated(id)]),
         Some(Payload(Some(id), None)))
    else (u, Some(Payload(u.sessionId, u.parentMessageId)))
  }

  /** The lines read before the stream is dropped at the target milestone, and whether it was. */
  function Read(lines: seq<Line>, n: nat, target: Option<Milestone>): (r: (nat, bool))
    requires n <= |lines|
    ensures r.0 <= n
  {
    if n == 0 then (0, false)
    else
      var (k, dropped) := Read(lines, n - 1, target);
      if dropped then (k, true)
      else (n, target.Some? && target.value in FedAll(lines[..n]).milestonesHit
                            && target.value !in FedAll(lines[..n - 1]).milestonesHit)
  }

  /** A stream, however it ended, has reserved this id. */
  function Reserved(u: UserState, rid: Option<int>): UserState {
    if rid.None? then u else u.(history := u.history + [StreamReserved(rid.value)])
  }

  /** The last part of a turn: the stream was read to its end. */
  function AfterStream(u: UserState, rid: Option<int>): UserState {
    var y := u.(sessionTurn := u.sessionTurn + 1);
    if rid.None? then y else y.(parentMessageId := rid)
  }

  /** The user after one `chat_turn`. */
  function Turn(c: Scenario, u: UserState, reply: TurnReply): UserState {
    var v := u.(turnIndex := u.turnIndex + 1);
    var (w, payload) := NextPayload(c, v, reply.create);
    if payload.None? then w
    else
      var x := w.(history := w.history + [Sent(payload.value.session, payload.value.parent)]);
      match reply.send
      case HttpError => x.(sessionId := None)
      case Streamed(lines, raised) =>
        var (k, dropped) := Read(lines, |lines|, c.disconnectAfter);
        var rid := FedAll(lines[..k]).reservedId;
        var y := Reserved(x, rid);
        if dropped || raised then y.(sessionId := None)
        else if c.maxSessionTurns <= 1 then y
        else AfterStream(y, rid)
  }

  class OrbyteChatUser {
    const scenario: Scenario
    var sessionId: Option<string>
    var parentMessageId: Option<int>
    var sessionTurn: nat
    var turnIndex: nat
    ghost var history: seq<Event>

    ghost function View(): UserState
      reads this
    {
      UserState(sessionId, parentMessageId, sessionTurn, turnIndex, history)
    }

    constructor (scenario: Scenario)
      ensures this.scenario == scenario && View() == NEW_USER
    {
      this.scenario := scenario;
      sessionId, parentMessageId, sessionTurn, turnIndex, history := None, None, 0, 0, [];
    }

    method BuildPayload(create: CreateReply) returns (payload: Option<Payload>)
      modifies this
      ensures (View(), payload) == NextPayload(scenario, old(View()), create)
    {
      if scenario.maxSessionTurns > 1 {
        if sessionId.None? || sessionTurn >= scenario.maxSessionTurns {
          match create {
            case CreateRaised => return None;
            case NotCreated => sessionId := None;
            case Created(id) =>
              sessionId := Some(id);
              history := history + [SessionCreated(id)];
          }
          parentMessageId := None;
          sessionTurn := 0;
          if sessionId.None? {
            return None;
          }
        }
        payload := Some(Payload(sessionId, parentMessageId));
      } else {
        payload := Some(Payload(None, None));
      }
    }

    method ChatTurn(reply: TurnReply)
      modifies this
      ensures View() == Turn(scenario, old(View()), reply)
    {
      turnIndex := turnIndex + 1;
      var payload := BuildPayload(reply.create);
      if payload.None? {
        return;
      }
      history := history + [Sent(payload.value.session, payload.value.parent)];
      if reply.send.HttpError? {
        sessionId := None;
        return;
      }
      var lines := reply.send.lines;
      var analyzer := new ChatStreamAnalyzer();
      var disconnected := false;
      ghost var sent := View();
      var i := 0;
      while i < |lines| && !disconnected
        invariant i <= |lines| && fresh(analyzer)
        invariant analyzer.summary == FedAll(lines[..i])
        invariant (i, disconnected) == Read(lines, i, scenario.disconnectAfter)
        invariant View() == sent
      {
        var hit := analyzer.Feed(lines[i]);
        if scenario.disconnectAfter.Some? && scenario.disconnectAfter.value in hit {
          disconnected := true;
        }
        assert lines[..i + 1][..i] == lines[..i];
        i := i + 1;
      }
      ReadStops(lines, i, scenario.disconnectAfter);
      var rid := analyzer.summary.reservedId;
      if rid.Some? {
        history := history + [StreamReserved(rid.value)];
      }
      if disconnected || reply.send.raised {
        sessionId := None;
        return;
      }
      if scenario.maxSessionTurns > 1 {
        sessionTurn := sessionTurn + 1;
        if rid.Some? {
          parentMessageId := rid;
        }
      }
    }
  }

  lemma {:induction false} ReadStops(lines: seq<Line>, n: nat, target: Option<Milestone>)
    requires n <= |lines| && (n == |lines| || Read(lines, n, target).1)
    ensures Read(lines, |lines|, target) == Read(lines, n, target)
    decreases |lines| - n
  {
    if n < |lines| {
      assert Read(lines, n + 1, target) == Read(lines, n, target);
      ReadStops(lines, n + 1, target);
    }
  }

  // ---- all runs --------------------------------------------------------------------------------------

  function Turns(c: Scenario, replies: seq<TurnReply>): UserState {
    if replies == [] then NEW_USER else Turn(c, Turns(c, replies[..|replies| - 1]), replies[|replies| - 1])
  }

  /** The events since the last session was created, that one included; all of them if none was. */
  function Since(history: seq<Event>): seq<Event> {
    if history == [] then []
    else if history[|history| - 1].SessionCreated? then [history[|history| - 1]]
    else Since(history[..|history| - 1]) + [history[|history| - 1]]
  }

  /** Sends that name a session. */
  function SessionSends(events: seq<Event>): nat {
    if events == [] then 0
    else SessionSends(events[..|events| - 1])
         + (if events[|events| - 1].Sent? && events[|events| - 1].session.Some? then 1 else 0)
  }

  /** The id reserved last, if any was. */
  function LastReserved(events: seq<Event>): Option<int> {
    if events == [] then None
    else if events[|events| - 1].StreamReserved? then Some(events[|events| - 1].messageId)
    else LastReserved(events[..|events| - 1])
  }

  /** A send that names a session names the last one created, with the parent reserved last since, within the turn limit. */
  ghost predicate SendAllowed(c: Scenario, before: seq<Event>, e: Event) {
    e.Sent? ==>
      && (e.session.None? ==> e.parent.None?)
      && (e.session.Some? ==>
            var current := Since(before);
            && current != [] && current[0] == SessionCreated(e.session.value)
            && e.parent == LastReserved(current)
            && SessionSends(current) < c.maxSessionTurns)
  }

  ghost predicate AllAllowed(c: Scenario, history: seq<Event>) {
    forall k :: 0 <= k < |history| ==> SendAllowed(c, history[..k], history[k])
  }

  ghost predicate Inv(c: Scenario, u: UserState) {
    && AllAllowed(c, u.history)
    && (u.sessionId.Some? ==>
          var current := Since(u.history);
          && current != [] && current[0] == SessionCreated(u.sessionId.value)
          && SessionSends(current) == u.sessionTurn
          && u.parentMessageId == LastReserved(current))
  }

  lemma AllowedAppend(c: Scenario, history: seq<Event>, e: Event)
    requires AllAllowed(c, history) && SendAllowed(c, history, e)
    ensures AllAllowed(c, history + [e])
  {
    var h := history + [e];
    forall k | 0 <= k < |h| ensures SendAllowed(c, h[..k], h[k]) {
      assert h[..k] == if k < |history| then history[..k] else history;
    }
  }

  lemma SinceAppend(history: seq<Event>, e: Event)
    ensures Since(history + [e]) == if e.SessionCreated? then [e] else Since(history) + [e]
    ensures SessionSends(Since(history) + [e])
            == SessionSends(Since(history)) + (if e.Sent? && e.session.Some? then 1 else 0)
    ensures LastReserved(Since(history) + [e]) == if e.StreamReserved? then Some(e.messageId) else LastReserved(Since(history))
  {
  }

  lemma PayloadKeepsInv(c: Scenario, u: UserState, create: CreateReply)
    requires Inv(c, u)
    ensures var (v, p) := NextPayload(c, u, create);
            && Inv(c, v)
            && (c.maxSessionTurns <= 1 ==> v == u)
            && (p.Some? ==> SendAllowed(c, v.history, Sent(p.value.session, p.value.parent))
                            && (p.value.session.Some? ==> p.value.session == v.sessionId)
                            && (p.value.session.None? ==> c.maxSessionTurns <= 1))
  {
    if create.Created? {
      var e := SessionCreated(create.id);
      SinceAppend(u.history, e);
      AllowedAppend(c, u.history, e);
      assert SessionSends([e]) == SessionSends([e][..0]) == 0;
      assert LastReserved([e]) == LastReserved([e][..0]) == None;
    }
  }

  /** What a stream read so far decides: it is dropped at the first line that brings the milestone, else read through. */
  lemma {:induction false} ReadMeaning(lines: seq<Line>, n: nat, target: Option<Milestone>)
    requires n <= |lines|
    ensures var (k, dropped) := Read(lines, n, target);
            && (dropped <==> target.Some? && target.value in FedAll(lines[..n]).milestonesHit)
            && (!dropped ==> k == n)
            && (dropped ==> target.value in FedAll(lines[..k]).milestonesHit
                            && forall j :: 0 <= j < k ==> target.value !in FedAll(lines[..j]).milestonesHit)
  {
    hide FedAll;
    if n == 0 {
      NothingFed();
      assert lines[..0] == [];
    } else {
      ReadMeaning(lines, n - 1, target);
      MilestonesGrow(lines, n - 1, n);
      forall j | 0 <= j < n ensures FedAll(lines[..j]).milestonesHit <= FedAll(lines[..n - 1]).milestonesHit {
        MilestonesGrow(lines, j, n - 1);
      }
    }
  }

  lemma NothingFed()
    ensures FedAll([]) == NEW_SUMMARY
  {
  }

  lemma {:induction false} MilestonesGrow(lines: seq<Line>, j: nat, n: nat)
    requires j <= n <= |lines|
    ensures FedAll(lines[..j]).milestonesHit <= FedAll(lines[..n]).milestonesHit
    decreases n
  {
    if j < n {
      MilestonesGrow(lines, j, n - 1);
      assert lines[..n][..n - 1] == lines[..n - 1];
      FedKeepsMilestones(FedAll(lines[..n - 1]), lines[n - 1]);
    }
  }

  /** What sending did to a stream's id, and whether the session can be used again. */
  function ReservedBy(c: Scenario, send: SendReply): Option<int> {
    if send.HttpError? then None
    else FedAll(send.lines[..Read(send.lines, |send.lines|, c.disconnectAfter).0]).reservedId
  }

  predicate Abandoned(c: Scenario, send: SendReply) {
    send.HttpError? || send.raised
    || (c.disconnectAfter.Some? && c.disconnectAfter.value in FedAll(send.lines).milestonesHit)
  }

  /** What a turn adds to the history once a payload is out: the send, and the id its stream reserved. */
  function SendEvents(c: Scenario, session: Option<string>, parent: Option<int>, send: SendReply): seq<Event> {
    [Sent(session, parent)] + if ReservedBy(c, send).Some? then [StreamReserved(ReservedBy(c, send).value)] else []
  }

  /**
   What a turn does, told from the history: without multi-turn sessions it sends on its own; a session held
   with sends to spare is used again, with the parent it reserved last; otherwise a new one is needed, and a
   turn that gets none sends nothing. A session is held on to unless its send went wrong or was dropped.
   */
  lemma TurnMeaning(c: Scenario, u: UserState, reply: TurnReply)
    requires Inv(c, u)
    ensures var (h, v, send) := (u.history, Turn(c, u, reply), reply.send);
            if c.maxSessionTurns <= 1 then v.history == h + SendEvents(c, None, None, send)
            else if u.sessionId.Some? && SessionSends(Since(h)) < c.maxSessionTurns then
              && v.history == h + SendEvents(c, u.sessionId, LastReserved(Since(h)), send)
              && v.sessionId == if Abandoned(c, send) then None else u.sessionId
            else
              match reply.create
              case Created(id) =>
                && v.history == h + ([SessionCreated(id)] + SendEvents(c, Some(id), None, send))
                && v.sessionId == if Abandoned(c, send) then None else Some(id)
              case NotCreated => v.history == h && v.sessionId == None
              case CreateRaised => v.history == h && v.sessionId == u.sessionId
  {
    var held := u.sessionId.Some?;
    assert held ==> SessionSends(Since(u.history)) == u.sessionTurn && u.parentMessageId == LastReserved(Since(u.history));
    hide FedAll, Since, SessionSends, LastReserved, Inv;
    if reply.send.Streamed? {
      ReadMeaning(reply.send.lines, |reply.send.lines|, c.disconnectAfter);
      assert reply.send.lines[..|reply.send.lines|] == reply.send.lines;
    }
    hide Read;
    var (w, payload) := NextPayload(c, u.(turnIndex := u.turnIndex + 1), reply.create);
    if payload.Some? {
      TurnSends(c, u, reply, w, payload.value);
    }
    hide Turn, Abandoned, SendEvents;
  }

  lemma TurnSends(c: Scenario, u: UserState, reply: TurnReply, w: UserState, p: Payload)
    requires NextPayload(c, u.(turnIndex := u.turnIndex + 1), reply.create) == (w, Some(p))
    requires reply.send.Streamed? ==>
               (Read(reply.send.lines, |reply.send.lines|, c.disconnectAfter).1 <==>
                  c.disconnectAfter.Some? && c.disconnectAfter.value in FedAll(reply.send.lines).milestonesHit)
    ensures var v := Turn(c, u, reply);
            && v.history == w.history + SendEvents(c, p.session, p.parent, reply.send)
            && (c.maxSessionTurns > 1 ==> v.sessionId == if Abandoned(c, reply.send) then None else w.sessionId)
  {
    hide FedAll, Read, NextPayload;
    assert ReservedBy(c, reply.send).None? ==>
             SendEvents(c, p.session, p.parent, reply.send) == [Sent(p.session, p.parent)];
  }

  /** After a send the sends of the session are one ahead of the turn counter. */
  lemma SendKeepsInv(c: Scenario, w: UserState, p: Payload)
    requires Inv(c, w) && SendAllowed(c, w.history, Sent(p.session, p.parent))
    requires p.session.Some? ==> p.session == w.sessionId
    requires p.session.None? ==> w.sessionId.None?
    ensures var x := w.(history := w.history + [Sent(p.session, p.parent)]);
            Inv(c, x.(sessionId := None)) && Inv(c, x.(sessionTurn := x.sessionTurn + 1))
  {
    var e := Sent(p.session, p.parent);
    AllowedAppend(c, w.history, e);
    SinceAppend(w.history, e);
  }

  lemma ReservationKeepsInv(c: Scenario, u: UserState, id: int)
    requires Inv(c, u)
    ensures Inv(c, Reserved(u, Some(id)).(parentMessageId := Some(id)))
    ensures u.sessionId.None? ==> Inv(c, Reserved(u, Some(id)))
  {
    var e := StreamReserved(id);
    AllowedAppend(c, u.history, e);
    SinceAppend(u.history, e);
  }

  lemma StreamKeepsInv(c: Scenario, w: UserState, p: Payload, rid: Option<int>)
    requires Inv(c, w) && SendAllowed(c, w.history, Sent(p.session, p.parent))
    requires p.session.Some? ==> p.session == w.sessionId
    requires p.session.None? ==> w.sessionId.None?
    ensures var x := w.(history := w.history + [Sent(p.session, p.parent)]);
            && Inv(c, x.(sessionId := None))
            && Inv(c, Reserved(x, rid).(sessionId := None)) && Inv(c, AfterStream(Reserved(x, rid), rid))
  {
    hide Inv, SendAllowed;
    SendKeepsInv(c, w, p);
    var x := w.(history := w.history + [Sent(p.session, p.parent)]);
    if rid.Some? {
      ReservationKeepsInv(c, x.(sessionId := None), rid.value);
      ReservationKeepsInv(c, x.(sessionTurn := x.sessionTurn + 1), rid.value);
    }
  }

  lemma InvIgnoresTurnIndex(c: Scenario, u: UserState)
    requires Inv(c, u)
    ensures Inv(c, u.(turnIndex := u.turnIndex + 1))
  {
  }

  /** Without multi-turn sessions the user never holds one. */
  lemma TurnKeepsInv(c: Scenario, u: UserState, reply: TurnReply)
    requires Inv(c, u) && (c.maxSessionTurns <= 1 ==> u.sessionId.None?)
    ensures Inv(c, Turn(c, u, reply)) && (c.maxSessionTurns <= 1 ==> Turn(c, u, reply).sessionId.None?)
  {
    hide FedAll, Read, Inv, SendAllowed, NextPayload;
    InvIgnoresTurnIndex(c, u);
    var v := u.(turnIndex := u.turnIndex + 1);
    var (w, payload) := NextPayload(c, v, reply.create);
    PayloadKeepsInv(c, v, reply.create);
    if payload.Some? {
      var p := payload.value;
      var rid := if reply.send.HttpError? then None else
        FedAll(reply.send.lines[..Read(reply.send.lines, |reply.send.lines|, c.disconnectAfter).0]).reservedId;
      StreamKeepsInv(c, w, p, rid);
      var x := w.(history := w.history + [Sent(p.session, p.parent)]);
      var y := Reserved(x, rid);
      assert Turn(c, u, reply) == x.(sessionId := None) || Turn(c, u, reply) == y.(sessionId := None)
             || Turn(c, u, reply) == AfterStream(y, rid) || (c.maxSessionTurns <= 1 && Turn(c, u, reply) == y);
      assert c.maxSessionTurns <= 1 ==> y == y.(sessionId := None);
    }
  }

  /**
   Over every run of turns, creation failures, HTTP errors, exceptions and disconnects: each send that
   names a session names the one created last, its parent was reserved by an earlier stream of that very
   session, and no session gets more than `max_session_turns` sends.
   */
  lemma {:induction false} ChainingSafe(c: Scenario, replies: seq<TurnReply>)
    ensures Inv(c, Turns(c, replies)) && (c.maxSessionTurns <= 1 ==> Turns(c, replies).sessionId.None?)
    ensures AllAllowed(c, Turns(c, replies).history)
  {
    if replies != [] {
      ChainingSafe(c, replies[..|replies| - 1]);
      TurnKeepsInv(c, Turns(c, replies[..|replies| - 1]), replies[|replies| - 1]);
    }
  }
}
