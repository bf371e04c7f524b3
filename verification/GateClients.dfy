/** Clients over whole runs: whom a connection hears from and in what order, and which connections are left without
    their session. */
module GateClients {
  import opened Prelude
  import opened Protocol
  import opened GateModel
  import opened GateInvariant
  import opened GateSteps
  import opened GateTable
  import opened GateEffects
  import opened GateRuns
  import C = GateCounterexamples
  import Token

  // ---------- what a connection hears ----------

  /** Refusals come first, then one greeting, then messages passed on. */
  function Rank(msg: ClientMsg): int {
    match msg
    case SessionInit(_, _) => 1
    case ResumeRsp(_, ok, _) => if ok then 1 else 0
    case Forward(_) => 2
  }

  /** The session a message is about; a refusal is about none. */
  function Subject(msg: ClientMsg): int {
    match msg
    case SessionInit(id, _) => id
    case ResumeRsp(id, ok, _) => if ok then id else 0
    case Forward(env) => env.sessionId
  }

  /** A message for a connection that had session `sid` and then has `sid'`, 0 for none. */
  predicate Fits(msg: ClientMsg, sid: int, sid': int) {
    if Rank(msg) == 0 then sid == 0 && sid' == 0
    else Subject(msg) == sid' != 0 && (Rank(msg) == 1 <==> sid == 0)
  }

  /** The queue of `c` is as it was, or has got one message that fits, while its session, if any, held it. */
  ghost predicate Hears(g: Gate, g': Gate, c: int) {
    c in g.conns && c in g'.conns ==>
      && (g.conns[c].sessionID != 0 ==> g'.conns[c].sessionID == g.conns[c].sessionID)
      && var q, q' := g.conns[c].sendCh, g'.conns[c].sendCh;
         || (q' == q)
         || (q' != [] && q' == q + [q'[|q'| - 1]]
             && Fits(q'[|q'| - 1], g.conns[c].sessionID, g'.conns[c].sessionID)
             && (g.conns[c].sessionID != 0 ==> Attached(g, g.conns[c].sessionID, c)))
  }

  /** Queues and session IDs as in `g`. */
  ghost predicate Silent(g: Gate, h: Gate) {
    && (forall c :: c in h.conns <==> c in g.conns)
    && (forall c | c in g.conns ::
          h.conns[c].sendCh == g.conns[c].sendCh && h.conns[c].sessionID == g.conns[c].sessionID)
  }

  lemma AnsweredHears(g: Gate, h: Gate, id: int, msgId: int, payload: seq<byte>, c: int)
    requires Inv(g) && Silent(g, h) && id in g.sessions && id in h.sessions
    requires h.sessions[id].conn == g.sessions[id].conn
    ensures Hears(g, Answered(h, id, msgId, payload), c)
  {
    assert SessionOk(g, id);
  }

  lemma GoneSilent(g: Gate, s: Session, now: int)
    ensures Silent(g, Gone(g, s, now))
  {}

  lemma BackHears(g: Gate, x: int, id: int, now: int, c: int)
    requires Inv(g) && x in g.conns && g.conns[x].sessionID == 0 && id in g.sessions
    ensures Hears(g, Back(g, x, id, now), c)
  {
    assert SessionOk(g, id);
  }

  lemma NewcomerHears(g: Gate, x: int, env: Envelope, nonce: Option<seq<byte>>, now: int, c: int)
    requires Inv(g) && x in g.conns && g.conns[x].sessionID == 0
    ensures Hears(g, Newcomer(g, x, env, nonce, now), c)
  {}

  /** A client that is turned away hears nothing, or a refusal while it has no session. */
  lemma TurnedAwayHears(g: Gate, x: int, answer: Option<ClientMsg>, c: int)
    requires x in g.conns && (answer.Some? ==> Rank(answer.value) == 0 && g.conns[x].sessionID == 0)
    ensures Hears(g, Done(g, x, Envelope(0, 0, 0, []), None, 0, TurnedAway(answer)), c)
  {}

  lemma RefusalRanks(g: Gate, x: int, env: Envelope, req: Option<ResumeReq>, now: int)
    requires x in g.conns
    ensures match DeedOf(g, x, env, req, now)
            case TurnedAway(Some(msg)) => Rank(msg) == 0 && g.conns[x].sessionID == 0
            case Welcomed => g.conns[x].sessionID == 0
            case Resumed(_) => g.conns[x].sessionID == 0
            case _ => true
  {}

  lemma DoneHears(g: Gate, x: int, env: Envelope, nonce: Option<seq<byte>>, now: int, deed: Deed, c: int)
    requires Inv(g) && x in g.conns && Known(g, deed)
    requires deed.TurnedAway? && deed.answer.Some? ==> Rank(deed.answer.value) == 0 && g.conns[x].sessionID == 0
    requires deed.Welcomed? || deed.Resumed? ==> g.conns[x].sessionID == 0
    ensures Hears(g, Done(g, x, env, nonce, now, deed), c)
  {
    match deed
    case TurnedAway(answer) => TurnedAwayHears(g, x, answer, c);
    case Welcomed => NewcomerHears(g, x, env, nonce, now, c);
    case Resumed(id) => BackHears(g, x, id, now, c);
    case Superseded(id) => GoneSilent(g, CountLogin(g.sessions[id], g.cfg, now), now);
    case Beaten(id) => BeatHears(g, id, now, c);
    case Unrouted(id) =>
      GoneSilent(g, g.sessions[id].(unknownMsgCount := g.sessions[id].unknownMsgCount + 1), now);
    case _ =>
  }

  lemma BeatHears(g: Gate, id: int, now: int, c: int)
    requires Inv(g) && id in g.sessions
    ensures Hears(g, Beat(g, id, now), c)
  {
    var s := g.sessions[id];
    var conns := if s.conn.Some? && s.conn.value in g.conns
                 then g.conns[s.conn.value := g.conns[s.conn.value].(lastSeen := now)] else g.conns;
    var h := g.(sessions := g.sessions[id := s.(lastSeen := now)], conns := conns);
    AnsweredHears(g, h, id, MSG_HEARTBEAT_RSP, [], c);
  }

  lemma ServedHears(g: Gate, env: Envelope, rsp: Option<int>, now: int, c: int)
    requires Inv(g)
    ensures Hears(g, Served(g, env, rsp, now), c)
  {
    if env.sessionId in g.sessions {
      if env.msgId == MSG_LOGIN_RSP && Registered(g, env.sessionId) && rsp.Some? {
        LoggedInSpares(g, env.sessionId, rsp.value, now);
        LoggedInSilent(g, env.sessionId, rsp.value, now);
        AnsweredHears(g, LoggedInAs(g, env.sessionId, rsp.value, now), env.sessionId, env.msgId, env.payload, c);
      } else {
        AnsweredHears(g, g, env.sessionId, env.msgId, env.payload, c);
      }
    }
  }

  lemma LoggedInSilent(g: Gate, id: int, playerID: int, now: int)
    requires id in g.sessions
    ensures Silent(g, LoggedInAs(g, id, playerID, now))
  {
    if Displaces(g, id, playerID) { GoneSilent(g, g.sessions[g.byPlayer[playerID]], now); }
  }

  lemma TableHears(g: Gate, step: Step, c: int)
    requires Inv(g) && Enabled(g, step) && c in g.conns && !(step.WriteOne? && step.conn == c)
    ensures Hears(Before(g, step), Table(g, step), c)
  {
    BeforeOk(g, step);
    var t := Before(g, step);
    match step {
      case Receive(x, env, req, nonce, now) =>
        DeedKnown(t, x, env, req, now);
        RefusalRanks(t, x, env, req, now);
        DoneHears(t, x, env, nonce, now, DeedOf(t, x, env, req, now), c);
      case FromService(env, rsp, now) => ServedHears(t, env, rsp, now, c);
      case KickSession(id, now) => if Kickable(t, id) { GoneSilent(t, t.sessions[id], now); }
      case _ =>
    }
  }

  /** In a step a connection hears at most one message, and one that fits the session it has. */
  lemma StepHears(g: Gate, step: Step, c: int)
    requires Inv(g) && Enabled(g, step) && c in g.conns && !(step.WriteOne? && step.conn == c)
    ensures c in Apply(g, step).conns && Hears(g, Apply(g, step), c)
  {
    StepExactly(g, step);
    TableHears(g, step, c);
    StepKeepsConns(g, step, c);
  }

  lemma StepKeepsConns(g: Gate, step: Step, c: int)
    requires Inv(g) && Enabled(g, step) && c in g.conns
    ensures c in Apply(g, step).conns
  {
    StepEvolves(g, step);
    assert ConnEvolves(g, Apply(g, step), c);
  }

  /** A connection that its session has let go of hears nothing more, and is never held again. */
  lemma LetGoHearsNothing(g: Gate, step: Step, c: int)
    requires Inv(g) && Enabled(g, step) && c in g.conns && g.conns[c].sessionID != 0
    requires !Attached(g, g.conns[c].sessionID, c)
    ensures var g', id := Apply(g, step), g.conns[c].sessionID;
            && c in g'.conns && g'.conns[c].sessionID == id && !Attached(g', id, c)
            && g'.conns[c].sendCh == if step.WriteOne? && step.conn == c then g.conns[c].sendCh[1..]
                                     else g.conns[c].sendCh
  {
    StepEvolves(g, step);
    assert ConnEvolves(g, Apply(g, step), c) && SessionEvolves(g, Apply(g, step), g.conns[c].sessionID);
    if !(step.WriteOne? && step.conn == c) { StepHears(g, step, c); }
  }

  // ---------- whole conversations ----------

  function Waiting(g: Gate, c: int): seq<ClientMsg> {
    if c in g.conns then g.conns[c].sendCh else []
  }

  /** What the writer of connection `c` takes in the step. */
  function Taken(g: Gate, step: Step, c: int): seq<ClientMsg>
    requires Enabled(g, step)
  {
    if step.WriteOne? && step.conn == c then [g.conns[c].sendCh[0]] else []
  }

  /** What the writer of connection `c` has taken in the first `n` steps, oldest first. */
  ghost function Written(g: Gate, run: seq<Step>, n: nat, c: int): seq<ClientMsg>
    requires IsRun(g, run) && n <= |run|
  {
    if n == 0 then [] else Written(g, run, n - 1, c) + Taken(Source(g, run, n - 1), run[n - 1], c)
  }

  /** All that connection `c` has been told: what is written, and what is waiting. */
  ghost function Said(g: Gate, run: seq<Step>, n: nat, c: int): seq<ClientMsg>
    requires IsRun(g, run) && n <= |run|
  {
    Written(g, run, n, c) + Waiting(After(g, run, n), c)
  }

  /** The session of connection `c`, 0 while there is none. */
  function SessionOf(g: Gate, c: int): int {
    if c in g.conns then g.conns[c].sessionID else 0
  }

  ghost predicate NothingBefore(g: Gate, run: seq<Step>, n: nat, c: int)
    requires IsRun(g, run) && n <= |run|
  {
    c !in After(g, run, n).conns ==> Written(g, run, n, c) == []
  }

  lemma {:induction false} NothingWritten(g: Gate, run: seq<Step>, n: nat, c: int)
    requires Fresh(g) && IsRun(g, run) && n <= |run|
    ensures NothingBefore(g, run, n, c)
  {
    if n > 0 {
      NothingWritten(g, run, n - 1, c);
      Unfold(g, run, n - 1);
      RunInvariant(g, run, n - 1);
      if c in After(g, run, n - 1).conns { StepKeepsConns(After(g, run, n - 1), run[n - 1], c); }
    }
  }

  /** One step says nothing more, or one message that fits. */
  ghost predicate SaysMore(said: seq<ClientMsg>, said': seq<ClientMsg>, sid: int, sid': int) {
    && (sid != 0 ==> sid' == sid)
    && (|| said' == said
        || (said' != [] && said' == said + [said'[|said'| - 1]] && Fits(said'[|said'| - 1], sid, sid')))
  }

  lemma AppendSays(w: seq<ClientMsg>, q: seq<ClientMsg>, q': seq<ClientMsg>, sid: int, sid': int)
    requires SaysMore(q, q', sid, sid')
    ensures SaysMore(w + q, w + q', sid, sid')
  {
    if q' != q {
      assert (w + q')[|w + q'| - 1] == q'[|q'| - 1];
      assert w + q' == w + q + [q'[|q'| - 1]];
    }
  }

  lemma StepTakes(g: Gate, step: Step, c: int, w: seq<ClientMsg>)
    requires Inv(g) && Enabled(g, step) && (c !in g.conns ==> w == [])
    ensures SaysMore(w + Waiting(g, c), w + Taken(g, step, c) + Waiting(Apply(g, step), c),
                     SessionOf(g, c), SessionOf(Apply(g, step), c))
  {
    if c !in g.conns {
      if c in Apply(g, step).conns { NewConnSilent(g, step, c); }
    } else if step.WriteOne? && step.conn == c {
      var q := g.conns[c].sendCh;
      assert w + [q[0]] + q[1..] == w + q;
    } else {
      StepHears(g, step, c);
      AppendSays(w, g.conns[c].sendCh, Apply(g, step).conns[c].sendCh,
                 g.conns[c].sessionID, Apply(g, step).conns[c].sessionID);
      assert w + [] == w;
    }
  }

  lemma StepSays(g: Gate, run: seq<Step>, n: nat, c: int)
    requires Fresh(g) && IsRun(g, run) && n < |run|
    ensures SaysMore(Said(g, run, n, c), Said(g, run, n + 1, c),
                     SessionOf(After(g, run, n), c), SessionOf(After(g, run, n + 1), c))
  {
    Unfold(g, run, n);
    RunInvariant(g, run, n);
    NothingWritten(g, run, n, c);
    StepTakes(After(g, run, n), run[n], c, Written(g, run, n, c));
  }

  lemma OnlyAcceptAdds(g: Gate, step: Step, c: int)
    requires Inv(g) && Enabled(g, step) && !step.Accept?
    ensures c in Apply(g, step).conns <==> c in g.conns
  {
    StepShaped(g, step);
    var mid := Mid(g, step);
    assert SameBinding(Before(g, step), mid, c) && SameBinding(Perform(mid, ActOf(g, step)), Apply(g, step), c);
  }

  lemma NewConnSilent(g: Gate, step: Step, c: int)
    requires Inv(g) && Enabled(g, step) && c !in g.conns && c in Apply(g, step).conns
    ensures Apply(g, step).conns[c].sendCh == [] && Apply(g, step).conns[c].sessionID == 0
  {
    if !step.Accept? { OnlyAcceptAdds(g, step, c); }
  }

  /** A conversation of a connection with session `sid`, 0 for none: refusals, then a greeting by that session, then
      only messages of that session. */
  ghost predicate Talk(said: seq<ClientMsg>, sid: int) {
    && (forall i | 0 <= i < |said| :: Rank(said[i]) == 0 || Subject(said[i]) == sid != 0)
    && (forall i, j | 0 <= i < j < |said| ::
          Rank(said[i]) <= Rank(said[j]) && (Rank(said[i]) == 1 ==> Rank(said[j]) == 2))
  }

  lemma TalkOn(said: seq<ClientMsg>, said': seq<ClientMsg>, sid: int, sid': int)
    requires Talk(said, sid) && SaysMore(said, said', sid, sid')
    ensures Talk(said', sid')
  {}

  /** Connection `c` has heard a conversation with the session it has after `n` steps. */
  ghost predicate TalkAt(g: Gate, run: seq<Step>, n: nat, c: int)
    requires IsRun(g, run) && n <= |run|
  {
    Talk(Said(g, run, n, c), SessionOf(After(g, run, n), c))
  }

  lemma NothingSaidYet(g: Gate, run: seq<Step>, c: int)
    requires Fresh(g) && IsRun(g, run)
    ensures TalkAt(g, run, 0, c)
  {}

  lemma StepTalks(g: Gate, run: seq<Step>, n: nat, c: int)
    requires Fresh(g) && IsRun(g, run) && n < |run| && TalkAt(g, run, n, c)
    ensures TalkAt(g, run, n + 1, c)
  {
    StepSays(g, run, n, c);
    TalkOn(Said(g, run, n, c), Said(g, run, n + 1, c),
           SessionOf(After(g, run, n), c), SessionOf(After(g, run, n + 1), c));
  }

  /** Through any resumes, logins, kicks and answers of the service: a connection only ever hears of its own session,
      first the refusals it got before it had one, then at most one greeting, then what was passed on to it. */
  lemma {:induction false} OwnConversation(g: Gate, run: seq<Step>, n: nat, c: int)
    requires Fresh(g) && IsRun(g, run) && n <= |run|
    ensures TalkAt(g, run, n, c)
  {
    if n == 0 {
      NothingSaidYet(g, run, c);
    } else {
      OwnConversation(g, run, n - 1, c);
      StepTalks(g, run, n - 1, c);
    }
  }

  // ---------- connections without their session ----------

  /** A connection whose client can still write has a session, and the session does not hold it. */
  ghost predicate Stranded(g: Gate, c: int) {
    && c in g.conns && g.conns[c].reading && !g.conns[c].closed
    && g.conns[c].sessionID != 0 && !Attached(g, g.conns[c].sessionID, c)
  }

  ghost predicate NoneStranded(g: Gate) {
    forall c :: !Stranded(g, c)
  }

  /** The read loop of a connection ends while another one, open and read, has its session. */
  predicate LateEnd(g: Gate, step: Step) {
    && step.ReadFailed? && step.conn in g.conns
    && var id := g.conns[step.conn].sessionID;
       && Registered(g, id) && g.sessions[id].conn.Some?
       && var c := g.sessions[id].conn.value;
          c != step.conn && c in g.conns && g.conns[c].reading && !g.conns[c].closed
  }

  lemma OtherStepStrandsNone(g: Gate, step: Step, c: int)
    requires Inv(g) && Enabled(g, step) && !step.ReadFailed? && !Stranded(g, c)
    ensures !Stranded(Apply(g, step), c)
  {
    if c in g.conns {
      StepHolds(g, step);
      assert GoesOn(g, Apply(g, step), c) && HeldOrClosed(g, Apply(g, step), g.conns[c].sessionID);
    } else if c in Apply(g, step).conns {
      NewConnSilent(g, step, c);
    }
  }

  lemma EndStrandsExactly(g: Gate, step: Step)
    requires Inv(g) && Enabled(g, step) && step.ReadFailed? && NoneStranded(g)
    ensures NoneStranded(Apply(g, step)) <==> !LateEnd(g, step)
  {
    StepExactly(g, step);
    var id, g' := g.conns[step.conn].sessionID, Apply(g, step);
    if LateEnd(g, step) {
      assert SessionOk(g, id);
      assert Stranded(g', g.sessions[id].conn.value);
    } else {
      forall c ensures !Stranded(g', c) {
        assert !Stranded(g, c);
        if c in g.conns && g.conns[c].sessionID in g.sessions { assert SessionOk(g, g.conns[c].sessionID); }
      }
    }
  }

  lemma StepStrandsExactly(g: Gate, step: Step)
    requires Inv(g) && Enabled(g, step) && NoneStranded(g)
    ensures NoneStranded(Apply(g, step)) <==> !LateEnd(g, step)
  {
    if step.ReadFailed? {
      EndStrandsExactly(g, step);
    } else {
      forall c ensures !Stranded(Apply(g, step), c) { OtherStepStrandsNone(g, step, c); }
    }
  }

  ghost predicate NoneStrandedAt(g: Gate, run: seq<Step>, m: nat)
    requires IsRun(g, run) && m <= |run|
  {
    NoneStranded(After(g, run, m))
  }

  ghost predicate LateEndAt(g: Gate, run: seq<Step>, m: nat)
    requires IsRun(g, run) && m < |run|
  {
    LateEnd(After(g, run, m), run[m])
  }

  lemma StepStrandsAt(g: Gate, run: seq<Step>, n: nat)
    requires Fresh(g) && IsRun(g, run) && n < |run|
    ensures NoneStrandedAt(g, run, n) ==> (NoneStrandedAt(g, run, n + 1) <==> !LateEndAt(g, run, n))
  {
    RunInvariant(g, run, n);
    Unfold(g, run, n);
    if NoneStrandedAt(g, run, n) { StepStrandsExactly(After(g, run, n), run[n]); }
  }

  lemma {:induction false} StrandedForward(g: Gate, run: seq<Step>, n: nat)
    requires Fresh(g) && IsRun(g, run) && n <= |run| && forall m | 0 <= m < n :: !LateEndAt(g, run, m)
    ensures NoneStrandedAt(g, run, n)
  {
    if n == 0 {
      assert After(g, run, 0) == g;
    } else {
      StrandedForward(g, run, n - 1);
      assert !LateEndAt(g, run, n - 1);
      StepStrandsAt(g, run, n - 1);
    }
  }

  lemma StrandedBackward(g: Gate, run: seq<Step>, n: nat, m: nat)
    requires Fresh(g) && IsRun(g, run) && m < n <= |run| && forall k | 0 <= k <= n :: NoneStrandedAt(g, run, k)
    ensures !LateEndAt(g, run, m)
  {
    StepStrandsAt(g, run, m);
  }

  /** At every moment of a run every open connection that is still read and has a session is the one the session holds,
      if and only if no read loop ended while another open connection had its session. */
  lemma StrandedExactly(g: Gate, run: seq<Step>, n: nat)
    requires Fresh(g) && IsRun(g, run) && n <= |run|
    ensures (forall m | 0 <= m <= n :: NoneStrandedAt(g, run, m)) <==> (forall m | 0 <= m < n :: !LateEndAt(g, run, m))
  {
    if forall m | 0 <= m < n :: !LateEndAt(g, run, m) {
      forall m | 0 <= m <= n ensures NoneStrandedAt(g, run, m) { StrandedForward(g, run, m); }
    }
    if forall m | 0 <= m <= n :: NoneStrandedAt(g, run, m) {
      forall m | 0 <= m < n ensures !LateEndAt(g, run, m) { StrandedBackward(g, run, n, m); }
    }
  }

  /** Whenever a resume takes a session from a connection that is still read, the end of that one's read loop, which
      the resume itself brings about by closing it, takes the session offline again and strands the new connection. */
  lemma ResumeUndone(g: Gate, step: Step, id: int, c: int, d: int, now: int)
    requires Inv(g) && Enabled(g, step) && ActOf(g, step) == Reconnects(id, c) && Attached(g, id, d)
    requires g.conns[d].reading && now >= step.now
    requires !g.conns[c].closed && |g.conns[c].sendCh| < 8 * 1024
    ensures var g1, end := Apply(g, step), ReadFailed(d, now);
            && g1.conns[d].closed && Attached(g1, id, c) && !Stranded(g1, c) && Enabled(g1, end)
            && var g2 := Apply(g1, end);
               id in g2.sessions && g2.sessions[id].state == Offline && g2.sessions[id].conn == None && Stranded(g2, c)
  {
    assert SessionOk(g, id);
    ReceiveExactly(g, step);
    var t := Before(g, step);
    assert DeedOf(t, c, step.env, step.req, step.now) == Resumed(id);
    StepShaped(g, step);
    BackMoves(t, c, id, d, step.now);
    HangUpStrands(Apply(g, step), d, id, c, now);
  }

  lemma BackMoves(g: Gate, c: int, id: int, d: int, now: int)
    requires Inv(g) && c in g.conns && g.conns[c].sessionID == 0 && id in g.bySession && Attached(g, id, d)
    requires g.conns[d].reading && g.conns[c].reading && !g.conns[c].closed && |g.conns[c].sendCh| < 8 * 1024
    ensures var h := Back(g, c, id, now);
            && id in h.bySession && Attached(h, id, c) && d != c && d in h.conns && c in h.conns
            && h.conns[d].closed && h.conns[d].reading && h.conns[d].sessionID == id
            && h.conns[c].reading && !h.conns[c].closed && h.conns[c].sessionID == id
  {
    assert SessionOk(g, id);
  }

  lemma HangUpStrands(g: Gate, d: int, id: int, c: int, now: int)
    requires Inv(g) && id in g.bySession && Attached(g, id, c) && d != c && d in g.conns && now >= g.clock
    requires g.conns[d].reading && g.conns[d].sessionID == id
    requires c in g.conns && g.conns[c].reading && !g.conns[c].closed
    ensures Enabled(g, ReadFailed(d, now))
    ensures var g2 := Apply(g, ReadFailed(d, now));
            id in g2.sessions && g2.sessions[id].state == Offline && g2.sessions[id].conn == None && Stranded(g2, c)
  {
    assert SessionOk(g, id);
    StepExactly(g, ReadFailed(d, now));
  }

  // ---------- a reachable stranding ----------

  /** Session 1 is online on connection 1, and connection 2 has just been accepted. */
  ghost predicate Reconnecting(g: Gate, h: Gate) {
    && 1 in h.bySession && Attached(h, 1, 1) && h.sessions[1].state == Online && h.mac == g.mac
    && h.sessions[1].token == Token.Mint(g.mac, 1, Some([]))
    && 1 in h.conns && h.conns[1].reading && 2 in h.conns && h.conns[2].sessionID == 0
    && h.conns[2].reading && !h.conns[2].closed && h.conns[2].sendCh == []
  }

  lemma AskAndReconnect(g: Gate) returns (run: seq<Step>, h: Gate)
    requires Fresh(g)
    ensures C.Leads(g, run, true, h) && Reconnecting(g, h)
  {
    RunInvariant(g, [], 0);
    var r0, h0 := C.ArriveStep(g, [], true, g, 1, g.clock);
    C.AskEffect(h0, 1, g.clock);
    StepHolds(h0, C.AskLogin(1, g.clock));
    var r1, h1 := C.Grow(g, r0, true, h0, C.AskLogin(1, g.clock));
    assert GoesOn(h0, h1, 1);
    run, h := C.Grow(g, r1, true, h1, C.Arrive(2, h1.clock));
  }

  lemma ReconnectStrands(g: Gate, h: Gate)
    requires Inv(h) && Reconnecting(g, h)
    ensures Enabled(h, C.Resume(h, 2, 1, h.clock))
    ensures var h1 := Apply(h, C.Resume(h, 2, 1, h.clock));
            Enabled(h1, ReadFailed(1, h.clock)) && Stranded(Apply(h1, ReadFailed(1, h.clock)), 2)
  {
    Token.MintedTokenAccepted(h.mac, 1, [], h.sessions[1].token);
    var step := C.Resume(h, 2, 1, h.clock);
    assert ActOf(h, step) == Reconnects(1, 2);
    ResumeUndone(h, step, 1, 2, 1, h.clock);
  }

  /** A reachable run in which a client reconnects before the gate has noticed the end of its old connection, and is
      left with a connection on which nothing is answered. */
  lemma ResumeStrands(g: Gate)
    requires Fresh(g)
    ensures exists run: seq<Step> :: IsRun(g, run) && !NoneStranded(C.End(g, run))
  {
    var r1, h1 := AskAndReconnect(g);
    ReconnectStrands(g, h1);
    var r2, h2 := C.Grow(g, r1, true, h1, C.Resume(h1, 2, 1, h1.clock));
    var run, h := C.Grow(g, r2, true, h2, ReadFailed(1, h1.clock));
    assert h == C.End(g, run) && Stranded(h, 2);
  }
}
