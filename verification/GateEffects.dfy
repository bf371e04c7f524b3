/** What single steps of the gate do to the world outside: connections closed, clients told, envelopes offered. */
module GateEffects {
  import opened Prelude
  import opened Protocol
  import opened GateModel
  import opened GateInvariant
  import opened GateSteps
  import opened GateTable
  import S = GateSweeps
  import Token

  ghost predicate Attached(g: Gate, id: int, c: int) {
    id in g.sessions && g.sessions[id].conn == Some(c)
  }

  // ---------- connections let go ----------

  /** The connection a session holds is closed if it holds it no more. */
  ghost predicate HeldOrClosed(g: Gate, g': Gate, id: int) {
    id in g.sessions && g.sessions[id].conn.Some? ==>
      var c := g.sessions[id].conn.value;
      c in g'.conns && (Attached(g', id, c) || g'.conns[c].closed)
  }

  /** Connection `c` is still there and still read, closed if it was, and its session is the one it had or one that is
      attached to it now. */
  ghost predicate GoesOn(g: Gate, g': Gate, c: int) {
    c in g.conns ==>
      && c in g'.conns && (g.conns[c].closed ==> g'.conns[c].closed) && g'.conns[c].reading == g.conns[c].reading
      && (|| g'.conns[c].sessionID == g.conns[c].sessionID
          || (g.conns[c].sessionID == 0 && Attached(g', g'.conns[c].sessionID, c)))
  }

  ghost predicate Holds(g: Gate, g': Gate) {
    && (forall id :: HeldOrClosed(g, g', id))
    && (forall c :: GoesOn(g, g', c))
  }

  /** Two states that differ in session `id` and in connection `c` alone. */
  lemma LocalHolds(g: Gate, g': Gate, id: int, c: int)
    requires Inv(g) && id in g'.sessions && c in g.conns && c in g'.conns
    requires g'.sessions == g.sessions[id := g'.sessions[id]] && g'.conns == g.conns[c := g'.conns[c]]
    requires HeldOrClosed(g, g', id) && GoesOn(g, g', c)
    ensures Holds(g, g')
  {
    forall i ensures HeldOrClosed(g, g', i) {
      if i in g.sessions { assert SessionOk(g, i); }
    }
    forall x ensures GoesOn(g, g', x) {}
  }

  lemma NewcomerHolds(g: Gate, c: int, env: Envelope, nonce: Option<seq<byte>>, now: int)
    requires Inv(g) && c in g.conns && g.conns[c].sessionID == 0
    ensures Holds(g, Newcomer(g, c, env, nonce, now))
  {
    forall i | i in g.sessions ensures i <= g.nextID { assert SessionOk(g, i); }
    LocalHolds(g, Newcomer(g, c, env, nonce, now), g.nextID + 1, c);
  }

  lemma BackHolds(g: Gate, c: int, id: int, now: int)
    requires Inv(g) && c in g.conns && g.conns[c].sessionID == 0 && id in g.sessions
    ensures Holds(g, Back(g, c, id, now))
  {
    var g' := Back(g, c, id, now);
    assert SessionOk(g, id);
    forall i ensures HeldOrClosed(g, g', i) {
      if i in g.sessions { assert SessionOk(g, i); }
    }
    forall x ensures GoesOn(g, g', x) {}
  }

  lemma TouchHolds(g: Gate, g': Gate, id: int)
    requires Inv(g) && id in g.sessions && g'.conns == g.conns
    requires id in g'.sessions && g'.sessions == g.sessions[id := g'.sessions[id]]
    requires g'.sessions[id].conn == g.sessions[id].conn
    ensures Holds(g, g')
  {
    forall i ensures HeldOrClosed(g, g', i) {
      if i in g.sessions { assert SessionOk(g, i); }
    }
    forall x ensures GoesOn(g, g', x) {}
  }

  lemma BeatHolds(g: Gate, id: int, now: int)
    requires Inv(g) && id in g.sessions
    ensures Holds(g, Beat(g, id, now))
  {
    var s := g.sessions[id];
    assert SessionOk(g, id);
    var g1 := g.(sessions := g.sessions[id := s.(lastSeen := now)]);
    TouchHolds(g, g1, id);
    if s.conn.Some? {
      var g2 := g1.(conns := g.conns[s.conn.value := g.conns[s.conn.value].(lastSeen := now)]);
      LocalHolds(g, g2, id, s.conn.value);
      AnsweredHolds(g, g2, id, MSG_HEARTBEAT_RSP, []);
    } else {
      AnsweredHolds(g, g1, id, MSG_HEARTBEAT_RSP, []);
    }
  }

  lemma DoneHolds(g: Gate, c: int, env: Envelope, nonce: Option<seq<byte>>, now: int, deed: Deed)
    requires Inv(g) && c in g.conns && Known(g, deed)
    requires deed.Resumed? || deed.Welcomed? ==> g.conns[c].sessionID == 0
    ensures Holds(g, Done(g, c, env, nonce, now, deed))
  {
    var g' := Done(g, c, env, nonce, now, deed);
    match deed
    case Ignored => SameHolds(g);
    case TurnedAway(_) => WrittenHolds(g, c, g'.conns[c]);
    case Welcomed => NewcomerHolds(g, c, env, nonce, now);
    case Resumed(id) => BackHolds(g, c, id, now);
    case Tried(id) => TouchHolds(g, g', id);
    case Asked(id) => TouchHolds(g, g', id);
    case Superseded(id) =>
      var s := CountLogin(g.sessions[id], g.cfg, now);
      GoneHolds(g, s, now);
      if s.conn == None { TouchHolds(g, g', id); }
    case Beaten(id) => BeatHolds(g, id, now);
    case Unrouted(id) =>
      var s := g.sessions[id].(unknownMsgCount := g.sessions[id].unknownMsgCount + 1);
      GoneHolds(g, s, now);
      if !(0 < g.cfg.unknownMsgKickCount <= s.unknownMsgCount) { TouchHolds(g, g', id); }
    case Passed(id) => TouchHolds(g, g', id);
  }

  lemma GoneHolds(g: Gate, s: Session, now: int)
    requires Inv(g) && s.id in g.sessions && g.sessions[s.id].conn == s.conn
    ensures Holds(g, Gone(g, s, now))
  {
    var g' := Gone(g, s, now);
    forall id ensures HeldOrClosed(g, g', id) {
      if id in g.sessions { assert SessionOk(g, id); }
    }
    forall x ensures GoesOn(g, g', x) {}
  }

  lemma LoggedInHolds(g: Gate, id: int, playerID: int, now: int)
    requires Inv(g) && id in g.sessions
    ensures Holds(g, LoggedInAs(g, id, playerID, now))
  {
    var g' := LoggedInAs(g, id, playerID, now);
    if Displaces(g, id, playerID) {
      var prev := g.sessions[g.byPlayer[playerID]];
      assert SessionOk(g, g.byPlayer[playerID]);
      GoneHolds(g, prev, now);
      forall i ensures HeldOrClosed(g, g', i) { assert HeldOrClosed(g, Gone(g, prev, now), i); }
      forall x ensures GoesOn(g, g', x) { assert GoesOn(g, Gone(g, prev, now), x); }
    } else {
      forall i ensures HeldOrClosed(g, g', i) {
        if i in g.sessions { assert SessionOk(g, i); }
      }
      forall x ensures GoesOn(g, g', x) {}
    }
  }

  /** An answer lets nothing go. */
  lemma AnsweredHolds(g: Gate, h: Gate, id: int, msgId: int, payload: seq<byte>)
    requires Holds(g, h)
    ensures Holds(g, Answered(h, id, msgId, payload))
  {
    var g' := Answered(h, id, msgId, payload);
    forall i ensures HeldOrClosed(g, g', i) { assert HeldOrClosed(g, h, i); }
    forall x ensures GoesOn(g, g', x) { assert GoesOn(g, h, x); }
  }

  lemma SameHolds(g: Gate)
    requires Inv(g)
    ensures Holds(g, g)
  {
    forall id ensures HeldOrClosed(g, g, id) {
      if id in g.sessions { assert SessionOk(g, id); }
    }
    forall c ensures GoesOn(g, g, c) {}
  }

  lemma SweptHolds(g: Gate, ids: set<int>, now: int)
    requires Inv(g)
    ensures Holds(g, S.TakenOffline(g, ids, now))
  {
    var g' := S.TakenOffline(g, ids, now);
    forall id ensures HeldOrClosed(g, g', id) {
      if id in g.sessions { assert SessionOk(g, id); }
    }
    forall c ensures GoesOn(g, g', c) {}
  }

  lemma CollectedHolds(g: Gate, ids: set<int>)
    requires Inv(g) && ids <= g.sessions.Keys
    ensures Holds(g, Collected(g, ids))
  {
    var g' := Collected(g, ids);
    forall id ensures HeldOrClosed(g, g', id) {
      if id in g.sessions { assert SessionOk(g, id); }
    }
    forall c ensures GoesOn(g, g', c) {}
  }

  lemma WrittenHolds(g: Gate, c: int, conn: Conn)
    requires Inv(g) && c in g.conns && conn.sessionID == g.conns[c].sessionID && conn.reading == g.conns[c].reading
    requires g.conns[c].closed ==> conn.closed
    ensures Holds(g, g.(conns := g.conns[c := conn]))
  {
    var g' := g.(conns := g.conns[c := conn]);
    forall id ensures HeldOrClosed(g, g', id) {
      if id in g.sessions { assert SessionOk(g, id); }
    }
    forall x ensures GoesOn(g, g', x) {}
  }

  /** Between the steps' first moment and their end. */
  lemma TableHolds(g: Gate, step: Step)
    requires Inv(g) && Enabled(g, step) && !step.ReadFailed?
    ensures Inv(Before(g, step)) && Holds(Before(g, step), Table(g, step))
  {
    BeforeOk(g, step);
    var t := Before(g, step);
    SameHolds(t);
    match step {
      case Receive(c, env, req, nonce, now) =>
        DeedKnown(t, c, env, req, now);
        DoneHolds(t, c, env, nonce, now, DeedOf(t, c, env, req, now));
      case WriteOne(c, ok, _) =>
        WrittenHolds(t, c, t.conns[c].(sendCh := t.conns[c].sendCh[1..], closed := t.conns[c].closed || !ok));
      case FromService(env, rsp, now) => ServedHolds(t, env, rsp, now);
      case KickSession(id, now) =>
        if Kickable(t, id) {
          assert SessionOk(t, id);
          GoneHolds(t, t.sessions[id], now);
        }
      case HeartbeatTick(_, now) => SweptHolds(t, S.Idle(t, now), now);
      case AuthingTick(_, now) => SweptHolds(t, S.Overdue(t, now), now);
      case GCTick(_, now) => CollectedHolds(t, CollectableIn(t, t.bySession, now));
      case Accept(_, _, _) =>
      case Configure(_, _) =>
    }
  }

  lemma ServedHolds(g: Gate, env: Envelope, rsp: Option<int>, now: int)
    requires Inv(g)
    ensures Holds(g, Served(g, env, rsp, now))
  {
    SameHolds(g);
    if env.msgId == MSG_LOGIN_RSP && Registered(g, env.sessionId) && rsp.Some? {
      LoggedInHolds(g, env.sessionId, rsp.value, now);
      AnsweredHolds(g, LoggedInAs(g, env.sessionId, rsp.value, now), env.sessionId, env.msgId, env.payload);
    } else {
      AnsweredHolds(g, g, env.sessionId, env.msgId, env.payload);
    }
  }

  lemma StepHolds(g: Gate, step: Step)
    requires Inv(g) && Enabled(g, step) && !step.ReadFailed?
    ensures Holds(g, Apply(g, step))
  {
    StepExactly(g, step);
    TableHolds(g, step);
    var t, g' := Before(g, step), Apply(g, step);
    forall id ensures HeldOrClosed(g, g', id) { assert HeldOrClosed(t, g', id); }
    forall c ensures GoesOn(g, g', c) { assert GoesOn(t, g', c); }
  }

  /** A connection that its session lets go of in a step is closed by then, whether by a kick, a login or a resume
      elsewhere, a sweep or the unknown-message limit; only the end of a read loop leaves it as it was. */
  lemma LetGoClosedExactly(g: Gate, step: Step, id: int, c: int)
    requires Inv(g) && Enabled(g, step) && Attached(g, id, c) && !Attached(Apply(g, step), id, c)
    ensures c in g.conns && c in Apply(g, step).conns
    ensures Apply(g, step).conns[c].closed <==> !step.ReadFailed? || g.conns[c].closed
  {
    assert SessionOk(g, id);
    if step.ReadFailed? {
      StepExactly(g, step);
    } else {
      StepHolds(g, step);
      assert HeldOrClosed(g, Apply(g, step), id);
    }
  }

  /** Kicking a session closes its connection. */
  lemma KickCloses(g: Gate, id: int, now: int, c: int)
    requires Inv(g) && id in g.bySession && g.sessions[id].conn == Some(c)
    ensures var g' := Kick(g, id, now);
            && c in g'.conns && g'.conns[c].closed
            && id in g'.sessions && g'.sessions[id].conn == None && g'.sessions[id].state == Offline
  {
    KickIsGone(g, id, now);
    assert SessionOk(g, id);
  }

  // ---------- what clients are told ----------

  /** The queue of connection `c` with room has got exactly this message. */
  ghost predicate GotExactly(g: Gate, g': Gate, c: int, msg: ClientMsg) {
    && c in g.conns && c in g'.conns
    && (|g.conns[c].sendCh| < 8 * 1024 ==>
          g'.conns[c].sendCh == g.conns[c].sendCh + [msg] && g'.conns[c].busyCount == g.conns[c].busyCount)
    && (|g.conns[c].sendCh| >= 8 * 1024 ==>
          && g'.conns[c].sendCh == g.conns[c].sendCh
          && g'.conns[c].busyCount == (g.conns[c].busyCount + 1) % 0x1_0000_0000
          && (g'.conns[c].busyCount >= 5 ==> g'.conns[c].closed))
  }

  /** No queue but that of `c` differs. */
  ghost predicate OthersHear(g: Gate, g': Gate, c: int) {
    forall d | d != c && d in g.conns :: d in g'.conns && g'.conns[d].sendCh == g.conns[d].sendCh
  }

  /** What was said since the step began was said since the state before it. */
  lemma SinceTick(g: Gate, step: Step, g': Gate, c: int, msg: ClientMsg)
    requires Enabled(g, step) && !step.Accept?
    ensures GotExactly(Before(g, step), g', c, msg) ==> GotExactly(g, g', c, msg)
    ensures OthersHear(Before(g, step), g', c) ==> OthersHear(g, g', c)
  {}

  lemma BackEffect(g: Gate, c: int, id: int, now: int)
    requires Inv(g) && c in g.conns && g.conns[c].sessionID == 0 && Registered(g, id)
    ensures var g', p := Back(g, c, id, now), g.sessions[id].playerID;
            && GotExactly(g, g', c, ResumeRsp(id, true, "")) && OthersHear(g, g', c) && Attached(g', id, c)
            && g'.offered
               == g.offered + if p != 0 && g.poolReady then [Envelope(MSG_PLAYER_RESUME_REQ, id, p, [])] else []
  {
    assert SessionOk(g, id);
  }

  /** A resume tells the client, and the game server exactly if the session has a player and there is a pool. */
  lemma ResumeAnswered(g: Gate, step: Step, id: int, c: int)
    requires Inv(g) && Enabled(g, step) && ActOf(g, step) == Reconnects(id, c)
    ensures var g', p := Apply(g, step), g.sessions[id].playerID;
            && GotExactly(g, g', c, ResumeRsp(id, true, "")) && OthersHear(g, g', c) && Attached(g', id, c)
            && g'.offered
               == g.offered + if p != 0 && g.poolReady then [Envelope(MSG_PLAYER_RESUME_REQ, id, p, [])] else []
  {
    ReceiveExactly(g, step);
    var t := Before(g, step);
    assert DeedOf(t, c, step.env, step.req, step.now) == Resumed(id);
    BackEffect(t, c, id, step.now);
    SinceTick(g, step, Apply(g, step), c, ResumeRsp(id, true, ""));
  }

  /** The request has the token of a registered session. */
  predicate SecretOf(g: Gate, req: ResumeReq) {
    Registered(g, req.sessionID) && Token.Verify(g.mac, req.sessionID, g.sessions[req.sessionID].token, req.token)
  }

  lemma RefusalEffect(g: Gate, c: int, env: Envelope, req: Option<ResumeReq>, now: int)
    requires Inv(g) && c in g.conns && Resumes(g, c, req) == None
    ensures ResumeDeed(g, c, req).TurnedAway?
    ensures var g' := Done(g, c, env, None, now, ResumeDeed(g, c, req));
            && c in g'.conns && g'.conns[c].closed && OthersHear(g, g', c) && g'.offered == g.offered
            && g'.sessions == g.sessions && g'.conns[c].sessionID == g.conns[c].sessionID
            && if g.conns[c].sessionID == 0 && req.Some?
               then GotExactly(g, g', c, ResumeRsp(0, false, if SecretOf(g, req.value) then "session authing"
                                                             else "invalid session"))
               else g'.conns[c].sendCh == g.conns[c].sendCh
  {
    if req.Some? && Registered(g, req.value.sessionID) { assert SessionOk(g, req.value.sessionID); }
  }

  /** A resume request that is refused closes the connection and changes no session; the client is told why exactly if
      its connection has no session and the request decodes. */
  lemma ResumeRefused(g: Gate, step: Step)
    requires Inv(g) && Enabled(g, step) && step.Receive? && step.env.msgId == MSG_RESUME_REQ
    requires Resumes(g, step.conn, step.req) == None
    ensures var g', c := Apply(g, step), step.conn;
            && c in g'.conns && g'.conns[c].closed && OthersHear(g, g', c) && g'.offered == g.offered
            && g'.sessions == g.sessions && g'.conns[c].sessionID == g.conns[c].sessionID
            && if g.conns[c].sessionID == 0 && step.req.Some?
               then GotExactly(g, g', c, ResumeRsp(0, false, if SecretOf(g, step.req.value) then "session authing"
                                                             else "invalid session"))
               else g'.conns[c].sendCh == g.conns[c].sendCh
  {
    ReceiveExactly(g, step);
    var t, c := Before(g, step), step.conn;
    assert Resumes(t, c, step.req) == None;
    RefusalEffect(t, c, step.env, step.req, step.now);
    if g.conns[c].sessionID == 0 && step.req.Some? {
      SinceTick(g, step, Apply(g, step), c, ResumeRsp(0, false, if SecretOf(g, step.req.value) then "session authing"
                                                                else "invalid session"));
    } else {
      SinceTick(g, step, Apply(g, step), c, ResumeRsp(0, false, ""));
    }
  }

  lemma NewcomerEffect(g: Gate, c: int, env: Envelope, nonce: Option<seq<byte>>, now: int)
    requires Inv(g) && c in g.conns && g.conns[c].sessionID == 0
    ensures var g', id := Newcomer(g, c, env, nonce, now), g.nextID + 1;
            && id !in g.sessions && Attached(g', id, c) && g'.sessions[id].state == Online && id in g'.bySession
            && GotExactly(g, g', c, SessionInit(id, g'.sessions[id].token)) && OthersHear(g, g', c)
            && g'.sessions[id].token == Token.Mint(g.mac, id, nonce)
            && g'.offered == g.offered + if g.poolReady then [Envelope(env.msgId, id, 0, env.payload)] else []
  {
    forall i | i in g.sessions ensures i <= g.nextID { assert SessionOk(g, i); }
  }

  /** The first login on a connection is never refused by the limiter: it reaches the service in the new session's
      name, and the client is told the session's ID and token. */
  lemma FirstLoginOffered(g: Gate, step: Step)
    requires Inv(g) && Enabled(g, step) && ActOf(g, step).Creates?
    ensures var g', id, c := Apply(g, step), g.nextID + 1, step.conn;
            && id !in g.sessions && Attached(g', id, c) && g'.sessions[id].state == Online && id in g'.bySession
            && GotExactly(g, g', c, SessionInit(id, g'.sessions[id].token)) && OthersHear(g, g', c)
            && g'.sessions[id].token == Token.Mint(g.mac, id, step.nonce)
            && g'.offered
               == g.offered + if g.poolReady then [Envelope(MSG_LOGIN_REQ, id, 0, step.env.payload)] else []
  {
    ReceiveExactly(g, step);
    var t, c := Before(g, step), step.conn;
    assert DeedOf(t, c, step.env, step.req, step.now) == Welcomed;
    NewcomerEffect(t, c, step.env, step.nonce, step.now);
    SinceTick(g, step, Apply(g, step), c, SessionInit(g.nextID + 1, Token.Mint(g.mac, g.nextID + 1, step.nonce)));
  }

  /** What the service sends reaches the client of the session it names, stamped with the player the session has after
      the step, and nobody else; a pong reaches nobody. */
  lemma ServiceAnswered(g: Gate, step: Step, id: int, c: int)
    requires Inv(g) && Enabled(g, step) && step.FromService? && step.env.msgId != MSG_SERVICE_PONG
    requires step.env.sessionId == id && id in g.bySession && Attached(g, id, c)
    ensures var g' := Apply(g, step);
            && Attached(g', id, c) && OthersHear(g, g', c)
            && GotExactly(g, g', c, Forward(Envelope(step.env.msgId, id, g'.sessions[id].playerID, step.env.payload)))
            && g'.sessions[id].playerID
               == if Binds(g, step.env, step.rsp).Some? then step.rsp.value else g.sessions[id].playerID
  {
    ServiceExactly(g, step);
    var t, env, g' := Before(g, step), step.env, Apply(g, step);
    assert SessionOk(t, id);
    if Binds(t, env, step.rsp).Some? {
      var h := LoggedInAs(t, id, step.rsp.value, step.now);
      LoggedInSpares(t, id, step.rsp.value, step.now);
      AnswerEffect(h, id, c, env.msgId, env.payload);
      HeardSince(t, h, g', c, Forward(Envelope(env.msgId, id, step.rsp.value, env.payload)));
    } else {
      AnswerEffect(t, id, c, env.msgId, env.payload);
    }
    SinceTick(g, step, g', c, Forward(Envelope(env.msgId, id, g'.sessions[id].playerID, env.payload)));
  }

  lemma AnswerEffect(g: Gate, id: int, c: int, msgId: int, payload: seq<byte>)
    requires id in g.bySession && Attached(g, id, c) && c in g.conns
    ensures var g' := Answered(g, id, msgId, payload);
            && GotExactly(g, g', c, Forward(Envelope(msgId, id, g.sessions[id].playerID, payload)))
            && OthersHear(g, g', c) && g' == g.(conns := g'.conns)
  {}

  /** The same queues as in `g`, and no fewer of them. */
  ghost predicate SameQueues(g: Gate, h: Gate) {
    forall d | d in g.conns ::
      d in h.conns && h.conns[d].sendCh == g.conns[d].sendCh && h.conns[d].busyCount == g.conns[d].busyCount
  }

  lemma HeardSince(g: Gate, h: Gate, g': Gate, c: int, msg: ClientMsg)
    requires SameQueues(g, h) && c in g.conns && GotExactly(h, g', c, msg) && OthersHear(h, g', c)
    ensures GotExactly(g, g', c, msg) && OthersHear(g, g', c)
  {}

  lemma LoggedInSpares(g: Gate, id: int, playerID: int, now: int)
    requires Inv(g) && Registered(g, id)
    ensures var h := LoggedInAs(g, id, playerID, now);
            && id in h.sessions && h.sessions[id].conn == g.sessions[id].conn && h.sessions[id].playerID == playerID
            && h.bySession == g.bySession && SameQueues(g, h)
  {
    if Displaces(g, id, playerID) { assert SessionOk(g, g.byPlayer[playerID]); }
  }

  /** A pong, and what is for a session without connection, reaches no client. */
  lemma UnansweredReachesNobody(g: Gate, step: Step)
    requires Inv(g) && Enabled(g, step) && step.FromService?
    requires var id := step.env.sessionId;
             step.env.msgId == MSG_SERVICE_PONG || !Registered(g, id) || g.sessions[id].conn == None
    ensures SameQueues(g, Apply(g, step))
  {
    ServiceExactly(g, step);
    var t := Before(g, step);
    if Binds(t, step.env, step.rsp).Some? { LoggedInSpares(t, step.env.sessionId, step.rsp.value, step.now); }
  }

  lemma BeatEffect(g: Gate, id: int, now: int)
    requires Inv(g) && Registered(g, id)
    ensures var g', s := Beat(g, id, now), g.sessions[id];
            && g'.sessions == g.sessions[id := s.(lastSeen := now)] && g'.offered == g.offered
            && match s.conn
               case Some(c) =>
                 && c in g.conns && OthersHear(g, g', c)
                 && GotExactly(g, g', c, Forward(Envelope(MSG_HEARTBEAT_RSP, id, s.playerID, [])))
                 && g'.conns[c].lastSeen == now
               case None => SameQueues(g, g')
  {
    assert SessionOk(g, id);
  }

  /** A heartbeat of a session past its login request is answered on the connection the session holds, which may not be
      the one it came on, and refreshes the session. */
  lemma HeartbeatAnswered(g: Gate, step: Step, id: int)
    requires Inv(g) && Enabled(g, step) && step.Receive? && step.env.msgId == MSG_HEARTBEAT_REQ
    requires g.conns[step.conn].sessionID == id && PastLogin(g, id)
    ensures var g', s := Apply(g, step), g.sessions[id];
            && g'.sessions == g.sessions[id := s.(lastSeen := step.now)] && g'.offered == g.offered
            && match s.conn
               case Some(c) =>
                 && OthersHear(g, g', c)
                 && GotExactly(g, g', c, Forward(Envelope(MSG_HEARTBEAT_RSP, id, s.playerID, [])))
                 && g'.conns[c].lastSeen == step.now
               case None => SameQueues(g, g')
  {
    ReceiveExactly(g, step);
    var t := Before(g, step);
    assert SessionOk(g, id);
    assert DeedOf(t, step.conn, step.env, step.req, step.now) == Beaten(id);
    BeatEffect(t, id, step.now);
    if g.sessions[id].conn.Some? {
      SinceTick(g, step, Apply(g, step), g.sessions[id].conn.value,
                Forward(Envelope(MSG_HEARTBEAT_RSP, id, g.sessions[id].playerID, [])));
    }
  }

  // ---------- what the service is told ----------

  /** The session has sent its login request, and is not offline. */
  predicate PastLogin(g: Gate, id: int) {
    Registered(g, id) && (g.sessions[id].state == Authing || g.sessions[id].state == Authenticated)
  }

  /** The session is past its login request, and the message has a route. */
  predicate Routes(g: Gate, step: Step, id: int) {
    && step.Receive? && step.conn in g.conns && g.conns[step.conn].sessionID == id && PastLogin(g, id)
    && GetRoute(step.env.msgId).Some? && step.env.msgId != MSG_LOGIN_REQ
  }

  /** A routed message reaches the service once, with the player of the session it names and otherwise as it came. */
  lemma MessageOffered(g: Gate, step: Step, id: int)
    requires Inv(g) && Enabled(g, step) && Routes(g, step, id)
    ensures var g', e := Apply(g, step), step.env;
            && g'.offered == g.offered + (if !g.poolReady then []
                                          else if Registered(g, e.sessionId)
                                          then [e.(playerId := g.sessions[e.sessionId].playerID)] else [e])
            && g'.sessions == g.sessions[id := g.sessions[id].(lastSeen := step.now)]
            && forall d | d in g.conns :: g'.conns[d].sendCh == g.conns[d].sendCh
  {
    ReceiveExactly(g, step);
    assert SessionOk(g, id);
  }

  /** Before its login request a session gets nothing through but that request. */
  lemma OnlyLoginOffered(g: Gate, step: Step, id: int)
    requires Inv(g) && Enabled(g, step) && step.Receive? && g.conns[step.conn].sessionID == id != 0
    requires !Registered(g, id) || g.sessions[id].state == Online || g.sessions[id].state == Offline
    requires Apply(g, step).offered != g.offered
    ensures Registered(g, id) && g.sessions[id].state == Online && step.env.msgId == MSG_LOGIN_REQ
    ensures Apply(g, step).sessions[id].state == Authing && Apply(g, step).sessions[id].authStart == step.now
  {
    ReceiveExactly(g, step);
    if Registered(g, id) { assert SessionOk(g, id); }
  }

  /** An unknown message is counted, and takes the session offline exactly at a positive limit. */
  lemma UnknownCounted(g: Gate, step: Step, id: int)
    requires Inv(g) && Enabled(g, step) && step.Receive? && g.conns[step.conn].sessionID == id && PastLogin(g, id)
    requires GetRoute(step.env.msgId) == None
    requires step.env.msgId != MSG_HEARTBEAT_REQ && step.env.msgId != MSG_RESUME_REQ
    ensures var g', limit := Apply(g, step), g.cfg.unknownMsgKickCount;
            && id in g'.sessions && g'.sessions[id].unknownMsgCount == g.sessions[id].unknownMsgCount + 1
            && (g'.sessions[id].state == Offline <==> 0 < limit <= g'.sessions[id].unknownMsgCount)
            && (g'.sessions[id].state == Offline || g'.sessions[id].state == g.sessions[id].state)
  {
    ReceiveExactly(g, step);
    assert SessionOk(g, id);
  }

  // ---------- whom the sweeps take offline ----------

  /** How long an Online session may be silent. */
  function Patience(cfg: Config, connType: ConnType): int {
    if connType == ConnWS then cfg.heartbeatTimeout + cfg.heartbeatTimeout / 2 else cfg.heartbeatTimeout
  }

  /** When the connection was last heard of. */
  function HeardAt(conn: Conn): int {
    if conn.lastSeen != 0 then conn.lastSeen else conn.connectedAt
  }

  /** A heartbeat sweep takes an Online session offline exactly if it is on and the session has been silent too long,
      and any other session never. */
  lemma SilentGoesExactly(g: Gate, step: Step, id: int)
    requires Inv(g) && Enabled(g, step) && step.HeartbeatTick? && id in g.sessions
    ensures var g', s := Apply(g, step), g.sessions[id];
            && id in g'.sessions && g'.offered == g.offered
            && if s.state == Online && s.conn.Some? && s.conn.value in g.conns && g.cfg.heartbeatTimeout > 0
                  && step.now - HeardAt(g.conns[s.conn.value])
                     > Patience(g.cfg, g.conns[s.conn.value].connType)
               then g'.sessions[id] == s.(conn := None, lastSeen := step.now, state := Offline)
                    && s.conn.value in g'.conns && g'.conns[s.conn.value].closed
               else g'.sessions[id] == s
  {
    StepExactly(g, step);
    assert SessionOk(g, id);
  }

  /** A login sweep takes exactly the sessions offline that have waited too long for their login. */
  lemma WaitingGoesExactly(g: Gate, step: Step, id: int)
    requires Inv(g) && Enabled(g, step) && step.AuthingTick? && id in g.sessions
    ensures var g', s := Apply(g, step), g.sessions[id];
            && id in g'.sessions && g'.offered == g.offered
            && if s.state == Authing && step.now - s.authStart > g.cfg.loginTimeout
               then && s.conn.Some? && s.conn.value in g'.conns && g'.conns[s.conn.value].closed
                    && g'.sessions[id] == s.(conn := None, lastSeen := step.now, state := Offline)
               else g'.sessions[id] == s
  {
    StepExactly(g, step);
    assert SessionOk(g, id);
  }

  /** Whatever a client sends, even nonsense, keeps its session from the heartbeat sweep for the time it may be
      silent. */
  lemma HeardSurvives(g: Gate, step: Step, tick: Step, id: int)
    requires Inv(g) && Enabled(g, step) && step.Receive? && step.now != 0
    requires Inv(Apply(g, step)) && Attached(Apply(g, step), id, step.conn)
    requires Enabled(Apply(g, step), tick) && tick.HeartbeatTick?
    requires tick.now - step.now <= Apply(g, step).cfg.heartbeatTimeout
    ensures id in Apply(Apply(g, step), tick).sessions
    ensures Apply(Apply(g, step), tick).sessions[id] == Apply(g, step).sessions[id]
  {
    ReceiveExactly(g, step);
    var t := Before(g, step);
    SeenByDeed(t, step.conn, step.env, step.nonce, step.now, DeedOf(t, step.conn, step.env, step.req, step.now));
    SilentGoesExactly(Apply(g, step), tick, id);
  }

  lemma SeenByDeed(g: Gate, c: int, env: Envelope, nonce: Option<seq<byte>>, now: int, deed: Deed)
    requires c in g.conns && Known(g, deed) && g.conns[c].lastSeen == now
    ensures c in Done(g, c, env, nonce, now, deed).conns && Done(g, c, env, nonce, now, deed).conns[c].lastSeen == now
  {}

  // ---------- a client that does not read ----------

  /** The connection after these messages for its client, none of them written. */
  function AllTold(conn: Conn, msgs: seq<ClientMsg>): Conn {
    if msgs == [] then conn else Enqueued(AllTold(conn, msgs[..|msgs| - 1]), msgs[|msgs| - 1])
  }

  /** What a client that does not read is left with: the messages that fit, and the others counted. */
  predicate Kept(conn: Conn, msgs: seq<ClientMsg>, after: Conn)
    requires |conn.sendCh| <= 8 * 1024
  {
    var room := 8 * 1024 - |conn.sendCh|;
    && after.sendCh == conn.sendCh + (if |msgs| <= room then msgs else msgs[..room])
    && after.busyCount == (if |msgs| <= room then 0 else |msgs| - room)
    && (after.closed <==> conn.closed || |msgs| - room >= 5)
  }

  lemma KeptOneMore(conn: Conn, msgs: seq<ClientMsg>, after: Conn, msg: ClientMsg)
    requires |conn.sendCh| <= 8 * 1024 && |msgs| < 0xFFFF_FFFF && Kept(conn, msgs, after)
    ensures Kept(conn, msgs + [msg], Enqueued(after, msg))
  {
    if |msgs| < 8 * 1024 - |conn.sendCh| {
      assert conn.sendCh + msgs + [msg] == conn.sendCh + (msgs + [msg]);
    } else {
      assert (msgs + [msg])[..8 * 1024 - |conn.sendCh|] == msgs[..8 * 1024 - |conn.sendCh|];
    }
  }

  /** A client that does not read keeps what fits, in order, and loses the rest; the fifth lost message closes it. */
  lemma {:induction false} FifthLossCloses(conn: Conn, msgs: seq<ClientMsg>)
    requires |conn.sendCh| <= 8 * 1024 && conn.busyCount == 0 && |msgs| < 0x1_0000_0000
    ensures Kept(conn, msgs, AllTold(conn, msgs))
  {
    if msgs != [] {
      var init, last := msgs[..|msgs| - 1], msgs[|msgs| - 1];
      FifthLossCloses(conn, init);
      assert init + [last] == msgs;
      KeptOneMore(conn, init, AllTold(conn, init), last);
    }
  }
}
