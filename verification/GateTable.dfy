/** What each step of the gate comes to, as one table: the whole state after it, read off the state before. */
module GateTable {
  import opened Prelude
  import opened Protocol
  import opened GateModel
  import opened GateInvariant
  import opened GateSteps
  import S = GateSweeps
  import Token

  // ---------- what the rows of the table are made of ----------

  /** One message for the client: it waits its turn, or is lost and counts as busy while the queue is full. */
  function Told(conn: Conn, msg: ClientMsg): Conn {
    if |conn.sendCh| < 8 * 1024 then conn.(sendCh := conn.sendCh + [msg])
    else
      var busy := (conn.busyCount + 1) % 0x1_0000_0000;
      conn.(busyCount := busy, closed := conn.closed || busy >= 5)
  }

  /** One envelope for the service, if there is a pool. */
  function Offer(g: Gate, env: Envelope): seq<Envelope> {
    if g.poolReady then [env] else []
  }

  /** The session named by the envelope decides which player it speaks for. */
  function Stamped(g: Gate, env: Envelope): Envelope {
    if Registered(g, env.sessionId) then env.(playerId := g.sessions[env.sessionId].playerID) else env
  }

  /** A notice about the session, if it has a player. */
  function About(g: Gate, s: Session, msgId: int): seq<Envelope> {
    if s.playerID == 0 then [] else Offer(g, Envelope(msgId, s.id, s.playerID, []))
  }

  /** Session `s` has let go of its connection, which is closed, and is announced. */
  function Gone(g: Gate, s: Session, now: int): Gate {
    g.(sessions := g.sessions[s.id := s.(conn := None, lastSeen := now, state := Offline)],
       conns := if s.conn.Some? && s.conn.value in g.conns
                then g.conns[s.conn.value := g.conns[s.conn.value].(closed := true)] else g.conns,
       offered := g.offered + About(g, s, MSG_PLAYER_OFFLINE_NOTIFY))
  }

  /** The message goes to the connection the session holds, and nowhere else. */
  function Answered(g: Gate, id: int, msgId: int, payload: seq<byte>): Gate {
    if Registered(g, id) && g.sessions[id].conn.Some? && g.sessions[id].conn.value in g.conns then
      var c := g.sessions[id].conn.value;
      g.(conns := g.conns[c := Told(g.conns[c], Forward(Envelope(msgId, id, g.sessions[id].playerID, payload)))])
    else g
  }

  /** One more attempt is within the limit: it opens a window, or its window has room. */
  predicate HasRoom(s: Session, cfg: Config, now: int) {
    || cfg.loginRateLimitCount <= 0
    || s.loginWindowStart == None || now - s.loginWindowStart.value > cfg.loginRateLimitWindow
    || s.loginAttempts < cfg.loginRateLimitCount
  }

  // ---------- client envelopes ----------

  /** What the gate does with an envelope from a client. */
  datatype Deed =
    | Ignored
    | TurnedAway(answer: Option<ClientMsg>)
    | Welcomed
    | Resumed(id: int)
    | Tried(id: int)
    | Asked(id: int)
    | Superseded(id: int)
    | Beaten(id: int)
    | Unrouted(id: int)
    | Passed(id: int)

  /** Why a decoded resume request is refused, None if it is not. */
  function Refusal(g: Gate, req: ResumeReq): Option<string> {
    var id := req.sessionID;
    if !Registered(g, id) || !Token.Verify(g.mac, id, g.sessions[id].token, req.token) then Some("invalid session")
    else if g.sessions[id].state == Authing then Some("session authing")
    else None
  }

  function DeedOf(g: Gate, c: int, env: Envelope, req: Option<ResumeReq>, now: int): Deed
    requires c in g.conns
  {
    var id := g.conns[c].sessionID;
    if env.msgId == MSG_RESUME_REQ then ResumeDeed(g, c, req)
    else if id == 0 then if env.msgId == MSG_LOGIN_REQ then Welcomed else TurnedAway(None)
    else if !Registered(g, id) then TurnedAway(None)
    else if g.sessions[id].state == Offline then Ignored
    else if env.msgId == MSG_LOGIN_REQ then LoginDeed(g, c, id, now)
    else if g.sessions[id].state == Online then Ignored
    else if env.msgId == MSG_HEARTBEAT_REQ then Beaten(id)
    else if GetRoute(env.msgId) == None then Unrouted(id)
    else Passed(id)
  }

  function ResumeDeed(g: Gate, c: int, req: Option<ResumeReq>): Deed
    requires c in g.conns
  {
    if g.conns[c].sessionID != 0 || req == None then TurnedAway(None)
    else
      var reason := Refusal(g, req.value);
      if reason.Some? then TurnedAway(Some(ResumeRsp(0, false, reason.value))) else Resumed(req.value.sessionID)
  }

  function LoginDeed(g: Gate, c: int, id: int, now: int): Deed
    requires id in g.sessions
  {
    var s := g.sessions[id];
    if !HasRoom(s, g.cfg, now) then Tried(id)
    else if s.state == Online then Asked(id)
    else if s.state == Authenticated && s.conn != Some(c) then Superseded(id)
    else Tried(id)
  }

  /** The session of the deed is there. */
  predicate Known(g: Gate, deed: Deed) {
    match deed
    case Ignored => true
    case TurnedAway(_) => true
    case Welcomed => true
    case _ => Registered(g, deed.id) && g.sessions[deed.id].id == deed.id
  }

  /** The state after the deed. */
  function Done(g: Gate, c: int, env: Envelope, nonce: Option<seq<byte>>, now: int, deed: Deed): Gate
    requires c in g.conns && Known(g, deed)
  {
    match deed
    case Ignored => g
    case TurnedAway(answer) =>
      var told := if answer.Some? then Told(g.conns[c], answer.value) else g.conns[c];
      g.(conns := g.conns[c := told.(closed := true)])
    case Welcomed => Newcomer(g, c, env, nonce, now)
    case Resumed(id) => Back(g, c, id, now)
    case Tried(id) => g.(sessions := g.sessions[id := CountLogin(g.sessions[id], g.cfg, now)])
    case Asked(id) =>
      var s := CountLogin(g.sessions[id], g.cfg, now);
      g.(sessions := g.sessions[id := s.(state := Authing, authStart := now, lastSeen := now)],
         offered := g.offered + Offer(g, Stamped(g, env)))
    case Superseded(id) =>
      var s := CountLogin(g.sessions[id], g.cfg, now);
      if s.conn.Some? then Gone(g, s, now) else g.(sessions := g.sessions[id := s])
    case Beaten(id) => Beat(g, id, now)
    case Unrouted(id) =>
      var s := g.sessions[id].(unknownMsgCount := g.sessions[id].unknownMsgCount + 1);
      if 0 < g.cfg.unknownMsgKickCount <= s.unknownMsgCount then Gone(g, s, now)
      else g.(sessions := g.sessions[id := s])
    case Passed(id) =>
      g.(sessions := g.sessions[id := g.sessions[id].(lastSeen := now)],
         offered := g.offered + Offer(g, Stamped(g, env)))
  }

  /** A new session, the client told about it, and its login on the way to the service. */
  function Newcomer(g: Gate, c: int, env: Envelope, nonce: Option<seq<byte>>, now: int): Gate
    requires c in g.conns
  {
    var id, token := g.nextID + 1, Token.Mint(g.mac, g.nextID + 1, nonce);
    var s := if g.cfg.loginRateLimitCount <= 0
             then Session(id, 0, token, Online, Some(c), now, 0, None, 0, 0)
             else Session(id, 0, token, Online, Some(c), now, 0, Some(now), 1, 0);
    g.(sessions := g.sessions[id := s], bySession := g.bySession + {id}, nextID := id,
       conns := g.conns[c := Told(g.conns[c].(sessionID := id), SessionInit(id, token))],
       offered := g.offered + Offer(g, Envelope(env.msgId, id, 0, env.payload)))
  }

  /** The session is on connection `c` now; the client knows, the game server is told, and the one it had is closed. */
  function Back(g: Gate, c: int, id: int, now: int): Gate
    requires c in g.conns && id in g.sessions
  {
    var s := g.sessions[id];
    var conns := if s.conn.Some? && s.conn.value != c && s.conn.value in g.conns
                 then g.conns[s.conn.value := g.conns[s.conn.value].(closed := true)] else g.conns;
    g.(sessions := g.sessions[id := s.(conn := Some(c), lastSeen := now,
                                       state := if s.playerID != 0 then Authenticated else Online)],
       conns := conns[c := Told(conns[c].(sessionID := id), ResumeRsp(id, true, ""))],
       offered := g.offered + About(g, s, MSG_PLAYER_RESUME_REQ),
       cfg := g.cfg.(unknownMsgKickCount := 0))
  }

  /** A heartbeat refreshes the session and its connection, and is answered. */
  function Beat(g: Gate, id: int, now: int): Gate
    requires id in g.sessions
  {
    var s := g.sessions[id];
    var conns := if s.conn.Some? && s.conn.value in g.conns
                 then g.conns[s.conn.value := g.conns[s.conn.value].(lastSeen := now)] else g.conns;
    Answered(g.(sessions := g.sessions[id := s.(lastSeen := now)], conns := conns), id, MSG_HEARTBEAT_RSP, [])
  }

  lemma DeedKnown(g: Gate, c: int, env: Envelope, req: Option<ResumeReq>, now: int)
    requires Inv(g) && c in g.conns
    ensures Known(g, DeedOf(g, c, env, req, now))
  {
    var id := g.conns[c].sessionID;
    if id in g.sessions { assert SessionOk(g, id); }
    if req.Some? && req.value.sessionID in g.sessions { assert SessionOk(g, req.value.sessionID); }
  }

  // ---------- all steps ----------

  /** The session a login response displaces. */
  predicate Displaces(g: Gate, id: int, playerID: int) {
    playerID in g.byPlayer && g.byPlayer[playerID] != id && Kickable(g, g.byPlayer[playerID])
  }

  predicate Kickable(g: Gate, id: int) {
    Registered(g, id) && g.sessions[id].conn.Some?
  }

  /** Session `id` authenticated for the player, and the one that held the player before gone. */
  function LoggedInAs(g: Gate, id: int, playerID: int, now: int): Gate
    requires id in g.sessions
  {
    var h := if Displaces(g, id, playerID) then Gone(g, g.sessions[g.byPlayer[playerID]], now) else g;
    h.(sessions := h.sessions[id := g.sessions[id].(playerID := playerID, state := Authenticated)],
       byPlayer := g.byPlayer[playerID := id],
       cfg := g.cfg.(unknownMsgKickCount := 0))
  }

  function Served(g: Gate, env: Envelope, rsp: Option<int>, now: int): Gate {
    if env.msgId == MSG_SERVICE_PONG then g
    else
      var h := if env.msgId == MSG_LOGIN_RSP && Registered(g, env.sessionId) && rsp.Some?
               then LoggedInAs(g, env.sessionId, rsp.value, now) else g;
      Answered(h, env.sessionId, env.msgId, env.payload)
  }

  /** The read loop of `c` has ended: its session is offline, whatever connection it held, and none is closed. */
  function HungUp(g: Gate, c: int, now: int): Gate
    requires c in g.conns
  {
    var id := g.conns[c].sessionID;
    var h := g.(conns := g.conns[c := g.conns[c].(reading := false)]);
    if !Registered(g, id) then h
    else
      h.(sessions := g.sessions[id := g.sessions[id].(conn := None, lastSeen := now, state := Offline)],
         offered := g.offered + About(g, g.sessions[id], MSG_PLAYER_OFFLINE_NOTIFY))
  }

  function Positive(setting: int, current: int): int {
    if setting > 0 then setting else current
  }

  function Settled(cfg: Config, settings: Config): Config {
    settings.(heartbeatInterval := Positive(settings.heartbeatInterval, cfg.heartbeatInterval),
              gcInterval := Positive(settings.gcInterval, cfg.gcInterval),
              heartbeatTimeout := Positive(settings.heartbeatTimeout, cfg.heartbeatTimeout),
              loginTimeout := Positive(settings.loginTimeout, cfg.loginTimeout),
              loginRateLimitCount := Positive(settings.loginRateLimitCount, cfg.loginRateLimitCount),
              loginRateLimitWindow := Positive(settings.loginRateLimitWindow, cfg.loginRateLimitWindow),
              unknownMsgKickCount := Positive(settings.unknownMsgKickCount, cfg.unknownMsgKickCount))
  }

  ghost function Table(g: Gate, step: Step): Gate
    requires Inv(g) && Enabled(g, step)
  {
    BeforeOk(g, step);
    var t := Before(g, step);
    match step
    case Accept(_, _, _) => t
    case Receive(c, env, req, nonce, now) =>
      DeedKnown(t, c, env, req, now);
      Done(t, c, env, nonce, now, DeedOf(t, c, env, req, now))
    case ReadFailed(c, now) => HungUp(t, c, now)
    case WriteOne(c, ok, _) =>
      t.(conns := t.conns[c := t.conns[c].(sendCh := t.conns[c].sendCh[1..], closed := t.conns[c].closed || !ok)])
    case FromService(env, rsp, now) => Served(t, env, rsp, now)
    case KickSession(id, now) => if Kickable(t, id) then Gone(t, t.sessions[id], now) else t
    case HeartbeatTick(_, now) => if t.cfg.heartbeatTimeout <= 0 then t else S.TakenOffline(t, S.Idle(t, now), now)
    case AuthingTick(_, now) => S.TakenOffline(t, S.Overdue(t, now), now)
    case GCTick(_, now) => Collected(t, CollectableIn(t, t.bySession, now))
    case Configure(cfg, _) => t.(cfg := Settled(t.cfg, cfg))
  }

  // ---------- the table is what the handlers do ----------

  lemma GoneIsOffline(g: Gate, id: int, now: int)
    requires Inv(g) && id in g.sessions && Live(g.sessions[id].state)
    ensures TakeOffline(g, id, now) == Gone(g, g.sessions[id], now)
  {
    assert SessionOk(g, id);
  }

  lemma KickIsGone(g: Gate, id: int, now: int)
    requires Inv(g)
    ensures Kick(g, id, now) == if Kickable(g, id) then Gone(g, g.sessions[id], now) else g
  {
    if Kickable(g, id) {
      assert SessionOk(g, id);
      GoneIsOffline(g, id, now);
    }
  }

  lemma ReplyIsAnswered(g: Gate, id: int, msgId: int, payload: seq<byte>)
    ensures Reply(g, id, msgId, payload) == Answered(g, id, msgId, payload)
  {}

  lemma RefusalRow(g: Gate, c: int, req: Option<ResumeReq>, now: int)
    requires Inv(g) && c in g.conns && ResumeDeed(g, c, req).TurnedAway?
    ensures HandleResume(g, c, req, now) == Done(g, c, Envelope(0, 0, 0, []), None, now, ResumeDeed(g, c, req))
  {
    if req.Some? && Registered(g, req.value.sessionID) { assert SessionOk(g, req.value.sessionID); }
  }

  lemma BackRow(g: Gate, c: int, id: int, now: int)
    requires Inv(g) && c in g.conns && g.conns[c].sessionID == 0 && Registered(g, id)
    ensures Rebind(g, c, id, now) == Back(g, c, id, now)
  {
    assert SessionOk(g, id);
    MoveRow(Displace(g, c, id), c, id, now);
  }

  lemma MoveRow(g: Gate, c: int, id: int, now: int)
    requires c in g.conns && Registered(g, id) && g.sessions[id].id == id
    ensures var s := g.sessions[id];
            AnswerResume(MoveTo(g, c, id, now), c, id)
            == g.(sessions := g.sessions[id := s.(conn := Some(c), lastSeen := now,
                                                  state := if s.playerID != 0 then Authenticated else Online)],
                  conns := g.conns[c := Told(g.conns[c].(sessionID := id), ResumeRsp(id, true, ""))],
                  offered := g.offered + About(g, s, MSG_PLAYER_RESUME_REQ),
                  cfg := g.cfg.(unknownMsgKickCount := 0))
  {}

  lemma ResumeRow(g: Gate, c: int, req: Option<ResumeReq>, now: int)
    requires Inv(g) && c in g.conns
    ensures Known(g, ResumeDeed(g, c, req))
    ensures HandleResume(g, c, req, now) == Done(g, c, Envelope(0, 0, 0, []), None, now, ResumeDeed(g, c, req))
  {
    if ResumeDeed(g, c, req).TurnedAway? {
      RefusalRow(g, c, req, now);
    } else {
      var id := req.value.sessionID;
      assert SessionOk(g, id);
      BackRow(g, c, id, now);
    }
  }

  lemma NewcomerRow(g: Gate, c: int, env: Envelope, nonce: Option<seq<byte>>, now: int)
    requires Inv(g) && c in g.conns
    ensures FirstLogin(g, c, env, nonce, now) == Newcomer(g, c, env, nonce, now)
  {
    var s := NewSession(g, c, nonce, now);
    var g1 := CreateSession(g, c, nonce, now);
    OfferRow(g1, s.id, env, now);
  }

  lemma OfferRow(g: Gate, id: int, env: Envelope, now: int)
    requires Registered(g, id)
    requires g.sessions[id].id == id && g.sessions[id].playerID == 0 && g.sessions[id].loginWindowStart == None
    ensures OfferLogin(g, id, env, now)
            == g.(sessions := g.sessions[id := if g.cfg.loginRateLimitCount <= 0 then g.sessions[id]
                                               else g.sessions[id].(loginWindowStart := Some(now), loginAttempts := 1)],
                  offered := g.offered + Offer(g, Envelope(env.msgId, id, 0, env.payload)))
  {}

  lemma LoginRow(g: Gate, c: int, id: int, env: Envelope, now: int)
    requires Inv(g) && c in g.conns && Registered(g, id) && now == g.clock
    requires Live(g.sessions[id].state) && env.msgId == MSG_LOGIN_REQ
    ensures Known(g, LoginDeed(g, c, id, now))
    ensures OnLoginReq(g, c, id, env, now) == Done(g, c, env, None, now, LoginDeed(g, c, id, now))
  {
    assert SessionOk(g, id);
    var s := CountLogin(g.sessions[id], g.cfg, now);
    var g1 := g.(sessions := g.sessions[id := s]);
    TouchOk(g, id, s);
    assert LoginAllowed(s, g.cfg) == HasRoom(g.sessions[id], g.cfg, now);
    if LoginAllowed(s, g.cfg) { ContinueRow(g, g1, c, id, env, now); }
  }

  lemma ContinueRow(g: Gate, g1: Gate, c: int, id: int, env: Envelope, now: int)
    requires Inv(g) && c in g.conns && Registered(g, id) && Live(g.sessions[id].state) && env.msgId == MSG_LOGIN_REQ
    requires g1 == g.(sessions := g.sessions[id := CountLogin(g.sessions[id], g.cfg, now)]) && Inv(g1)
    requires HasRoom(g.sessions[id], g.cfg, now) && g.sessions[id].id == id
    ensures ContinueLogin(g1, c, id, env, now) == Done(g, c, env, None, now, LoginDeed(g, c, id, now))
  {
    var s := g1.sessions[id];
    match s.state
    case Online => AskRow(g1, id, env, now);
    case Authenticated => KickIsGone(g1, id, now);
    case Authing =>
  }

  lemma AskRow(g: Gate, id: int, env: Envelope, now: int)
    requires Registered(g, id) && env.msgId == MSG_LOGIN_REQ
    ensures var s := g.sessions[id];
            RouteClient(g.(sessions := g.sessions[id := s.(state := Authing, authStart := now)]), id, env, now)
            == g.(sessions := g.sessions[id := s.(state := Authing, authStart := now, lastSeen := now)],
                  offered := g.offered + Offer(g, Stamped(g, env)))
  {}

  lemma BeatRow(g: Gate, id: int, now: int)
    requires Inv(g) && Registered(g, id)
    ensures OnHeartbeat(g, id, now) == Beat(g, id, now)
  {
    assert SessionOk(g, id);
    ReplyIsAnswered(Refreshed(g, id, now), id, MSG_HEARTBEAT_RSP, []);
  }

  lemma UnknownRow(g: Gate, id: int, now: int)
    requires Inv(g) && Registered(g, id) && Live(g.sessions[id].state)
    ensures var s := g.sessions[id].(unknownMsgCount := g.sessions[id].unknownMsgCount + 1);
            CountUnknown(g, id, now)
            == if 0 < g.cfg.unknownMsgKickCount <= s.unknownMsgCount then Gone(g, s, now)
               else g.(sessions := g.sessions[id := s])
  {
    assert SessionOk(g, id);
    CountedOk(g, id);
    GoneIsOffline(Counted(g, id), id, now);
  }

  lemma BoundRow(g: Gate, c: int, env: Envelope, req: Option<ResumeReq>, now: int)
    requires Inv(g) && c in g.conns && now == g.clock
    requires env.msgId != MSG_RESUME_REQ && g.conns[c].sessionID != 0
    ensures Known(g, DeedOf(g, c, env, req, now))
    ensures OnSessionEnvelope(g, c, g.conns[c].sessionID, env, now)
            == Done(g, c, env, None, now, DeedOf(g, c, env, req, now))
  {
    DeedKnown(g, c, env, req, now);
    var id := g.conns[c].sessionID;
    if Registered(g, id) && g.sessions[id].state != Offline {
      assert SessionOk(g, id);
      if env.msgId == MSG_LOGIN_REQ {
        LoginRow(g, c, id, env, now);
      } else if env.msgId == MSG_HEARTBEAT_REQ {
        BeatRow(g, id, now);
      } else if GetRoute(env.msgId) == None {
        UnknownRow(g, id, now);
      }
    }
  }

  lemma ReceiveRow(g: Gate, c: int, env: Envelope, req: Option<ResumeReq>, nonce: Option<seq<byte>>, now: int)
    requires Inv(g) && c in g.conns && now == g.clock
    ensures Known(g, DeedOf(g, c, env, req, now))
    ensures OnEnvelope(g, c, env, req, nonce, now) == Done(g, c, env, nonce, now, DeedOf(g, c, env, req, now))
  {
    if env.msgId == MSG_RESUME_REQ {
      ResumeRow(g, c, req, now);
    } else if g.conns[c].sessionID == 0 {
      NewcomerRow(g, c, env, nonce, now);
    } else {
      BoundRow(g, c, env, req, now);
    }
  }

  lemma LoginRspRow(g: Gate, id: int, playerID: int, now: int)
    requires Inv(g) && Registered(g, id)
    ensures OnLoginRsp(g, id, Some(playerID), now) == LoggedInAs(g, id, playerID, now)
  {
    assert SessionOk(g, id);
    TakeOverCommutes(g, id, playerID, now);
    if playerID in g.byPlayer && g.byPlayer[playerID] != id {
      var prev := g.byPlayer[playerID];
      assert SessionOk(g, prev);
      KickIsGone(g, prev, now);
    }
  }

  lemma ServedRow(g: Gate, env: Envelope, rsp: Option<int>, now: int)
    requires Inv(g)
    ensures OnServiceEnvelope(g, env, rsp, now) == Served(g, env, rsp, now)
  {
    if env.msgId == MSG_LOGIN_RSP && Registered(g, env.sessionId) && rsp.Some? {
      LoginRspRow(g, env.sessionId, rsp.value, now);
      ReplyIsAnswered(LoggedInAs(g, env.sessionId, rsp.value, now), env.sessionId, env.msgId, env.payload);
    } else {
      ReplyIsAnswered(g, env.sessionId, env.msgId, env.payload);
    }
  }

  lemma HungUpRow(g: Gate, c: int, now: int)
    requires Inv(g) && c in g.conns
    ensures OnConnClose(g, c, now) == HungUp(g, c, now)
  {
    var id := g.conns[c].sessionID;
    if Registered(g, id) { assert SessionOk(g, id); }
  }

  /** Every step of every kind leaves exactly the state the table says. */
  lemma StepExactly(g: Gate, step: Step)
    requires Inv(g) && Enabled(g, step)
    ensures Apply(g, step) == Table(g, step)
  {
    BeforeOk(g, step);
    var t := Before(g, step);
    match step {
      case Accept(_, _, _) =>
      case Receive(c, env, req, nonce, now) => ReceiveRow(t, c, env, req, nonce, now);
      case ReadFailed(c, now) => HungUpRow(t, c, now);
      case WriteOne(_, _, _) =>
      case FromService(env, rsp, now) => ServedRow(t, env, rsp, now);
      case KickSession(id, now) => KickIsGone(t, id, now);
      case HeartbeatTick(order, now) => S.HeartbeatSweepExact(t, order, now);
      case AuthingTick(order, now) => S.AuthingSweepExact(t, order, now);
      case GCTick(order, now) =>
        forall id | id in t.bySession ensures id in t.sessions { assert id in g.sessions; }
        GCExact(t, order, now);
      case Configure(_, _) =>
    }
  }

  /** The row of a client's envelope. */
  lemma ReceiveExactly(g: Gate, step: Step)
    requires Inv(g) && Enabled(g, step) && step.Receive?
    ensures var t := Before(g, step);
            && Inv(t) && Known(t, DeedOf(t, step.conn, step.env, step.req, step.now))
            && Apply(g, step)
               == Done(t, step.conn, step.env, step.nonce, step.now, DeedOf(t, step.conn, step.env, step.req, step.now))
  {
    BeforeOk(g, step);
    DeedKnown(Before(g, step), step.conn, step.env, step.req, step.now);
    StepExactly(g, step);
  }

  /** The row of an envelope from the service. */
  lemma ServiceExactly(g: Gate, step: Step)
    requires Inv(g) && Enabled(g, step) && step.FromService?
    ensures Inv(Before(g, step)) && Apply(g, step) == Served(Before(g, step), step.env, step.rsp, step.now)
  {
    BeforeOk(g, step);
    StepExactly(g, step);
  }
}
