/** The gate's session protocol as a state machine over values: one step per handler call. */
module GateModel {
  import opened Prelude
  import opened Protocol
  import Token

  datatype SessionState = Init | Online | Authing | Authenticated | Offline | Closed

  datatype ConnType = ConnTCP | ConnWS

  /** `conn` names the attached connection; `loginWindowStart` is None for the zero time. */
  datatype Session = Session(
    id: int, playerID: int, token: string, state: SessionState, conn: Option<int>,
    lastSeen: int, authStart: int,
    loginWindowStart: Option<int>, loginAttempts: int, unknownMsgCount: int)

  datatype ClientMsg =
    | SessionInit(sessionID: int, token: string)
    | ResumeRsp(sessionID: int, ok: bool, reason: string)
    | Forward(env: Envelope)

  /** `reading` holds while the connection's read loop runs. */
  datatype Conn = Conn(
    connType: ConnType, sessionID: int, sendCh: seq<ClientMsg>, busyCount: nat,
    closed: bool, reading: bool, connectedAt: int, lastSeen: int)

  const SEND_CAPACITY := 8 * 1024
  const UINT32_RANGE := 0x1_0000_0000

  datatype ConnOptions = ConnOptions(readTimeout: int, writeTimeout: int, keepAlive: int)

  datatype Config = Config(
    heartbeatInterval: int, gcInterval: int, connOptions: ConnOptions,
    heartbeatTimeout: int, loginTimeout: int, loginRateLimitCount: int, loginRateLimitWindow: int,
    unknownMsgKickCount: int)

  /**
   * `sessions` holds every session ever created, `bySession` the registered ones;
   * `offered` is everything handed to the service pool, oldest first.
   */
  datatype Gate = Gate(
    sessions: map<int, Session>, conns: map<int, Conn>,
    bySession: set<int>, byPlayer: map<int, int>,
    nextID: int, clock: int, cfg: Config, mac: Token.Mac,
    poolReady: bool, offered: seq<Envelope>)

  /** What the client sent in a resume request, once decoded. */
  datatype ResumeReq = ResumeReq(sessionID: int, token: string)

  // ---------- connections ----------

  function CloseConn(g: Gate, c: int): Gate {
    if c in g.conns then g.(conns := g.conns[c := g.conns[c].(closed := true)]) else g
  }

  /** Queue a message for the client; a full queue counts as busy, and the fifth time closes the connection. */
  function Enqueued(conn: Conn, msg: ClientMsg): Conn {
    if |conn.sendCh| < SEND_CAPACITY then conn.(sendCh := conn.sendCh + [msg])
    else
      var busy := (conn.busyCount + 1) % UINT32_RANGE;
      conn.(busyCount := busy, closed := conn.closed || busy >= 5)
  }

  function Send(g: Gate, c: int, msg: ClientMsg): Gate {
    if c in g.conns then g.(conns := g.conns[c := Enqueued(g.conns[c], msg)]) else g
  }

  function MarkAlive(g: Gate, c: int, now: int): Gate {
    if c in g.conns then g.(conns := g.conns[c := g.conns[c].(lastSeen := now)]) else g
  }

  function LastAlive(conn: Conn): int {
    if conn.lastSeen == 0 then conn.connectedAt else conn.lastSeen
  }

  // ---------- session lookup and the service pool ----------

  /** The session manager's Get finds a session with this ID. */
  predicate Registered(g: Gate, id: int) {
    id in g.bySession && id in g.sessions
  }

  function SendToService(g: Gate, env: Envelope): Gate {
    if !g.poolReady then g
    else
      var stamped := if Registered(g, env.sessionId) then env.(playerId := g.sessions[env.sessionId].playerID) else env;
      g.(offered := g.offered + [stamped])
  }

  function Notify(g: Gate, id: int, msgId: int): Gate
    requires id in g.sessions
  {
    var s := g.sessions[id];
    if s.playerID == 0 then g else SendToService(g, Envelope(msgId, s.id, s.playerID, []))
  }

  function Reply(g: Gate, id: int, msgId: int, payload: seq<byte>): Gate {
    if Registered(g, id) && g.sessions[id].conn.Some?
    then Send(g, g.sessions[id].conn.value, Forward(Envelope(msgId, id, g.sessions[id].playerID, payload)))
    else g
  }

  // ---------- going offline ----------

  function Detached(s: Session, now: int): Session {
    s.(conn := None, lastSeen := now, state := Offline)
  }

  function TakeOffline(g: Gate, id: int, now: int): Gate
    requires id in g.sessions
  {
    var s := g.sessions[id];
    if s.state == Closed || (s.state == Offline && s.conn == None) then g
    else
      var g1 := if s.conn.Some? then CloseConn(g, s.conn.value) else g;
      var g2 := g1.(sessions := g1.sessions[id := Detached(s, now)]);
      if s.state != Offline then Notify(g2, id, MSG_PLAYER_OFFLINE_NOTIFY) else g2
  }

  function Kick(g: Gate, id: int, now: int): Gate {
    if Registered(g, id) && g.sessions[id].conn.Some? then TakeOffline(g, id, now) else g
  }

  /** The read loop of `c` ended. */
  function OnConnClose(g: Gate, c: int, now: int): Gate
    requires c in g.conns
  {
    var g0 := g.(conns := g.conns[c := g.conns[c].(reading := false)]);
    var id := g.conns[c].sessionID;
    if !Registered(g, id) then g0
    else Notify(g0.(sessions := g0.sessions[id := Detached(g0.sessions[id], now)]), id, MSG_PLAYER_OFFLINE_NOTIFY)
  }

  // ---------- client envelopes ----------

  /** The session the next newcomer gets. */
  function NewSession(g: Gate, c: int, nonce: Option<seq<byte>>, now: int): Session {
    var id := g.nextID + 1;
    Session(id, 0, Token.Mint(g.mac, id, nonce), Online, Some(c), now, 0, None, 0, 0)
  }

  /** Session `s`, registered and attached to connection `c`. */
  function Enrolled(g: Gate, c: int, s: Session): Gate
    requires c in g.conns
  {
    g.(sessions := g.sessions[s.id := s], bySession := g.bySession + {s.id}, nextID := s.id,
       conns := g.conns[c := g.conns[c].(sessionID := s.id)])
  }

  function CreateSession(g: Gate, c: int, nonce: Option<seq<byte>>, now: int): Gate
    requires c in g.conns
  {
    var s := NewSession(g, c, nonce, now);
    Send(Enrolled(g, c, s), c, SessionInit(s.id, s.token))
  }

  /** The login limiter's bookkeeping for one attempt. */
  function CountLogin(s: Session, cfg: Config, now: int): Session {
    if cfg.loginRateLimitCount <= 0 then s
    else if s.loginWindowStart == None || now - s.loginWindowStart.value > cfg.loginRateLimitWindow
    then s.(loginWindowStart := Some(now), loginAttempts := 1)
    else s.(loginAttempts := s.loginAttempts + 1)
  }

  /** Whether the attempt just counted in `s` is within the limit. */
  predicate LoginAllowed(s: Session, cfg: Config) {
    cfg.loginRateLimitCount <= 0 || s.loginAttempts <= cfg.loginRateLimitCount
  }

  function FirstLogin(g: Gate, c: int, env: Envelope, nonce: Option<seq<byte>>, now: int): Gate
    requires c in g.conns
  {
    var g1 := CreateSession(g, c, nonce, now);
    OfferLogin(g1, g1.nextID, env, now)
  }

  /** The login goes to the service in the name of the new session, if the limit allows it. */
  function OfferLogin(g: Gate, id: int, env: Envelope, now: int): Gate
    requires id in g.sessions
  {
    var s := CountLogin(g.sessions[id], g.cfg, now);
    var g1 := g.(sessions := g.sessions[id := s]);
    if LoginAllowed(s, g.cfg) then SendToService(g1, Envelope(env.msgId, s.id, 0, env.payload)) else g1
  }

  function Refreshed(g: Gate, id: int, now: int): Gate
    requires id in g.sessions
  {
    var g1 := g.(sessions := g.sessions[id := g.sessions[id].(lastSeen := now)]);
    if g.sessions[id].conn.Some? then MarkAlive(g1, g.sessions[id].conn.value, now) else g1
  }

  function OnHeartbeat(g: Gate, id: int, now: int): Gate {
    if !Registered(g, id) then g else Reply(Refreshed(g, id, now), id, MSG_HEARTBEAT_RSP, [])
  }

  function Counted(g: Gate, id: int): Gate
    requires id in g.sessions
  {
    g.(sessions := g.sessions[id := g.sessions[id].(unknownMsgCount := g.sessions[id].unknownMsgCount + 1)])
  }

  /** A message with no route: too many of them take the session offline, when the limit is on. */
  function CountUnknown(g: Gate, id: int, now: int): Gate
    requires id in g.sessions
  {
    var g1 := Counted(g, id);
    if 0 < g1.cfg.unknownMsgKickCount <= g1.sessions[id].unknownMsgCount then TakeOffline(g1, id, now) else g1
  }

  /** Permission check, control messages and routing: the tail of OnEnvelope. */
  function RouteClient(g: Gate, id: int, env: Envelope, now: int): Gate
    requires id in g.sessions
  {
    var s := g.sessions[id];
    if s.state == Online then g
    else if env.msgId == MSG_HEARTBEAT_REQ then OnHeartbeat(g, id, now)
    else if GetRoute(env.msgId) == None then CountUnknown(g, id, now)
    else SendToService(g.(sessions := g.sessions[id := s.(lastSeen := now)]), env)
  }

  function OnLoginReq(g: Gate, c: int, id: int, env: Envelope, now: int): Gate
    requires id in g.sessions
  {
    var s := CountLogin(g.sessions[id], g.cfg, now);
    var g1 := g.(sessions := g.sessions[id := s]);
    if LoginAllowed(s, g.cfg) then ContinueLogin(g1, c, id, env, now) else g1
  }

  /** A login request within the limit, by the session's state. */
  function ContinueLogin(g: Gate, c: int, id: int, env: Envelope, now: int): Gate
    requires id in g.sessions
  {
    var s := g.sessions[id];
    match s.state
    case Authenticated => if s.conn == Some(c) then g else Kick(g, id, now)
    case Online =>
      RouteClient(g.(sessions := g.sessions[id := s.(state := Authing, authStart := now)]), id, env, now)
    case Authing => g
    case _ => RouteClient(g, id, env, now)
  }

  function Reject(g: Gate, c: int, reason: string): Gate {
    CloseConn(Send(g, c, ResumeRsp(0, false, reason)), c)
  }

  /** `req` is the decoded payload, None when it does not decode. */
  function HandleResume(g: Gate, c: int, req: Option<ResumeReq>, now: int): Gate
    requires c in g.conns
  {
    if g.conns[c].sessionID != 0 || req == None then CloseConn(g, c)
    else
      var id := req.value.sessionID;
      if !Registered(g, id) || !Token.Verify(g.mac, id, g.sessions[id].token, req.value.token)
      then Reject(g, c, "invalid session") else ResumeKnown(g, c, id, now)
  }

  /** A resume with the right token: refused while the session's state does not allow it. */
  function ResumeKnown(g: Gate, c: int, id: int, now: int): Gate
    requires c in g.conns && id in g.sessions
  {
    match g.sessions[id].state
    case Authing => Reject(g, c, "session authing")
    case Closed => Reject(g, c, "session closed")
    case _ => Rebind(g, c, id, now)
  }

  /** The successful end of a resume: the session moves to connection `c`. */
  function Rebind(g: Gate, c: int, id: int, now: int): Gate
    requires c in g.conns && id in g.sessions
  {
    AnswerResume(MoveTo(Displace(g, c, id), c, id, now), c, id)
  }

  /** The connection a session leaves for `c` is closed. */
  function Displace(g: Gate, c: int, id: int): Gate
    requires id in g.sessions
  {
    var s := g.sessions[id];
    if s.conn.Some? && s.conn.value != c then CloseConn(g, s.conn.value) else g
  }

  function MoveTo(g: Gate, c: int, id: int, now: int): Gate
    requires c in g.conns && id in g.sessions
  {
    var s := g.sessions[id];
    var state := if s.playerID != 0 then Authenticated else Online;
    g.(sessions := g.sessions[id := s.(conn := Some(c), lastSeen := now, state := state)],
       conns := g.conns[c := g.conns[c].(sessionID := id)])
  }

  /** Tell the client, and the game server if the session has a player. */
  function AnswerResume(g: Gate, c: int, id: int): Gate
    requires id in g.sessions
  {
    var g1 := Send(g, c, ResumeRsp(id, true, ""));
    var g2 := if g.sessions[id].playerID != 0 then Notify(g1, id, MSG_PLAYER_RESUME_REQ) else g1;
    g2.(cfg := g2.cfg.(unknownMsgKickCount := 0))
  }

  /** An envelope on a connection that has a session. */
  function OnSessionEnvelope(g: Gate, c: int, id: int, env: Envelope, now: int): Gate {
    if !Registered(g, id) then CloseConn(g, c)
    else if g.sessions[id].state == Offline then g
    else if env.msgId == MSG_LOGIN_REQ then OnLoginReq(g, c, id, env, now)
    else RouteClient(g, id, env, now)
  }

  function OnEnvelope(g: Gate, c: int, env: Envelope, req: Option<ResumeReq>, nonce: Option<seq<byte>>, now: int): Gate
    requires c in g.conns
  {
    var id := g.conns[c].sessionID;
    if env.msgId == MSG_RESUME_REQ then HandleResume(g, c, req, now)
    else if id == 0 then
      if env.msgId != MSG_LOGIN_REQ then CloseConn(g, c) else FirstLogin(g, c, env, nonce, now)
    else OnSessionEnvelope(g, c, id, env, now)
  }

  // ---------- service envelopes ----------

  function BindPlayer(g: Gate, id: int, playerID: int): Gate
    requires id in g.sessions
  {
    g.(sessions := g.sessions[id := g.sessions[id].(playerID := playerID)], byPlayer := g.byPlayer[playerID := id])
  }

  /** Bind the session to the player and kick whoever held the player before. */
  function TakeOver(g: Gate, id: int, playerID: int, now: int): Gate
    requires id in g.sessions
  {
    var g1 := BindPlayer(g, id, playerID);
    if playerID in g.byPlayer && g.byPlayer[playerID] != id then Kick(g1, g.byPlayer[playerID], now) else g1
  }

  function Authenticate(g: Gate, id: int, playerID: int): Gate
    requires id in g.sessions
  {
    g.(sessions := g.sessions[id := g.sessions[id].(playerID := playerID, state := Authenticated)],
       cfg := g.cfg.(unknownMsgKickCount := 0))
  }

  /** `rsp` is the decoded player ID, None when the payload does not decode. */
  function OnLoginRsp(g: Gate, id: int, rsp: Option<int>, now: int): Gate {
    if !Registered(g, id) || rsp == None then g
    else Authenticate(TakeOver(g, id, rsp.value, now), id, rsp.value)
  }

  function OnServiceEnvelope(g: Gate, env: Envelope, rsp: Option<int>, now: int): Gate {
    if env.msgId == MSG_SERVICE_PONG then g
    else
      var g1 := if env.msgId == MSG_LOGIN_RSP then OnLoginRsp(g, env.sessionId, rsp, now) else g;
      Reply(g1, env.sessionId, env.msgId, env.payload)
  }

  // ---------- sweeps: one pass over a snapshot of the registered sessions, in any order ----------

  predicate HeartbeatExpired(g: Gate, id: int, now: int) {
    && Registered(g, id)
    && var s := g.sessions[id];
       && s.state == Online && s.conn.Some? && s.conn.value in g.conns
       && var c := g.conns[s.conn.value];
          var timeout := g.cfg.heartbeatTimeout + if c.connType == ConnWS then g.cfg.heartbeatTimeout / 2 else 0;
          now - LastAlive(c) > timeout
  }

  predicate AuthingExpired(g: Gate, id: int, now: int) {
    && Registered(g, id)
    && g.sessions[id].state == Authing && now - g.sessions[id].authStart > g.cfg.loginTimeout
  }

  function HeartbeatPass(g: Gate, order: seq<int>, now: int): Gate {
    if order == [] then g
    else
      var id := order[|order| - 1];
      var g1 := HeartbeatPass(g, order[..|order| - 1], now);
      if HeartbeatExpired(g1, id, now) then TakeOffline(g1, id, now) else g1
  }

  function CheckHeartbeat(g: Gate, order: seq<int>, now: int): Gate {
    if g.cfg.heartbeatTimeout <= 0 then g else HeartbeatPass(g, order, now)
  }

  function CheckAuthingTimeout(g: Gate, order: seq<int>, now: int): Gate {
    if order == [] then g
    else
      var id := order[|order| - 1];
      var g1 := CheckAuthingTimeout(g, order[..|order| - 1], now);
      if AuthingExpired(g1, id, now) then TakeOffline(g1, id, now) else g1
  }

  predicate Collectable(g: Gate, id: int, now: int) {
    && Registered(g, id)
    && g.sessions[id].state == Offline && now - g.sessions[id].lastSeen > g.cfg.heartbeatTimeout
  }

  function CollectOne(g: Gate, id: int, now: int): Gate {
    if !Collectable(g, id, now) then g
    else
      var s := g.sessions[id];
      g.(sessions := g.sessions[id := s.(state := Closed)],
         byPlayer := if s.playerID != 0 then g.byPlayer - {s.playerID} else g.byPlayer,
         bySession := g.bySession - {id})
  }

  function GC(g: Gate, order: seq<int>, now: int): Gate {
    if order == [] then g
    else CollectOne(GC(g, order[..|order| - 1], now), order[|order| - 1], now)
  }

  // ---------- configuration ----------

  /** Only positive settings replace the current ones. */
  function UpdateConfig(g: Gate, settings: Config): Gate {
    g.(cfg := Merged(g.cfg, settings))
  }

  /** Positive settings replace the current ones, and the connection options always do. */
  function Merged(cfg: Config, settings: Config): Config {
    Config(
      if settings.heartbeatInterval > 0 then settings.heartbeatInterval else cfg.heartbeatInterval,
      if settings.gcInterval > 0 then settings.gcInterval else cfg.gcInterval,
      settings.connOptions,
      if settings.heartbeatTimeout > 0 then settings.heartbeatTimeout else cfg.heartbeatTimeout,
      if settings.loginTimeout > 0 then settings.loginTimeout else cfg.loginTimeout,
      if settings.loginRateLimitCount > 0 then settings.loginRateLimitCount else cfg.loginRateLimitCount,
      if settings.loginRateLimitWindow > 0 then settings.loginRateLimitWindow else cfg.loginRateLimitWindow,
      if settings.unknownMsgKickCount > 0 then settings.unknownMsgKickCount else cfg.unknownMsgKickCount)
  }

  // ---------- steps and runs ----------

  /** A step carries the time it reads and every answer its environment gives. */
  datatype Step =
    | Accept(conn: int, connType: ConnType, now: int)
    | Receive(conn: int, env: Envelope, req: Option<ResumeReq>, nonce: Option<seq<byte>>, now: int)
    | ReadFailed(conn: int, now: int)
    | WriteOne(conn: int, ok: bool, now: int)
    | FromService(env: Envelope, rsp: Option<int>, now: int)
    | KickSession(id: int, now: int)
    | HeartbeatTick(order: seq<int>, now: int)
    | AuthingTick(order: seq<int>, now: int)
    | GCTick(order: seq<int>, now: int)
    | Configure(cfg: Config, now: int)

  /** `order` lists the registered sessions, each once. */
  predicate Enumerates(g: Gate, order: seq<int>) {
    && (forall i, j | 0 <= i < j < |order| :: order[i] != order[j])
    && (set id | id in order) == g.bySession
  }

  predicate Enabled(g: Gate, step: Step) {
    && step.now >= g.clock
    && match step
       case Accept(c, _, _) => c !in g.conns
       case Receive(c, _, _, _, _) => c in g.conns && g.conns[c].reading
       case ReadFailed(c, _) => c in g.conns && g.conns[c].reading
       case WriteOne(c, _, _) => c in g.conns && |g.conns[c].sendCh| > 0
       case HeartbeatTick(order, _) => Enumerates(g, order)
       case AuthingTick(order, _) => Enumerates(g, order)
       case GCTick(order, _) => Enumerates(g, order)
       case _ => true
  }

  /** The writer takes the oldest message; a failed write closes the connection. */
  function WriteNext(conn: Conn, ok: bool): Conn
    requires |conn.sendCh| > 0
  {
    conn.(sendCh := conn.sendCh[1..], closed := conn.closed || !ok)
  }

  function Apply(g: Gate, step: Step): Gate
    requires Enabled(g, step)
  {
    var t := g.(clock := step.now);
    match step
    case Accept(c, connType, now) =>
      t.(conns := t.conns[c := Conn(connType, 0, [], 0, false, true, now, now)])
    case Receive(c, env, req, nonce, now) => OnEnvelope(MarkAlive(t, c, now), c, env, req, nonce, now)
    case ReadFailed(c, now) => OnConnClose(t, c, now)
    case WriteOne(c, ok, now) => t.(conns := t.conns[c := WriteNext(t.conns[c], ok)])
    case FromService(env, rsp, now) => OnServiceEnvelope(t, env, rsp, now)
    case KickSession(id, now) => Kick(t, id, now)
    case HeartbeatTick(order, now) => CheckHeartbeat(t, order, now)
    case AuthingTick(order, now) => CheckAuthingTimeout(t, order, now)
    case GCTick(order, now) => GC(t, order, now)
    case Configure(cfg, _) => UpdateConfig(t, cfg)
  }

  function Start(mac: Token.Mac, cfg: Config, poolReady: bool, now: int): Gate {
    Gate(map[], map[], {}, map[], 0, now, cfg, mac, poolReady, [])
  }

  /** The state after the first `n` steps of `run`, None if one of them was not enabled. */
  function At(g: Gate, run: seq<Step>, n: nat): Option<Gate>
    requires n <= |run|
  {
    if n == 0 then Some(g)
    else
      match At(g, run, n - 1)
      case None => None
      case Some(h) => if Enabled(h, run[n - 1]) then Some(Apply(h, run[n - 1])) else None
  }

  /** A run of a gate: any sequence of steps, each enabled when it is taken, under a clock that never goes back. */
  predicate IsRun(g: Gate, run: seq<Step>) {
    At(g, run, |run|).Some?
  }

  function After(g: Gate, run: seq<Step>, n: nat): Gate
    requires IsRun(g, run) && n <= |run|
  {
    RunPrefix(g, run, n, |run|);
    At(g, run, n).value
  }

  lemma {:induction false} RunPrefix(g: Gate, run: seq<Step>, m: nat, n: nat)
    requires m <= n <= |run| && At(g, run, n).Some?
    ensures At(g, run, m).Some?
  {
    if m < n { RunPrefix(g, run, m, n - 1); }
  }
}
