/** What every step of the gate keeps, and what steps may do to sessions and connections. */
module GateInvariant {
  import opened Prelude
  import opened Protocol
  import opened GateModel
  import Token

  ghost predicate SessionOk(g: Gate, id: int)
    requires id in g.sessions
  {
    var s := g.sessions[id];
    && s.id == id && 1 <= id <= g.nextID
    && s.state != Init
    && (s.state == Closed <==> id !in g.bySession)
    && (s.state == Online || s.state == Authing ==> s.conn.Some? && s.playerID == 0)
    && (s.state == Offline || s.state == Closed ==> s.conn == None)
    && (s.conn.Some? ==> s.conn.value in g.conns && g.conns[s.conn.value].sessionID == id)
    && s.lastSeen <= g.clock
  }

  ghost predicate Inv(g: Gate) {
    && g.nextID >= 0
    && (forall id | id in g.bySession :: id in g.sessions)
    && (forall id | id in g.sessions :: SessionOk(g, id))
    && (forall c | c in g.conns :: g.conns[c].sessionID == 0 || g.conns[c].sessionID in g.sessions)
    && (forall p | p in g.byPlayer :: g.byPlayer[p] in g.sessions)
  }

  // ---------- what a step may do ----------

  predicate Live(state: SessionState) {
    state == Online || state == Authing || state == Authenticated
  }

  /** Within a step at time `t`: unchanged but for counters and times, or from Online to Authing, or taken offline
      now. */
  predicate Relaxed(a: Session, b: Session, t: int) {
    && b.id == a.id && b.playerID == a.playerID && b.token == a.token
    && (|| (&& b.state == a.state && b.conn == a.conn
            && (a.state == Offline ==> b.lastSeen >= a.lastSeen)
            && (a.state == Closed ==> b == a))
        || (a.state == Online && b.state == Authing && b.conn == a.conn)
        || (a.state != Closed && b.state == Offline && b.conn == None && b.lastSeen >= t))
  }

  function OfflineNotice(s: Session): Envelope {
    Envelope(MSG_PLAYER_OFFLINE_NOTIFY, s.id, s.playerID, [])
  }

  /** A player's live session going offline was announced to the game server. */
  ghost predicate Signalled(g: Gate, g': Gate, s: Session, s': Session) {
    g.poolReady && s.playerID != 0 && Live(s.state) && s'.state == Offline ==>
      exists i :: |g.offered| <= i < |g'.offered| && g'.offered[i] == OfflineNotice(s)
  }

  ghost predicate SessionQuiet(g: Gate, g': Gate, id: int) {
    && (id in g'.sessions <==> id in g.sessions)
    && (id in g.sessions ==>
          && Relaxed(g.sessions[id], g'.sessions[id], g.clock)
          && Signalled(g, g', g.sessions[id], g'.sessions[id]))
  }

  ghost predicate SameBinding(g: Gate, g': Gate, c: int) {
    (c in g'.conns <==> c in g.conns) && (c in g.conns ==> g'.conns[c].sessionID == g.conns[c].sessionID)
  }

  /** No session is created, attached, bound or collected. */
  ghost predicate Quiet(g: Gate, g': Gate) {
    && g'.bySession == g.bySession && g'.byPlayer == g.byPlayer
    && g'.nextID == g.nextID && g'.clock == g.clock && g'.poolReady == g.poolReady
    && g.offered <= g'.offered
    && (forall id :: SessionQuiet(g, g', id))
    && (forall c :: SameBinding(g, g', c))
  }

  ghost predicate Ok(g: Gate, g': Gate) {
    Inv(g') && Quiet(g, g')
  }

  lemma Chain(a: Gate, b: Gate, c: Gate)
    requires Quiet(a, b) && Ok(b, c)
    ensures Ok(a, c)
  {
    forall id ensures SessionQuiet(a, c, id) {
      assert SessionQuiet(a, b, id) && SessionQuiet(b, c, id);
    }
    forall x ensures SameBinding(a, c, x) {
      assert SameBinding(a, b, x) && SameBinding(b, c, x);
    }
  }

  /** Only queues, flags and settings differ: everything the invariant talks about is the same. */
  ghost predicate SameLinks(g: Gate, g': Gate) {
    && g'.sessions == g.sessions && g'.bySession == g.bySession && g'.byPlayer == g.byPlayer
    && g'.nextID == g.nextID && g'.clock == g.clock && g'.poolReady == g.poolReady
    && g.offered <= g'.offered
    && (forall c :: SameBinding(g, g', c))
  }

  lemma SameLinksOk(g: Gate, g': Gate)
    requires Inv(g) && SameLinks(g, g')
    ensures Ok(g, g')
  {
    forall id | id in g'.sessions ensures SessionOk(g', id) {
      assert SessionOk(g, id);
      if g.sessions[id].conn.Some? { assert SameBinding(g, g', g.sessions[id].conn.value); }
    }
    forall c | c in g'.conns ensures g'.conns[c].sessionID == 0 || g'.conns[c].sessionID in g'.sessions {
      assert SameBinding(g, g', c);
    }
  }

  /** Rewriting one registered session without touching its links. */
  lemma TouchOk(g: Gate, id: int, s: Session)
    requires Inv(g) && id in g.bySession
    requires var was := g.sessions[id];
             && s.id == was.id && s.playerID == was.playerID && s.conn == was.conn && s.token == was.token
             && was.lastSeen <= s.lastSeen <= g.clock
             && (s.state == was.state || (s.state == Authing && was.state == Online))
    ensures Ok(g, g.(sessions := g.sessions[id := s]))
  {
    var g' := g.(sessions := g.sessions[id := s]);
    assert SessionOk(g, id);
    forall i | i in g.sessions ensures SessionOk(g', i) { assert SessionOk(g, i); }
  }

  lemma NotifyOk(g: Gate, id: int, msgId: int)
    requires Inv(g) && id in g.sessions
    ensures Ok(g, Notify(g, id, msgId))
  {
    SameLinksOk(g, Notify(g, id, msgId));
  }

  lemma CloseOk(g: Gate, c: int)
    requires Inv(g)
    ensures Ok(g, CloseConn(g, c))
  {
    SameLinksOk(g, CloseConn(g, c));
  }

  /** A registered session detached and announced. */
  ghost function Dropped(g: Gate, id: int, now: int): Gate
    requires id in g.sessions
  {
    Notify(g.(sessions := g.sessions[id := Detached(g.sessions[id], now)]), id, MSG_PLAYER_OFFLINE_NOTIFY)
  }

  lemma DroppedOk(g: Gate, id: int, now: int)
    requires Inv(g) && id in g.bySession && now == g.clock
    ensures Ok(g, Dropped(g, id, now))
  {
    var s := g.sessions[id];
    assert SessionOk(g, id);
    var g' := Dropped(g, id, now);
    assert s.playerID != 0 && g.poolReady ==> g'.offered == g.offered + [OfflineNotice(s)];
    assert g'.sessions == g.sessions[id := Detached(s, now)] && g'.conns == g.conns;
    assert SessionQuiet(g, g', id) by {
      if s.playerID != 0 && g.poolReady { assert g'.offered[|g.offered|] == OfflineNotice(s); }
    }
    forall i | i in g'.sessions ensures SessionOk(g', i) { assert SessionOk(g, i); }
  }

  lemma TakeOfflineOk(g: Gate, id: int, now: int)
    requires Inv(g) && id in g.sessions && now == g.clock
    ensures Ok(g, TakeOffline(g, id, now))
  {
    var s := g.sessions[id];
    assert SessionOk(g, id);
    SameLinksOk(g, g);
    if !(s.state == Closed || (s.state == Offline && s.conn == None)) {
      var g1 := if s.conn.Some? then CloseConn(g, s.conn.value) else g;
      if s.conn.Some? { CloseOk(g, s.conn.value); }
      DroppedOk(g1, id, now);
      Chain(g, g1, Dropped(g1, id, now));
    }
  }

  lemma SendOk(g: Gate, c: int, msg: ClientMsg)
    requires Inv(g)
    ensures Ok(g, Send(g, c, msg))
  {
    SameLinksOk(g, Send(g, c, msg));
  }

  lemma SendToServiceOk(g: Gate, env: Envelope)
    requires Inv(g)
    ensures Ok(g, SendToService(g, env))
  {
    SameLinksOk(g, SendToService(g, env));
  }

  lemma ReplyOk(g: Gate, id: int, msgId: int, payload: seq<byte>)
    requires Inv(g)
    ensures Ok(g, Reply(g, id, msgId, payload))
  {
    SameLinksOk(g, g);
    if Registered(g, id) && g.sessions[id].conn.Some? {
      SendOk(g, g.sessions[id].conn.value, Forward(Envelope(msgId, id, g.sessions[id].playerID, payload)));
    }
  }

  lemma KickOk(g: Gate, id: int, now: int)
    requires Inv(g) && now == g.clock
    ensures Ok(g, Kick(g, id, now))
  {
    SameLinksOk(g, g);
    if Registered(g, id) { TakeOfflineOk(g, id, now); }
  }

  lemma EnrolledOk(g: Gate, c: int, s: Session)
    requires Inv(g) && c in g.conns && g.conns[c].sessionID == 0
    requires s.id == g.nextID + 1 && s.state == Online && s.conn == Some(c) && s.playerID == 0 && s.lastSeen <= g.clock
    ensures Inv(Enrolled(g, c, s))
  {
    var g' := Enrolled(g, c, s);
    forall i | i in g.sessions ensures i <= g.nextID { assert SessionOk(g, i); }
    forall i | i in g'.sessions ensures SessionOk(g', i) { if i != s.id { assert SessionOk(g, i); } }
  }

  lemma FirstLoginOk(g: Gate, c: int, env: Envelope, nonce: Option<seq<byte>>, now: int)
    requires Inv(g) && c in g.conns && g.conns[c].sessionID == 0 && now == g.clock
    ensures Inv(Enrolled(g, c, NewSession(g, c, nonce, g.clock)))
    ensures Ok(Enrolled(g, c, NewSession(g, c, nonce, g.clock)), FirstLogin(g, c, env, nonce, now))
  {
    var s := NewSession(g, c, nonce, g.clock);
    var id := s.id;
    var g0 := Enrolled(g, c, s);
    EnrolledOk(g, c, s);
    var g1 := CreateSession(g, c, nonce, now);
    SendOk(g0, c, SessionInit(id, s.token));
    var s' := CountLogin(s, g.cfg, now);
    var g2 := g1.(sessions := g1.sessions[id := s']);
    TouchOk(g1, id, s');
    Chain(g0, g1, g2);
    SendToServiceOk(g2, Envelope(env.msgId, id, 0, env.payload));
    Chain(g0, g2, SendToService(g2, Envelope(env.msgId, id, 0, env.payload)));
  }

  lemma OnHeartbeatOk(g: Gate, id: int, now: int)
    requires Inv(g) && now == g.clock
    ensures Ok(g, OnHeartbeat(g, id, now))
  {
    SameLinksOk(g, g);
    if Registered(g, id) {
      var g1 := g.(sessions := g.sessions[id := g.sessions[id].(lastSeen := now)]);
      TouchOk(g, id, g.sessions[id].(lastSeen := now));
      var g2 := if g.sessions[id].conn.Some? then MarkAlive(g1, g.sessions[id].conn.value, now) else g1;
      SameLinksOk(g1, g2);
      Chain(g, g1, g2);
      ReplyOk(g2, id, MSG_HEARTBEAT_RSP, []);
      Chain(g, g2, Reply(g2, id, MSG_HEARTBEAT_RSP, []));
    }
  }

  lemma CountedOk(g: Gate, id: int)
    requires Inv(g) && id in g.bySession
    ensures Ok(g, Counted(g, id)) && Counted(g, id).clock == g.clock && id in Counted(g, id).sessions
  {
    assert SessionOk(g, id);
    TouchOk(g, id, g.sessions[id].(unknownMsgCount := g.sessions[id].unknownMsgCount + 1));
  }

  lemma CountUnknownOk(g: Gate, id: int, now: int)
    requires Inv(g) && Registered(g, id) && now == g.clock
    ensures Ok(g, CountUnknown(g, id, now))
  {
    var g1 := Counted(g, id);
    CountedOk(g, id);
    TakeOfflineOk(g1, id, now);
    Chain(g, g1, TakeOffline(g1, id, now));
  }

  lemma RouteClientOk(g: Gate, id: int, env: Envelope, now: int)
    requires Inv(g) && Registered(g, id) && now == g.clock
    ensures Ok(g, RouteClient(g, id, env, now))
  {
    var s := g.sessions[id];
    assert SessionOk(g, id);
    if s.state == Online {
      SameLinksOk(g, g);
    } else if env.msgId == MSG_HEARTBEAT_REQ {
      OnHeartbeatOk(g, id, now);
    } else if GetRoute(env.msgId) == None {
      CountUnknownOk(g, id, now);
    } else {
      var g2 := g.(sessions := g.sessions[id := s.(lastSeen := now)]);
      TouchOk(g, id, s.(lastSeen := now));
      SendToServiceOk(g2, env);
      Chain(g, g2, SendToService(g2, env));
    }
  }

  lemma OnLoginReqOk(g: Gate, c: int, id: int, env: Envelope, now: int)
    requires Inv(g) && Registered(g, id) && now == g.clock
    ensures Ok(g, OnLoginReq(g, c, id, env, now))
  {
    assert SessionOk(g, id);
    var s := CountLogin(g.sessions[id], g.cfg, now);
    var g1 := g.(sessions := g.sessions[id := s]);
    TouchOk(g, id, s);
    KickOk(g1, id, now);
    Chain(g, g1, Kick(g1, id, now));
    RouteClientOk(g1, id, env, now);
    Chain(g, g1, RouteClient(g1, id, env, now));
    if s.state == Online {
      var s' := s.(state := Authing, authStart := now);
      var g2 := g1.(sessions := g1.sessions[id := s']);
      TouchOk(g1, id, s');
      Chain(g, g1, g2);
      RouteClientOk(g2, id, env, now);
      Chain(g, g2, RouteClient(g2, id, env, now));
    }
  }

  lemma MovedOk(g: Gate, c: int, id: int, now: int)
    requires Inv(g) && id in g.bySession && c in g.conns && g.conns[c].sessionID == 0 && now == g.clock
    ensures Inv(MoveTo(g, c, id, now))
  {
    var g' := MoveTo(g, c, id, now);
    forall i | i in g'.sessions ensures SessionOk(g', i) { assert SessionOk(g, i); }
  }

  lemma RebindOk(g: Gate, c: int, id: int, now: int)
    requires Inv(g) && Registered(g, id) && c in g.conns && g.conns[c].sessionID == 0 && now == g.clock
    ensures Ok(g, Displace(g, c, id)) && SameLinks(g, Displace(g, c, id))
    ensures Inv(MoveTo(Displace(g, c, id), c, id, now))
    ensures Ok(MoveTo(Displace(g, c, id), c, id, now), Rebind(g, c, id, now))
    ensures SameLinks(MoveTo(Displace(g, c, id), c, id, now), Rebind(g, c, id, now))
  {
    var s := g.sessions[id];
    var g1 := Displace(g, c, id);
    SameLinksOk(g, g);
    if s.conn.Some? { CloseOk(g, s.conn.value); }
    MovedOk(g1, c, id, now);
    AnswerOk(MoveTo(g1, c, id, now), c, id);
  }

  lemma AnswerOk(g: Gate, c: int, id: int)
    requires Inv(g) && id in g.sessions
    ensures Ok(g, AnswerResume(g, c, id)) && SameLinks(g, AnswerResume(g, c, id))
  {
    var g1 := Send(g, c, ResumeRsp(id, true, ""));
    SendOk(g, c, ResumeRsp(id, true, ""));
    NotifyOk(g1, id, MSG_PLAYER_RESUME_REQ);
    SameLinksOk(g, AnswerResume(g, c, id));
  }

  lemma RejectOk(g: Gate, c: int, reason: string)
    requires Inv(g)
    ensures Ok(g, Reject(g, c, reason))
  {
    var g1 := Send(g, c, ResumeRsp(0, false, reason));
    SendOk(g, c, ResumeRsp(0, false, reason));
    CloseOk(g1, c);
    Chain(g, g1, CloseConn(g1, c));
  }

  /** The session a resume request reconnects, None when the request is refused. */
  function Resumes(g: Gate, c: int, req: Option<ResumeReq>): Option<int>
    requires c in g.conns
  {
    if g.conns[c].sessionID != 0 || req == None then None
    else
      var id := req.value.sessionID;
      if && Registered(g, id) && Token.Verify(g.mac, id, g.sessions[id].token, req.value.token)
         && g.sessions[id].state != Authing && g.sessions[id].state != Closed
      then Some(id) else None
  }

  lemma AcceptedResume(g: Gate, c: int, req: Option<ResumeReq>, now: int)
    requires c in g.conns && Resumes(g, c, req).Some?
    ensures HandleResume(g, c, req, now) == Rebind(g, c, Resumes(g, c, req).value, now)
  {}

  lemma RefusedResumeOk(g: Gate, c: int, req: Option<ResumeReq>, now: int)
    requires Inv(g) && c in g.conns && now == g.clock && Resumes(g, c, req) == None
    ensures Ok(g, HandleResume(g, c, req, now))
  {
    CloseOk(g, c);
    RejectOk(g, c, "invalid session");
    RejectOk(g, c, "session authing");
    RejectOk(g, c, "session closed");
  }

  /** An envelope on a connection that already has a session. */
  lemma BoundEnvelopeOk(g: Gate, c: int, env: Envelope, req: Option<ResumeReq>, nonce: Option<seq<byte>>, now: int)
    requires Inv(g) && c in g.conns && now == g.clock
    requires env.msgId != MSG_RESUME_REQ && (g.conns[c].sessionID != 0 || env.msgId != MSG_LOGIN_REQ)
    ensures Ok(g, OnEnvelope(g, c, env, req, nonce, now))
  {
    var id := g.conns[c].sessionID;
    SameLinksOk(g, g);
    CloseOk(g, c);
    if id != 0 && Registered(g, id) {
      if env.msgId == MSG_LOGIN_REQ { OnLoginReqOk(g, c, id, env, now); } else { RouteClientOk(g, id, env, now); }
    }
  }

  lemma OnConnCloseOk(g: Gate, c: int, now: int)
    requires Inv(g) && c in g.conns && now == g.clock
    ensures Ok(g, OnConnClose(g, c, now))
  {
    var g0 := g.(conns := g.conns[c := g.conns[c].(reading := false)]);
    SameLinksOk(g, g0);
    var id := g.conns[c].sessionID;
    if Registered(g, id) {
      DroppedOk(g0, id, now);
      Chain(g, g0, Dropped(g0, id, now));
    }
  }

  /** A session bound to a player and authenticated. */
  ghost function Bound(g: Gate, id: int, playerID: int): Gate
    requires id in g.sessions
  {
    g.(sessions := g.sessions[id := g.sessions[id].(playerID := playerID, state := Authenticated)],
       byPlayer := g.byPlayer[playerID := id])
  }

  lemma BoundOk(g: Gate, id: int, playerID: int)
    requires Inv(g) && id in g.bySession
    ensures Inv(Bound(g, id, playerID))
  {
    var g' := Bound(g, id, playerID);
    assert SessionOk(g, id);
    forall i | i in g'.sessions ensures SessionOk(g', i) { assert SessionOk(g, i); }
  }

  /** The session a login displaces, already kicked. */
  ghost function Cleared(g: Gate, id: int, playerID: int, now: int): Gate {
    if playerID in g.byPlayer && g.byPlayer[playerID] != id then Kick(g, g.byPlayer[playerID], now) else g
  }

  /** What a kick does. */
  lemma KickLinks(g: Gate, id: int, now: int)
    requires Inv(g) && id in g.sessions
    ensures var r := Kick(g, id, now);
            var s := g.sessions[id];
            && (forall c :: SameBinding(g, r, c))
            && r.(conns := g.conns)
               == (if s.conn == None then g
                   else g.(sessions := g.sessions[id := Detached(s, now)],
                           offered := if s.playerID != 0 && g.poolReady then g.offered + [OfflineNotice(s)]
                                      else g.offered))
  {
    assert SessionOk(g, id);
  }

  lemma ClearedOk(g: Gate, id: int, playerID: int, now: int)
    requires Inv(g) && now == g.clock
    ensures Ok(g, Cleared(g, id, playerID, now))
  {
    SameLinksOk(g, g);
    if playerID in g.byPlayer { KickOk(g, g.byPlayer[playerID], now); }
  }

  /** Binding first and kicking the displaced session afterwards comes to the same as kicking first. */
  lemma OnLoginRspOk(g: Gate, id: int, playerID: int, now: int)
    requires Inv(g) && id in g.bySession && now == g.clock
    ensures Ok(g, Cleared(g, id, playerID, now)) && id in Cleared(g, id, playerID, now).sessions
    ensures Inv(Bound(Cleared(g, id, playerID, now), id, playerID))
    ensures SameLinks(Bound(Cleared(g, id, playerID, now), id, playerID), OnLoginRsp(g, id, Some(playerID), now))
  {
    var a := Cleared(g, id, playerID, now);
    ClearedOk(g, id, playerID, now);
    assert SessionQuiet(g, a, id);
    BoundOk(a, id, playerID);
    TakeOverCommutes(g, id, playerID, now);
    AuthenticateLinks(a, id, playerID);
  }

  lemma TakeOverCommutes(g: Gate, id: int, playerID: int, now: int)
    requires Inv(g) && id in g.bySession
    ensures id in Cleared(g, id, playerID, now).sessions
    ensures TakeOver(g, id, playerID, now) == BindPlayer(Cleared(g, id, playerID, now), id, playerID)
  {
    if playerID in g.byPlayer && g.byPlayer[playerID] != id {
      KickCommutes(g, id, playerID, g.byPlayer[playerID], now);
    }
  }

  lemma AuthenticateLinks(a: Gate, id: int, playerID: int)
    requires id in a.sessions
    ensures SameLinks(Bound(a, id, playerID), Authenticate(BindPlayer(a, id, playerID), id, playerID))
  {}

  /** Kicking another session does not see the player ID just written. */
  lemma KickCommutes(g: Gate, id: int, playerID: int, prev: int, now: int)
    requires Inv(g) && id in g.sessions && prev in g.sessions && id != prev
    ensures var k := Kick(g, prev, now);
            id in k.sessions && Kick(BindPlayer(g, id, playerID), prev, now) == BindPlayer(k, id, playerID)
  {
    var k := Kick(g, prev, now);
    var b := BindPlayer(g, id, playerID);
    var kb := Kick(b, prev, now);
    assert SessionOk(g, prev);
    assert b.sessions[prev] == g.sessions[prev];
    if g.sessions[prev].conn.Some? && prev in g.bySession {
      assert kb.sessions == b.sessions[prev := Detached(g.sessions[prev], now)];
      assert k.sessions == g.sessions[prev := Detached(g.sessions[prev], now)];
      assert kb.sessions == k.sessions[id := k.sessions[id].(playerID := playerID)];
      assert kb.conns == k.conns && kb.offered == k.offered && kb.byPlayer == k.byPlayer[playerID := id];
    }
  }

  /** The session and player a service envelope binds, None when it is no accepted login. */
  function Binds(g: Gate, env: Envelope, rsp: Option<int>): Option<(int, int)> {
    if env.msgId == MSG_LOGIN_RSP && Registered(g, env.sessionId) && rsp.Some?
    then Some((env.sessionId, rsp.value)) else None
  }

  lemma OtherServiceOk(g: Gate, env: Envelope, rsp: Option<int>, now: int)
    requires Inv(g) && now == g.clock && Binds(g, env, rsp) == None
    ensures Ok(g, OnServiceEnvelope(g, env, rsp, now))
  {
    SameLinksOk(g, g);
    ReplyOk(g, env.sessionId, env.msgId, env.payload);
  }

  lemma LoginServiceOk(g: Gate, env: Envelope, rsp: Option<int>, now: int)
    requires Inv(g) && now == g.clock && Binds(g, env, rsp).Some?
    ensures Ok(g, Cleared(g, env.sessionId, rsp.value, now))
    ensures env.sessionId in Cleared(g, env.sessionId, rsp.value, now).sessions
    ensures Inv(Bound(Cleared(g, env.sessionId, rsp.value, now), env.sessionId, rsp.value))
    ensures Ok(Bound(Cleared(g, env.sessionId, rsp.value, now), env.sessionId, rsp.value),
               OnServiceEnvelope(g, env, rsp, now))
  {
    var b := Bound(Cleared(g, env.sessionId, rsp.value, now), env.sessionId, rsp.value);
    var g1 := OnLoginRsp(g, env.sessionId, rsp, now);
    OnLoginRspOk(g, env.sessionId, rsp.value, now);
    SameLinksOk(b, g1);
    ReplyOk(g1, env.sessionId, env.msgId, env.payload);
    Chain(b, g1, Reply(g1, env.sessionId, env.msgId, env.payload));
  }

  lemma TakeOfflineClock(g: Gate, id: int, now: int)
    requires id in g.sessions
    ensures TakeOffline(g, id, now).clock == g.clock
  {}

  lemma {:induction false} HeartbeatPassOk(g: Gate, order: seq<int>, now: int)
    requires Inv(g) && now == g.clock
    ensures Ok(g, HeartbeatPass(g, order, now)) && HeartbeatPass(g, order, now).clock == now
  {
    SameLinksOk(g, g);
    if order != [] {
      var id := order[|order| - 1];
      var g1 := HeartbeatPass(g, order[..|order| - 1], now);
      HeartbeatPassOk(g, order[..|order| - 1], now);
      if HeartbeatExpired(g1, id, now) {
        TakeOfflineOk(g1, id, now);
        TakeOfflineClock(g1, id, now);
        Chain(g, g1, TakeOffline(g1, id, now));
      }
    }
  }

  lemma {:induction false} AuthingPassOk(g: Gate, order: seq<int>, now: int)
    requires Inv(g) && now == g.clock
    ensures Ok(g, CheckAuthingTimeout(g, order, now)) && CheckAuthingTimeout(g, order, now).clock == now
  {
    SameLinksOk(g, g);
    if order != [] {
      var id := order[|order| - 1];
      var g1 := CheckAuthingTimeout(g, order[..|order| - 1], now);
      AuthingPassOk(g, order[..|order| - 1], now);
      if AuthingExpired(g1, id, now) {
        TakeOfflineOk(g1, id, now);
        TakeOfflineClock(g1, id, now);
        Chain(g, g1, TakeOffline(g1, id, now));
      }
    }
  }

}
