/** The gate as the program keeps it: sessions and connections are objects updated in place, proved against
    GateModel. */
module Gate {
  import opened Prelude
  import opened Protocol
  import M = GateModel
  import Token

  class Conn {
    ghost const key: int
    const connType: M.ConnType
    const connectedAt: int
    var sessionID: int
    var sendCh: seq<M.ClientMsg>
    var busyCount: nat
    var closed: bool
    var reading: bool
    var lastSeen: int

    ghost function Value(): M.Conn
      reads this
    {
      M.Conn(connType, sessionID, sendCh, busyCount, closed, reading, connectedAt, lastSeen)
    }

    constructor (ghost key: int, connType: M.ConnType, now: int)
      ensures this.key == key && Value() == M.Conn(connType, 0, [], 0, false, true, now, now)
    {
      this.key, this.connType, connectedAt, lastSeen := key, connType, now, now;
      sessionID, sendCh, busyCount, closed, reading := 0, [], 0, false, true;
    }

    function LastAlive(): (t: int)
      reads this
      ensures t == M.LastAlive(Value())
    {
      if lastSeen == 0 then connectedAt else lastSeen
    }

    method Close()
      modifies `closed
      ensures Value() == old(Value()).(closed := true)
    {
      closed := true;
    }

    method Send(msg: M.ClientMsg)
      modifies `sendCh, `busyCount, `closed
      ensures Value() == M.Enqueued(old(Value()), msg)
    {
      if |sendCh| < M.SEND_CAPACITY {
        sendCh := sendCh + [msg];
      } else {
        busyCount := (busyCount + 1) % M.UINT32_RANGE;
        if busyCount >= 5 { Close(); }
      }
    }

    /** One round of the writer; `ok` is the outcome of the write. */
    method WriteNext(ok: bool)
      requires |sendCh| > 0
      modifies `sendCh, `closed
      ensures Value() == M.WriteNext(old(Value()), ok)
    {
      sendCh := sendCh[1..];
      if !ok { Close(); }
    }
  }

  class Session {
    const id: int
    const token: string
    var playerID: int
    var state: M.SessionState
    var conn: Conn?
    var lastSeen: int
    var authStart: int
    var loginWindowStart: Option<int>
    var loginAttempts: int
    var unknownMsgCount: int

    ghost function Value(): M.Session
      reads this
    {
      M.Session(id, playerID, token, state, if conn == null then None else Some(conn.key),
                lastSeen, authStart, loginWindowStart, loginAttempts, unknownMsgCount)
    }

    constructor (id: int, token: string, conn: Conn, now: int)
      ensures this.conn == conn && Value() == M.Session(id, 0, token, M.Online, Some(conn.key), now, 0, None, 0, 0)
    {
      this.id, this.token, playerID, state, this.conn, lastSeen := id, token, 0, M.Online, conn, now;
      authStart, loginWindowStart, loginAttempts, unknownMsgCount := 0, None, 0, 0;
    }

    /** Count one login attempt and say whether it is within the limit. */
    method AllowLogin(cfg: M.Config, now: int) returns (ok: bool)
      modifies `loginWindowStart, `loginAttempts
      ensures Value() == M.CountLogin(old(Value()), cfg, now)
      ensures ok == M.LoginAllowed(Value(), cfg)
    {
      if cfg.loginRateLimitCount <= 0 { return true; }
      if loginWindowStart == None || now - loginWindowStart.value > cfg.loginRateLimitWindow {
        loginWindowStart := Some(now);
        loginAttempts := 0;
      }
      loginAttempts := loginAttempts + 1;
      return loginAttempts <= cfg.loginRateLimitCount;
    }
  }

  /** The session the index has for the player, if any. */
  function Holder(byPlayer: map<int, Session>, playerID: int): Session? {
    if playerID in byPlayer then byPlayer[playerID] else null
  }

  class SessionManager {
    var bySession: map<int, Session>
    var byPlayer: map<int, Session>

    constructor ()
      ensures bySession == map[] && byPlayer == map[]
    {
      bySession, byPlayer := map[], map[];
    }

    method Add(s: Session)
      modifies `bySession
      ensures bySession == old(bySession)[s.id := s]
    {
      bySession := bySession[s.id := s];
    }

    function Get(id: int): (s: Session?)
      reads this
      ensures s == null <==> id !in bySession
      ensures s != null ==> bySession[id] == s
    {
      if id in bySession then bySession[id] else null
    }

    /** The sessions registered, in whatever order the map yields them. */
    method Snapshot() returns (items: seq<Session>)
      requires forall id | id in bySession :: bySession[id].id == id
      ensures forall i | 0 <= i < |items| :: items[i].id in bySession && bySession[items[i].id] == items[i]
      ensures forall i, j | 0 <= i < j < |items| :: items[i].id != items[j].id
      ensures forall id | id in bySession :: bySession[id] in items
    {
      items := [];
      var todo := bySession.Keys;
      while todo != {}
        invariant todo <= bySession.Keys
        invariant forall i | 0 <= i < |items| ::
                    items[i].id in bySession && items[i].id !in todo && bySession[items[i].id] == items[i]
        invariant forall i, j | 0 <= i < j < |items| :: items[i].id != items[j].id
        invariant forall id | id in bySession :: id in todo || bySession[id] in items
        decreases todo
      {
        var id := Pick(todo);
        items := items + [bySession[id]];
        todo := todo - {id};
      }
    }

    /** The GC's visit to one session: close it if it has been Offline for too long, and drop it from both
        indexes, whoever its player's entry belongs to. */
    method CollectOne(s: Session, timeout: int, now: int)
      modifies this, s`state
      ensures if old(s.state) == M.Offline && now - s.lastSeen > timeout then
                && s.state == M.Closed && bySession == old(bySession) - {s.id}
                && byPlayer == if s.playerID != 0 then old(byPlayer) - {s.playerID} else old(byPlayer)
              else s.state == old(s.state) && bySession == old(bySession) && byPlayer == old(byPlayer)
    {
      if s.state == M.Offline && now - s.lastSeen > timeout {
        s.state := M.Closed;
        if s.playerID != 0 { byPlayer := byPlayer - {s.playerID}; }
        bySession := bySession - {s.id};
      }
    }

    /** Bind the player to the session and report who held it. */
    method BindPlayer(s: Session, playerID: int) returns (prev: Session?)
      modifies `byPlayer, s`playerID
      ensures s.playerID == playerID && byPlayer == old(byPlayer)[playerID := s]
      ensures prev == Holder(old(byPlayer), playerID)
    {
      prev := Holder(byPlayer, playerID);
      s.playerID := playerID;
      byPlayer := byPlayer[playerID := s];
    }
  }

  class Gate {
    const sessions: SessionManager
    const mac: Token.Mac
    const poolReady: bool
    var nextID: int
    var cfg: M.Config
    var offered: seq<Envelope>
    ghost var clock: int
    ghost var all: map<int, Session>
    ghost var conns: map<int, Conn>

    ghost function Repr(): set<object>
      reads this
    {
      {this, sessions} + all.Values + conns.Values
    }

    ghost predicate Valid()
      reads Repr()
    {
      && (forall id | id in all :: all[id].id == id && id <= nextID)
      && (forall k | k in conns :: conns[k].key == k)
      && (forall id | id in all && all[id].conn != null :: Attached(all[id].conn))
      && (forall id | id in sessions.bySession :: id in all && sessions.bySession[id] == all[id])
      && (forall p | p in sessions.byPlayer :: Known(sessions.byPlayer[p]))
    }

    ghost predicate Known(s: Session)
      reads this
    {
      s.id in all && all[s.id] == s
    }

    ghost predicate Attached(c: Conn)
      reads this
    {
      c.key in conns && conns[c.key] == c
    }

    ghost function SessionValues(): map<int, M.Session>
      reads `all, all.Values
    {
      map id | id in all :: all[id].Value()
    }

    ghost function ConnValues(): map<int, M.Conn>
      reads `conns, conns.Values
    {
      map k | k in conns :: conns[k].Value()
    }

    ghost function PlayerIDs(): map<int, int>
      reads sessions`byPlayer
    {
      map p | p in sessions.byPlayer :: sessions.byPlayer[p].id
    }

    /** The state of the machine this gate is in. */
    ghost function View(): M.Gate
      reads Repr()
    {
      M.Gate(SessionValues(), ConnValues(), sessions.bySession.Keys, PlayerIDs(),
             nextID, clock, cfg, mac, poolReady, offered)
    }

    constructor (mac: Token.Mac, cfg: M.Config, poolReady: bool, ghost now: int)
      ensures Valid() && fresh(Repr())
      ensures View() == M.Start(mac, cfg, poolReady, now)
    {
      sessions := new SessionManager();
      this.mac, this.cfg, this.poolReady, nextID, offered := mac, cfg, poolReady, 0, [];
      clock, all, conns := now, map[], map[];
      new;
      assert View().sessions == map[];
      assert View().conns == map[];
      assert View().byPlayer == map[];
    }

    // ---------- one object at a time ----------

    /** Only connection `c` was written. */
    twostate lemma ConnWritten(c: Conn)
      requires old(Valid()) && old(Attached(c)) && unchanged(this) && unchanged(sessions)
      requires forall id | id in all :: unchanged(all[id])
      requires forall k | k in conns && conns[k] != c :: unchanged(conns[k])
      ensures Valid() && View() == old(View()).(conns := old(View()).conns[c.key := c.Value()])
    {
      forall id | id in all ensures all[id].Value() == old(all[id].Value()) { assert unchanged(all[id]); }
      assert SessionValues() == old(SessionValues());
      forall k | k in conns && k != c.key ensures conns[k].Value() == old(conns[k].Value()) {
        assert unchanged(conns[k]);
      }
      assert ConnValues() == old(ConnValues())[c.key := c.Value()];
    }

    /** Only session `s` was written. */
    twostate lemma SessionWritten(s: Session)
      requires old(Valid()) && old(Known(s)) && unchanged(this) && unchanged(sessions)
      requires forall id | id in all && all[id] != s :: unchanged(all[id])
      requires forall k | k in conns :: unchanged(conns[k])
      requires s.conn != null ==> Attached(s.conn)
      ensures Valid() && View() == old(View()).(sessions := old(View()).sessions[s.id := s.Value()])
    {
      forall k | k in conns ensures conns[k].Value() == old(conns[k].Value()) { assert unchanged(conns[k]); }
      assert ConnValues() == old(ConnValues());
      forall id | id in all && id != s.id ensures all[id].Value() == old(all[id].Value()) { assert unchanged(all[id]); }
      assert SessionValues() == old(SessionValues())[s.id := s.Value()];
    }

    method CloseConn(c: Conn)
      requires Valid() && Attached(c)
      modifies c
      ensures Valid() && View() == M.CloseConn(old(View()), c.key)
    {
      c.Close();
      ConnWritten(c);
    }

    method Send(c: Conn, msg: M.ClientMsg)
      requires Valid() && Attached(c)
      modifies c
      ensures Valid() && View() == M.Send(old(View()), c.key, msg)
    {
      c.Send(msg);
      ConnWritten(c);
    }

    method MarkAlive(c: Conn, now: int)
      requires Valid() && Attached(c)
      modifies c
      ensures Valid() && View() == M.MarkAlive(old(View()), c.key, now)
    {
      c.lastSeen := now;
      ConnWritten(c);
    }

    method SendToService(env: Envelope)
      requires Valid()
      modifies `offered
      ensures Valid() && View() == M.SendToService(old(View()), env)
    {
      if !poolReady { return; }
      var s := sessions.Get(env.sessionId);
      var stamped := if s != null then env.(playerId := s.playerID) else env;
      offered := offered + [stamped];
    }

    method Notify(s: Session, msgId: int)
      requires Valid() && Known(s)
      modifies `offered
      ensures Valid() && View() == M.Notify(old(View()), s.id, msgId)
    {
      if s.playerID == 0 { return; }
      SendToService(Envelope(msgId, s.id, s.playerID, []));
    }

    method Reply(id: int, msgId: int, payload: seq<byte>)
      requires Valid()
      modifies conns.Values
      ensures Valid() && View() == M.Reply(old(View()), id, msgId, payload)
    {
      var s := sessions.Get(id);
      if s == null || s.conn == null { return; }
      Send(s.conn, M.Forward(Envelope(msgId, id, s.playerID, payload)));
    }

    // ---------- going offline ----------

    method Detach(s: Session, now: int)
      requires Valid() && Known(s)
      modifies s
      ensures Valid()
      ensures View() == old(View()).(sessions := old(View()).sessions[s.id := M.Detached(old(s.Value()), now)])
    {
      s.conn := null;
      s.lastSeen := now;
      s.state := M.Offline;
      SessionWritten(s);
    }

    method OnSessionOffline(s: Session, now: int)
      requires Valid() && Known(s)
      modifies `offered, s, conns.Values
      ensures Valid() && View() == M.TakeOffline(old(View()), s.id, now)
    {
      if s.state == M.Closed { return; }
      if s.state == M.Offline && s.conn == null { return; }
      if s.conn != null { CloseConn(s.conn); }
      var wasOnline := s.state != M.Offline;
      Detach(s, now);
      if wasOnline { Notify(s, MSG_PLAYER_OFFLINE_NOTIFY); }
    }

    method Kick(id: int, now: int)
      requires Valid()
      modifies `offered, all.Values, conns.Values
      ensures Valid() && View() == M.Kick(old(View()), id, now)
    {
      var s := sessions.Get(id);
      if s == null || s.conn == null { return; }
      OnSessionOffline(s, now);
    }

    method OnConnClose(c: Conn, now: int)
      requires Valid() && Attached(c)
      modifies `offered, all.Values, conns.Values
      ensures Valid() && View() == M.OnConnClose(old(View()), c.key, now)
    {
      c.reading := false;
      ConnWritten(c);
      var s := sessions.Get(c.sessionID);
      if s == null { return; }
      Detach(s, now);
      Notify(s, MSG_PLAYER_OFFLINE_NOTIFY);
    }

    // ---------- client envelopes ----------

    /** A session the manager has just learnt of, attached to connection `c`. */
    method Register(s: Session, c: Conn)
      requires Valid() && Attached(c) && s.id !in all && s.id <= nextID && s.conn == c && s !in all.Values
      modifies `all, sessions`bySession, c`sessionID
      ensures Valid() && all == old(all)[s.id := s]
      ensures View() == old(View()).(sessions := old(View()).sessions[s.id := s.Value()],
                                     bySession := old(View()).bySession + {s.id},
                                     conns := old(View()).conns[c.key := old(c.Value()).(sessionID := s.id)])
    {
      c.sessionID := s.id;
      ConnWritten(c);
      label written:
      sessions.Add(s);
      all := all[s.id := s];
      Registered@written(s);
    }

    /** Only session `s` was added. */
    twostate lemma Registered(new s: Session)
      requires old(Valid()) && s.id !in old(all) && s.id <= nextID && s !in old(all).Values
      requires all == old(all)[s.id := s]
      requires sessions.bySession == old(sessions.bySession)[s.id := s] && sessions.byPlayer == old(sessions.byPlayer)
      requires nextID == old(nextID) && cfg == old(cfg) && offered == old(offered) && clock == old(clock)
      requires conns == old(conns)
      requires forall id | id in old(all) :: unchanged(old(all)[id])
      requires forall k | k in conns :: unchanged(conns[k])
      requires s.conn != null && Attached(s.conn)
      ensures Valid()
      ensures View() == old(View()).(sessions := old(View()).sessions[s.id := s.Value()],
                                     bySession := old(View()).bySession + {s.id})
    {
      forall id | id in old(all) ensures all[id].Value() == old(all[id].Value()) && all[id].conn == old(all[id].conn) {
        assert unchanged(old(all)[id]);
      }
      forall k | k in conns ensures conns[k].Value() == old(conns[k].Value()) { assert unchanged(conns[k]); }
      assert SessionValues() == old(SessionValues())[s.id := s.Value()];
      assert ConnValues() == old(ConnValues());
      assert PlayerIDs() == old(PlayerIDs());
    }

    /** A session nobody knows of yet. */
    method NewSession(c: Conn, nonce: Option<seq<byte>>, now: int) returns (s: Session)
      requires Valid()
      modifies `nextID
      ensures Valid() && View() == old(View()).(nextID := nextID) && nextID == old(nextID) + 1
      ensures fresh(s) && s !in all.Values && s.id !in all && s.conn == c
      ensures var token := Token.Mint(mac, nextID, nonce);
              s.Value() == M.Session(nextID, 0, token, M.Online, Some(c.key), now, 0, None, 0, 0)
    {
      nextID := nextID + 1;
      s := new Session(nextID, Token.Mint(mac, nextID, nonce), c, now);
      assert View() == old(View()).(nextID := nextID);
    }

    /** A new session on the connection, registered. */
    method Enrol(c: Conn, nonce: Option<seq<byte>>, now: int) returns (s: Session)
      requires Valid() && Attached(c)
      modifies `nextID, `all, sessions`bySession, c`sessionID
      ensures Valid() && Known(s) && fresh(s) && all == old(all)[s.id := s]
      ensures fresh(all.Values - old(all.Values))
      ensures s.Value() == M.NewSession(old(View()), c.key, nonce, now) && s.id == nextID
      ensures c.key in old(View()).conns && View() == M.Enrolled(old(View()), c.key, s.Value())
    {
      s := NewSession(c, nonce, now);
      Register(s, c);
    }

    method CreateSessionForConn(c: Conn, nonce: Option<seq<byte>>, now: int) returns (s: Session)
      requires Valid() && Attached(c)
      modifies `nextID, `all, sessions`bySession, c
      ensures Valid() && Known(s) && fresh(s) && all == old(all)[s.id := s]
      ensures fresh(all.Values - old(all.Values))
      ensures s.id == nextID && View() == M.CreateSession(old(View()), c.key, nonce, now)
    {
      s := Enrol(c, nonce, now);
      Send(c, M.SessionInit(s.id, s.token));
    }

    method FirstLogin(c: Conn, env: Envelope, nonce: Option<seq<byte>>, now: int)
      requires Valid() && Attached(c)
      modifies `nextID, `all, `offered, sessions`bySession, c
      ensures Valid() && fresh(all.Values - old(all.Values))
      ensures View() == M.FirstLogin(old(View()), c.key, env, nonce, now)
    {
      var s := CreateSessionForConn(c, nonce, now);
      OfferLogin(s, env, now);
    }

    method OfferLogin(s: Session, env: Envelope, now: int)
      requires Valid() && Known(s)
      modifies `offered, s`loginWindowStart, s`loginAttempts
      ensures Valid() && View() == M.OfferLogin(old(View()), s.id, env, now)
    {
      assert View().sessions[s.id] == s.Value();
      var ok := CountLogin(s, now);
      if !ok { return; }
      SendToService(Envelope(env.msgId, s.id, 0, env.payload));
    }

    method CountLogin(s: Session, now: int) returns (ok: bool)
      requires Valid() && Known(s)
      modifies s`loginWindowStart, s`loginAttempts
      ensures Valid() && ok == M.LoginAllowed(s.Value(), cfg)
      ensures View() == old(View()).(sessions := old(View()).sessions[s.id := M.CountLogin(old(s.Value()), cfg, now)])
    {
      ok := s.AllowLogin(cfg, now);
      SessionWritten(s);
    }

    method Seen(s: Session, now: int)
      requires Valid() && Known(s)
      modifies s`lastSeen
      ensures Valid()
      ensures View() == old(View()).(sessions := old(View()).sessions[s.id := old(s.Value()).(lastSeen := now)])
    {
      s.lastSeen := now;
      SessionWritten(s);
    }

    method OnHeartbeat(id: int, now: int)
      requires Valid()
      modifies all.Values, conns.Values
      ensures Valid() && View() == M.OnHeartbeat(old(View()), id, now)
    {
      var s := sessions.Get(id);
      if s == null { return; }
      Refresh(s, now);
      Reply(id, MSG_HEARTBEAT_RSP, []);
    }

    method Refresh(s: Session, now: int)
      requires Valid() && Known(s)
      modifies s`lastSeen, conns.Values
      ensures Valid() && View() == M.Refreshed(old(View()), s.id, now)
    {
      Seen(s, now);
      if s.conn != null { MarkAlive(s.conn, now); }
    }

    method OneMoreUnknown(s: Session)
      requires Valid() && Known(s)
      modifies s`unknownMsgCount
      ensures Valid() && View() == M.Counted(old(View()), s.id)
    {
      s.unknownMsgCount := s.unknownMsgCount + 1;
      SessionWritten(s);
    }

    method CountUnknown(s: Session, now: int)
      requires Valid() && Known(s)
      modifies `offered, s, conns.Values
      ensures Valid() && View() == M.CountUnknown(old(View()), s.id, now)
    {
      OneMoreUnknown(s);
      if cfg.unknownMsgKickCount > 0 && s.unknownMsgCount >= cfg.unknownMsgKickCount { OnSessionOffline(s, now); }
    }

    method RouteClient(s: Session, env: Envelope, now: int)
      requires Valid() && Known(s)
      modifies `offered, all.Values, conns.Values
      ensures Valid() && View() == M.RouteClient(old(View()), s.id, env, now)
    {
      if s.state == M.Online { return; }
      if env.msgId == MSG_HEARTBEAT_REQ {
        OnHeartbeat(s.id, now);
        return;
      }
      if GetRoute(env.msgId) == None {
        CountUnknown(s, now);
        return;
      }
      Seen(s, now);
      SendToService(env);
    }

    method BeginAuth(s: Session, now: int)
      requires Valid() && Known(s)
      modifies s`state, s`authStart
      ensures Valid()
      ensures var s' := old(s.Value()).(state := M.Authing, authStart := now);
              View() == old(View()).(sessions := old(View()).sessions[s.id := s'])
    {
      s.state := M.Authing;
      s.authStart := now;
      SessionWritten(s);
    }

    method OnLoginReq(c: Conn, s: Session, env: Envelope, now: int)
      requires Valid() && Known(s) && Attached(c)
      modifies `offered, all.Values, conns.Values
      ensures Valid() && View() == M.OnLoginReq(old(View()), c.key, s.id, env, now)
    {
      var ok := CountLogin(s, now);
      if ok { ContinueLogin(c, s, env, now); }
    }

    method ContinueLogin(c: Conn, s: Session, env: Envelope, now: int)
      requires Valid() && Known(s) && Attached(c)
      modifies `offered, all.Values, conns.Values
      ensures Valid() && View() == M.ContinueLogin(old(View()), c.key, s.id, env, now)
    {
      match s.state {
        case Authenticated =>
          if s.conn != c { Kick(s.id, now); }
          return;
        case Online => BeginAuth(s, now);
        case Authing => return;
        case _ =>
      }
      RouteClient(s, env, now);
    }

    method Reject(c: Conn, reason: string)
      requires Valid() && Attached(c)
      modifies c
      ensures Valid() && View() == M.Reject(old(View()), c.key, reason)
    {
      Send(c, M.ResumeRsp(0, false, reason));
      CloseConn(c);
    }

    method MoveTo(s: Session, c: Conn, now: int)
      requires Valid() && Known(s) && Attached(c)
      modifies s, c`sessionID
      ensures Valid() && s.playerID == old(s.playerID)
      ensures View() == M.MoveTo(old(View()), c.key, s.id, now)
    {
      s.conn := c;
      s.lastSeen := now;
      s.state := if s.playerID != 0 then M.Authenticated else M.Online;
      SessionWritten(s);
      label moved:
      c.sessionID := s.id;
      ConnWritten@moved(c);
    }

    method Displace(s: Session, c: Conn)
      requires Valid() && Known(s) && Attached(c)
      modifies conns.Values
      ensures Valid()
      ensures View() == M.Displace(old(View()), c.key, s.id)
    {
      if s.conn != null && s.conn != c { CloseConn(s.conn); }
    }

    method ClearKickLimit()
      requires Valid()
      modifies `cfg
      ensures Valid() && View() == old(View()).(cfg := old(cfg).(unknownMsgKickCount := 0))
    {
      cfg := cfg.(unknownMsgKickCount := 0);
    }

    method NotifyResume(s: Session)
      requires Valid() && Known(s)
      modifies `offered
      ensures Valid()
      ensures View() == if s.playerID != 0 then M.Notify(old(View()), s.id, MSG_PLAYER_RESUME_REQ) else old(View())
    {
      if s.playerID != 0 { Notify(s, MSG_PLAYER_RESUME_REQ); }
    }

    method AnswerResume(s: Session, c: Conn)
      requires Valid() && Known(s) && Attached(c)
      modifies `offered, `cfg, c
      ensures Valid()
      ensures View() == M.AnswerResume(old(View()), c.key, s.id)
    {
      Send(c, M.ResumeRsp(s.id, true, ""));
      NotifyResume(s);
      ClearKickLimit();
    }

    method Rebind(s: Session, c: Conn, now: int)
      requires Valid() && Known(s) && Attached(c)
      modifies `offered, `cfg, s, conns.Values
      ensures Valid() && View() == M.Rebind(old(View()), c.key, s.id, now)
    {
      Reattach(s, c, now);
      AnswerResume(s, c);
    }

    method Reattach(s: Session, c: Conn, now: int)
      requires Valid() && Known(s) && Attached(c)
      modifies s, conns.Values
      ensures Valid() && View() == M.MoveTo(M.Displace(old(View()), c.key, s.id), c.key, s.id, now)
    {
      Displace(s, c);
      MoveTo(s, c, now);
    }

    method HandleResume(c: Conn, req: Option<M.ResumeReq>, now: int)
      requires Valid() && Attached(c)
      modifies `offered, `cfg, all.Values, conns.Values
      ensures Valid() && View() == M.HandleResume(old(View()), c.key, req, now)
    {
      if c.sessionID != 0 || req == None {
        CloseConn(c);
        return;
      }
      var s := sessions.Get(req.value.sessionID);
      if s == null || !Token.Verify(mac, s.id, s.token, req.value.token) {
        Reject(c, "invalid session");
        return;
      }
      ResumeKnown(s, c, now);
    }

    method ResumeKnown(s: Session, c: Conn, now: int)
      requires Valid() && Known(s) && Attached(c)
      modifies `offered, `cfg, s, conns.Values
      ensures Valid() && View() == M.ResumeKnown(old(View()), c.key, s.id, now)
    {
      match s.state {
        case Authing => Reject(c, "session authing");
        case Closed => Reject(c, "session closed");
        case _ => Rebind(s, c, now);
      }
    }

    method OnSessionEnvelope(c: Conn, env: Envelope, now: int)
      requires Valid() && Attached(c)
      modifies `offered, all.Values, conns.Values
      ensures Valid() && View() == M.OnSessionEnvelope(old(View()), c.key, old(c.sessionID), env, now)
    {
      var s := sessions.Get(c.sessionID);
      if s == null {
        CloseConn(c);
        return;
      }
      if s.state == M.Offline { return; }
      if env.msgId == MSG_LOGIN_REQ { OnLoginReq(c, s, env, now); } else { RouteClient(s, env, now); }
    }

    method OnEnvelope(c: Conn, env: Envelope, req: Option<M.ResumeReq>, nonce: Option<seq<byte>>, now: int)
      requires Valid() && Attached(c)
      modifies `nextID, `all, `offered, `cfg, sessions`bySession, all.Values, conns.Values
      ensures Valid() && fresh(all.Values - old(all.Values))
      ensures View() == M.OnEnvelope(old(View()), c.key, env, req, nonce, now)
    {
      if env.msgId == MSG_RESUME_REQ {
        HandleResume(c, req, now);
      } else if c.sessionID != 0 {
        OnSessionEnvelope(c, env, now);
      } else if env.msgId != MSG_LOGIN_REQ {
        CloseConn(c);
      } else {
        FirstLogin(c, env, nonce, now);
      }
    }

    // ---------- service envelopes ----------

    method BindPlayer(s: Session, playerID: int) returns (prev: Session?)
      requires Valid() && Known(s)
      modifies sessions`byPlayer, s`playerID
      ensures Valid() && View() == M.BindPlayer(old(View()), s.id, playerID)
      ensures prev == Holder(old(sessions.byPlayer), playerID)
    {
      prev := sessions.BindPlayer(s, playerID);
      OthersKept(s);
      assert PlayerIDs() == old(PlayerIDs())[playerID := s.id];
    }

    /** No other session and no connection was written. */
    twostate lemma OthersKept(s: Session)
      requires old(Valid()) && old(Known(s)) && all == old(all) && conns == old(conns)
      requires forall id | id in all && all[id] != s :: unchanged(all[id])
      requires forall k | k in conns :: unchanged(conns[k])
      ensures SessionValues() == old(SessionValues())[s.id := s.Value()] && ConnValues() == old(ConnValues())
    {
      forall k | k in conns ensures conns[k].Value() == old(conns[k].Value()) { assert unchanged(conns[k]); }
      forall id | id in all && id != s.id ensures all[id].Value() == old(all[id].Value()) { assert unchanged(all[id]); }
    }

    method TakeOver(s: Session, playerID: int, now: int)
      requires Valid() && Known(s)
      modifies `offered, sessions`byPlayer, all.Values, conns.Values
      ensures Valid() && View() == M.TakeOver(old(View()), s.id, playerID, now)
    {
      var prev := BindPlayer(s, playerID);
      if prev != null && prev.id != s.id { Kick(prev.id, now); }
    }

    method Authenticate(s: Session, playerID: int)
      requires Valid() && Known(s)
      modifies `cfg, s`playerID, s`state
      ensures Valid() && View() == M.Authenticate(old(View()), s.id, playerID)
    {
      Identify(s, playerID);
      ClearKickLimit();
    }

    method Identify(s: Session, playerID: int)
      requires Valid() && Known(s)
      modifies s`playerID, s`state
      ensures Valid()
      ensures var s' := old(s.Value()).(playerID := playerID, state := M.Authenticated);
              View() == old(View()).(sessions := old(View()).sessions[s.id := s'])
    {
      s.playerID := playerID;
      s.state := M.Authenticated;
      SessionWritten(s);
    }

    method OnLoginRsp(id: int, rsp: Option<int>, now: int)
      requires Valid()
      modifies `offered, `cfg, sessions`byPlayer, all.Values, conns.Values
      ensures Valid() && View() == M.OnLoginRsp(old(View()), id, rsp, now)
    {
      var s := sessions.Get(id);
      if s == null || rsp == None { return; }
      TakeOver(s, rsp.value, now);
      Authenticate(s, rsp.value);
    }

    method OnServiceEnvelope(env: Envelope, rsp: Option<int>, now: int)
      requires Valid()
      modifies `offered, `cfg, sessions`byPlayer, all.Values, conns.Values
      ensures Valid() && View() == M.OnServiceEnvelope(old(View()), env, rsp, now)
    {
      if env.msgId == MSG_SERVICE_PONG { return; }
      if env.msgId == MSG_LOGIN_RSP { OnLoginRsp(env.sessionId, rsp, now); }
      Reply(env.sessionId, env.msgId, env.payload);
    }

    // ---------- sweeps ----------

    /** The session IDs of a snapshot, in its order. */
    ghost function IDs(items: seq<Session>): (ids: seq<int>)
    {
      seq(|items|, i requires 0 <= i < |items| => items[i].id)
    }

    /** A snapshot visits every registered session once. */
    lemma SnapshotEnumerates(items: seq<Session>)
      requires Valid()
      requires forall i | 0 <= i < |items| ::
                 items[i].id in sessions.bySession && sessions.bySession[items[i].id] == items[i]
      requires forall i, j | 0 <= i < j < |items| :: items[i].id != items[j].id
      requires forall id | id in sessions.bySession :: sessions.bySession[id] in items
      ensures M.Enumerates(View(), IDs(items))
    {
      var order := IDs(items);
      forall id | id in sessions.bySession ensures id in order {
        var i :| 0 <= i < |items| && items[i] == sessions.bySession[id];
        assert order[i] == id;
      }
    }

    /** The heartbeat sweep's visit to one session. */
    method CheckIdle(s: Session, now: int)
      requires Valid() && Known(s) && s.id in sessions.bySession
      modifies `offered, all.Values, conns.Values
      ensures Valid()
      ensures View() == if M.HeartbeatExpired(old(View()), s.id, now)
                then M.TakeOffline(old(View()), s.id, now) else old(View())
    {
      if s.state != M.Online || s.conn == null { return; }
      var timeout := cfg.heartbeatTimeout;
      if s.conn.connType == M.ConnWS { timeout := timeout + timeout / 2; }
      if now - s.conn.LastAlive() <= timeout { return; }
      OnSessionOffline(s, now);
    }

    /** The login-timeout sweep's visit to one session. */
    method CheckOverdue(s: Session, now: int)
      requires Valid() && Known(s) && s.id in sessions.bySession
      modifies `offered, all.Values, conns.Values
      ensures Valid()
      ensures View() == if M.AuthingExpired(old(View()), s.id, now)
                then M.TakeOffline(old(View()), s.id, now) else old(View())
    {
      if s.state != M.Authing { return; }
      if now - s.authStart > cfg.loginTimeout { OnSessionOffline(s, now); }
    }

    /** The same, as the next step of a pass over `order` that started in state `v`. */
    method CheckIdleNext(s: Session, now: int, ghost v: M.Gate, ghost order: seq<int>, ghost i: nat)
      requires Valid() && Known(s) && s.id in sessions.bySession
      requires i < |order| && order[i] == s.id && View() == M.HeartbeatPass(v, order[..i], now)
      modifies `offered, all.Values, conns.Values
      ensures Valid() && View() == M.HeartbeatPass(v, order[..i + 1], now)
    {
      IdleNext(v, order, i, now);
      CheckIdle(s, now);
    }

    method CheckOverdueNext(s: Session, now: int, ghost v: M.Gate, ghost order: seq<int>, ghost i: nat)
      requires Valid() && Known(s) && s.id in sessions.bySession
      requires i < |order| && order[i] == s.id && View() == M.CheckAuthingTimeout(v, order[..i], now)
      modifies `offered, all.Values, conns.Values
      ensures Valid() && View() == M.CheckAuthingTimeout(v, order[..i + 1], now)
    {
      AuthingNext(v, order, i, now);
      CheckOverdue(s, now);
    }

    /** Every session of a snapshot is a registered one. */
    ghost predicate Listed(items: seq<Session>)
      reads this, sessions
    {
      forall i | 0 <= i < |items| :: Known(items[i]) && items[i].id in sessions.bySession
    }

    method ListSessions() returns (items: seq<Session>, ghost order: seq<int>)
      requires Valid()
      ensures Valid() && View() == old(View())
      ensures order == IDs(items) && Listed(items) && M.Enumerates(View(), order)
    {
      ghost var v := View();
      items := sessions.Snapshot();
      order := IDs(items);
      SnapshotEnumerates(items);
      assert View().sessions == v.sessions && View().conns == v.conns;
    }

    method CheckHeartbeat(now: int) returns (ghost order: seq<int>)
      requires Valid()
      modifies `offered, all.Values, conns.Values
      ensures Valid() && M.Enumerates(old(View()), order)
      ensures View() == M.CheckHeartbeat(old(View()), order, now)
    {
      var items;
      items, order := ListSessions();
      if cfg.heartbeatTimeout <= 0 { return; }
      SweepIdle(items, now, order);
    }

    method SweepIdle(items: seq<Session>, now: int, ghost order: seq<int>)
      requires Valid() && Listed(items) && order == IDs(items)
      modifies `offered, all.Values, conns.Values
      ensures Valid() && View() == M.HeartbeatPass(old(View()), order, now)
    {
      ghost var v := View();
      for i := 0 to |items|
        invariant Valid() && Listed(items) && View() == M.HeartbeatPass(v, order[..i], now)
      {
        CheckIdleNext(items[i], now, v, order, i);
      }
      assert order[..|items|] == order;
    }

    method CheckAuthingTimeout(now: int) returns (ghost order: seq<int>)
      requires Valid()
      modifies `offered, all.Values, conns.Values
      ensures Valid() && M.Enumerates(old(View()), order)
      ensures View() == M.CheckAuthingTimeout(old(View()), order, now)
    {
      var items;
      items, order := ListSessions();
      SweepOverdue(items, now, order);
    }

    method SweepOverdue(items: seq<Session>, now: int, ghost order: seq<int>)
      requires Valid() && Listed(items) && order == IDs(items)
      modifies `offered, all.Values, conns.Values
      ensures Valid() && View() == M.CheckAuthingTimeout(old(View()), order, now)
    {
      ghost var v := View();
      for i := 0 to |items|
        invariant Valid() && Listed(items) && View() == M.CheckAuthingTimeout(v, order[..i], now)
      {
        CheckOverdueNext(items[i], now, v, order, i);
      }
      assert order[..|items|] == order;
    }

    lemma IdleNext(g: M.Gate, order: seq<int>, i: nat, now: int)
      requires i < |order|
      ensures var h := M.HeartbeatPass(g, order[..i], now);
              M.HeartbeatPass(g, order[..i + 1], now)
              == if M.HeartbeatExpired(h, order[i], now) then M.TakeOffline(h, order[i], now) else h
    {
      assert order[..i + 1][..i] == order[..i];
    }

    lemma AuthingNext(g: M.Gate, order: seq<int>, i: nat, now: int)
      requires i < |order|
      ensures var h := M.CheckAuthingTimeout(g, order[..i], now);
              M.CheckAuthingTimeout(g, order[..i + 1], now)
              == if M.AuthingExpired(h, order[i], now) then M.TakeOffline(h, order[i], now) else h
    {
      assert order[..i + 1][..i] == order[..i];
    }

    method CollectOne(s: Session, now: int)
      requires Valid() && Known(s) && s.id in sessions.bySession
      modifies sessions, s`state
      ensures Valid() && View() == M.CollectOne(old(View()), s.id, now)
      ensures forall id | id in old(sessions.bySession) && id != s.id :: id in sessions.bySession
    {
      ghost var collectable := s.state == M.Offline && now - s.lastSeen > cfg.heartbeatTimeout;
      sessions.CollectOne(s, cfg.heartbeatTimeout, now);
      if collectable {
        SessionCollected(s);
      } else {
        OthersKept(s);
        assert SessionValues() == old(SessionValues());
      }
    }

    /** Session `s` was closed and dropped from both indexes. */
    twostate lemma SessionCollected(s: Session)
      requires old(Valid()) && old(Known(s)) && unchanged(this)
      requires forall id | id in all && all[id] != s :: unchanged(all[id])
      requires forall k | k in conns :: unchanged(conns[k])
      requires sessions.bySession == old(sessions.bySession) - {s.id}
      requires sessions.byPlayer == if s.playerID != 0
                 then old(sessions.byPlayer) - {s.playerID} else old(sessions.byPlayer)
      requires s.conn == old(s.conn)
      ensures Valid()
      ensures var v := old(View());
              View() == v.(sessions := v.sessions[s.id := s.Value()], bySession := v.bySession - {s.id},
                           byPlayer := if s.playerID != 0 then v.byPlayer - {s.playerID} else v.byPlayer)
    {
      OthersKept(s);
      assert View().bySession == old(View()).bySession - {s.id};
      assert View().byPlayer == if s.playerID != 0 then old(View()).byPlayer - {s.playerID} else old(View()).byPlayer;
    }

    /** The session manager's GC pass. */
    method GC(now: int) returns (ghost order: seq<int>)
      requires Valid()
      modifies sessions, all.Values
      ensures Valid() && M.Enumerates(old(View()), order)
      ensures View() == M.GC(old(View()), order, now)
    {
      var items;
      items, order := ListSessions();
      forall i, j | 0 <= i < j < |items| ensures items[i].id != items[j].id { assert order[i] != order[j]; }
      SweepExpired(items, now, order);
    }

    /** The GC's visit to one session, as the next step of a pass over `order` that started in state `v`. */
    method CollectNext(s: Session, now: int, ghost v: M.Gate, ghost order: seq<int>, ghost i: nat)
      requires Valid() && Known(s) && s.id in sessions.bySession
      requires i < |order| && order[i] == s.id && View() == M.GC(v, order[..i], now)
      modifies sessions, s`state
      ensures Valid() && View() == M.GC(v, order[..i + 1], now)
      ensures forall id | id in old(sessions.bySession) && id != s.id :: id in sessions.bySession
    {
      GCNext(v, order, i, now);
      CollectOne(s, now);
    }

    method SweepExpired(items: seq<Session>, now: int, ghost order: seq<int>)
      requires Valid() && Listed(items) && order == IDs(items)
      requires forall i, j | 0 <= i < j < |items| :: items[i].id != items[j].id
      modifies sessions, all.Values
      ensures Valid() && View() == M.GC(old(View()), order, now)
    {
      ghost var v := View();
      for i := 0 to |items|
        invariant Valid() && View() == M.GC(v, order[..i], now)
        invariant forall j | i <= j < |items| :: Known(items[j]) && items[j].id in sessions.bySession
      {
        CollectNext(items[i], now, v, order, i);
      }
      assert order[..|items|] == order;
    }

    lemma GCNext(g: M.Gate, order: seq<int>, i: nat, now: int)
      requires i < |order|
      ensures M.GC(g, order[..i + 1], now) == M.CollectOne(M.GC(g, order[..i], now), order[i], now)
    {
      assert order[..i + 1][..i] == order[..i];
    }

    // ---------- steps ----------

    ghost method Tick(now: int)
      requires Valid()
      modifies `clock
      ensures Valid() && View() == old(View()).(clock := now)
    {
      clock := now;
    }

    /** A connection nobody knows of yet. */
    method NewConn(ghost key: int, connType: M.ConnType, now: int) returns (c: Conn)
      requires Valid()
      ensures Valid() && View() == old(View()) && fresh(c) && c.key == key
      ensures c.Value() == M.Conn(connType, 0, [], 0, false, true, now, now)
    {
      c := new Conn(key, connType, now);
    }

    method Accepted(ghost key: int, connType: M.ConnType, now: int) returns (c: Conn)
      requires Valid() && key !in conns && now >= clock
      modifies `clock, `conns
      ensures Valid() && Attached(c) && fresh(c)
      ensures View() == M.Apply(old(View()), M.Accept(key, connType, now))
    {
      Tick(now);
      c := NewConn(key, connType, now);
      Admit(c);
      AcceptApplies(old(View()), key, connType, now);
    }

    lemma AcceptApplies(g: M.Gate, key: int, connType: M.ConnType, now: int)
      requires M.Enabled(g, M.Accept(key, connType, now))
      ensures M.Apply(g, M.Accept(key, connType, now))
           == g.(clock := now, conns := g.conns[key := M.Conn(connType, 0, [], 0, false, true, now, now)])
    {}

    ghost method Admit(c: Conn)
      requires Valid() && c.key !in conns
      modifies `conns
      ensures Valid() && Attached(c) && View() == old(View()).(conns := old(View()).conns[c.key := c.Value()])
    {
      conns := conns[c.key := c];
      assert SessionValues() == old(SessionValues());
      assert ConnValues() == old(ConnValues())[c.key := c.Value()];
    }

    method Received(c: Conn, env: Envelope, req: Option<M.ResumeReq>, nonce: Option<seq<byte>>, now: int)
      requires Valid() && Attached(c) && M.Enabled(View(), M.Receive(c.key, env, req, nonce, now))
      modifies Repr()
      ensures Valid() && fresh(Repr() - old(Repr()))
      ensures View() == M.Apply(old(View()), M.Receive(c.key, env, req, nonce, now))
    {
      Tick(now);
      Process(c, env, req, nonce, now);
    }

    /** Any data counts as a sign of life before it is looked at. */
    method Process(c: Conn, env: Envelope, req: Option<M.ResumeReq>, nonce: Option<seq<byte>>, now: int)
      requires Valid() && Attached(c)
      modifies `nextID, `all, `offered, `cfg, sessions`bySession, all.Values, conns.Values
      ensures Valid() && fresh(all.Values - old(all.Values))
      ensures View() == M.OnEnvelope(M.MarkAlive(old(View()), c.key, now), c.key, env, req, nonce, now)
    {
      MarkAlive(c, now);
      OnEnvelope(c, env, req, nonce, now);
    }

    method ReadFailed(c: Conn, now: int)
      requires Valid() && Attached(c) && M.Enabled(View(), M.ReadFailed(c.key, now))
      modifies Repr()
      ensures Valid() && Repr() == old(Repr())
      ensures View() == M.Apply(old(View()), M.ReadFailed(c.key, now))
    {
      Tick(now);
      OnConnClose(c, now);
    }

    method WriteOne(c: Conn, ok: bool, now: int)
      requires Valid() && Attached(c) && |c.sendCh| > 0 && now >= clock
      modifies Repr()
      ensures Valid() && Repr() == old(Repr())
      ensures View() == M.Apply(old(View()), M.WriteOne(c.key, ok, now))
    {
      Tick(now);
      label ticked:
      c.WriteNext(ok);
      ConnWritten@ticked(c);
    }

    method FromService(env: Envelope, rsp: Option<int>, now: int)
      requires Valid() && now >= clock
      modifies Repr()
      ensures Valid() && Repr() == old(Repr())
      ensures View() == M.Apply(old(View()), M.FromService(env, rsp, now))
    {
      Tick(now);
      OnServiceEnvelope(env, rsp, now);
    }

    method KickSession(id: int, now: int)
      requires Valid() && now >= clock
      modifies Repr()
      ensures Valid() && Repr() == old(Repr())
      ensures View() == M.Apply(old(View()), M.KickSession(id, now))
    {
      Tick(now);
      Kick(id, now);
    }

    method HeartbeatTick(now: int) returns (ghost order: seq<int>)
      requires Valid() && now >= clock
      modifies Repr()
      ensures Valid() && Repr() == old(Repr())
      ensures M.Enumerates(old(View()), order) && View() == M.Apply(old(View()), M.HeartbeatTick(order, now))
    {
      Tick(now);
      order := CheckHeartbeat(now);
    }

    method AuthingTick(now: int) returns (ghost order: seq<int>)
      requires Valid() && now >= clock
      modifies Repr()
      ensures Valid() && Repr() == old(Repr())
      ensures M.Enumerates(old(View()), order) && View() == M.Apply(old(View()), M.AuthingTick(order, now))
    {
      Tick(now);
      order := CheckAuthingTimeout(now);
    }

    method GCTick(now: int) returns (ghost order: seq<int>)
      requires Valid() && now >= clock
      modifies Repr()
      ensures Valid() && Repr() == old(Repr())
      ensures M.Enumerates(old(View()), order) && View() == M.Apply(old(View()), M.GCTick(order, now))
    {
      Tick(now);
      order := GC(now);
    }

    method Configure(settings: M.Config, now: int)
      requires Valid() && now >= clock
      modifies `clock, `cfg
      ensures Valid() && View() == M.Apply(old(View()), M.Configure(settings, now))
    {
      Tick(now);
      UpdateConfig(settings);
    }

    method UpdateConfig(settings: M.Config)
      requires Valid()
      modifies `cfg
      ensures Valid() && View() == M.UpdateConfig(old(View()), settings)
    {
      var next := cfg.(connOptions := settings.connOptions);
      if settings.heartbeatInterval > 0 { next := next.(heartbeatInterval := settings.heartbeatInterval); }
      if settings.gcInterval > 0 { next := next.(gcInterval := settings.gcInterval); }
      if settings.heartbeatTimeout > 0 { next := next.(heartbeatTimeout := settings.heartbeatTimeout); }
      if settings.loginTimeout > 0 { next := next.(loginTimeout := settings.loginTimeout); }
      if settings.loginRateLimitCount > 0 { next := next.(loginRateLimitCount := settings.loginRateLimitCount); }
      if settings.loginRateLimitWindow > 0 { next := next.(loginRateLimitWindow := settings.loginRateLimitWindow); }
      if settings.unknownMsgKickCount > 0 { next := next.(unknownMsgKickCount := settings.unknownMsgKickCount); }
      SetConfig(next);
    }

    method SetConfig(next: M.Config)
      requires Valid()
      modifies `cfg
      ensures Valid() && View() == old(View()).(cfg := next)
    {
      cfg := next;
    }
  }
}
