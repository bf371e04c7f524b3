/** The gate and the game process together: what the game believes about the players who are logged in at the gate. */
module GateGame {
  import opened Prelude
  import opened Protocol
  import opened PlayerStore
  import G = GateModel
  import I = GateInvariant
  import S = GateSteps
  import T = GateRuns
  import E = GateEffects
  import R = Roster
  import A = PlayerActor
  import C = GateCounterexamples

  predicate ForGame(env: Envelope) {
    GetRoute(env.msgId) == Some(TargetGame)
  }

  /** The game process after the service has passed on, in order, those of the envelopes that have a game route, while
      its store works. */
  function Delivered(r: R.Roster, envs: seq<Envelope>): R.Roster {
    if envs == [] then r
    else
      var s, last := Delivered(r, envs[..|envs| - 1]), envs[|envs| - 1];
      if ForGame(last) then R.OnEnvelope(s, last, Works, Works, true) else s
  }

  predicate ActiveIn(r: R.Roster, playerID: int) {
    playerID in r.players && r.players[playerID].state == A.Active
  }

  // ---------- the last word about a player ----------

  /** The envelope is about the player: the game resolves it to it, in the state it is then in. */
  predicate About(r: R.Roster, env: Envelope, playerID: int) {
    ForGame(env) && R.Resolve(r, env) == playerID
  }

  /** What the last envelope about the player says: that it is there, or that it went offline. */
  function LastWord(r: R.Roster, envs: seq<Envelope>, playerID: int): bool {
    if envs == [] then ActiveIn(r, playerID)
    else
      var init, last := envs[..|envs| - 1], envs[|envs| - 1];
      if About(Delivered(r, init), last, playerID) then last.msgId != MSG_PLAYER_OFFLINE_NOTIFY
      else LastWord(r, init, playerID)
  }

  lemma OneDelivered(r: R.Roster, env: Envelope, playerID: int)
    requires R.Sound(r) && playerID != 0 && ForGame(env)
    ensures var s := R.OnEnvelope(r, env, Works, Works, true);
            && R.Sound(s)
            && (ActiveIn(s, playerID)
                <==> if R.Resolve(r, env) == playerID then env.msgId != MSG_PLAYER_OFFLINE_NOTIFY
                     else ActiveIn(r, playerID))
  {
    R.StepSound(r, R.Receive(env, Works, Works, true));
    match R.ActOf(r, env)
    case Ignore =>
    case Leave(id) => if id in r.players { assert R.PlayerOk(r.players[id], id); }
    case Attach(sessionID, id, _) =>
      R.AttachChanges(r, env, Works, Works, true);
      R.AttachEndsActive(r, sessionID, id, Works, Works);
  }

  /** A player is active in the game exactly if the last envelope about it was no offline notice. */
  lemma {:induction false} ActiveExactly(r: R.Roster, envs: seq<Envelope>, playerID: int)
    requires R.Sound(r) && playerID != 0
    ensures R.Sound(Delivered(r, envs)) && (ActiveIn(Delivered(r, envs), playerID) <==> LastWord(r, envs, playerID))
  {
    if envs != [] {
      var init, last := envs[..|envs| - 1], envs[|envs| - 1];
      ActiveExactly(r, init, playerID);
      if ForGame(last) { OneDelivered(Delivered(r, init), last, playerID); }
    }
  }

  // ---------- what gate steps tell the game ----------

  /** The session a login displaces: connected, another one, and the one the player index holds. */
  function Displaced(g: G.Gate, id: int, playerID: int): Option<G.Session> {
    if playerID in g.byPlayer && g.byPlayer[playerID] != id && g.byPlayer[playerID] in g.sessions
       && g.sessions[g.byPlayer[playerID]].conn.Some?
    then Some(g.sessions[g.byPlayer[playerID]]) else None
  }

  /** A login offers the game a notice about the displaced session and the player that one has, if any. */
  lemma LoginOffers(g: G.Gate, step: G.Step, id: int, playerID: int)
    requires I.Inv(g) && G.Enabled(g, step) && g.poolReady && S.ActOf(g, step) == S.Binding(id, playerID)
    ensures var prev := Displaced(g, id, playerID);
            G.Apply(g, step).offered
            == g.offered + if prev.Some? && prev.value.playerID != 0 then [I.OfflineNotice(prev.value)] else []
  {
    var t := S.Before(g, step);
    S.BeforeOk(g, step);
    I.TakeOverCommutes(t, id, playerID, step.now);
    if playerID in t.byPlayer && t.byPlayer[playerID] != id { I.KickLinks(t, t.byPlayer[playerID], step.now); }
    var after := G.OnLoginRsp(t, id, step.rsp, step.now);
    assert after.offered == G.TakeOver(t, id, playerID, step.now).offered;
    assert G.Apply(g, step).offered == after.offered;
  }

  /** A login displaces a session of the very player it is for. */
  predicate TakesOver(g: G.Gate, id: int, playerID: int) {
    Displaced(g, id, playerID).Some? && Displaced(g, id, playerID).value.playerID == playerID
  }

  /** With everything delivered so far, a login leaves a player who was active in the game active there exactly if it
      does not take over from a session of that player: the notice about that one names the player who is back. */
  lemma LoginKeepsActiveExactly(g: G.Gate, step: G.Step, id: int, playerID: int, r: R.Roster)
    requires I.Inv(g) && G.Enabled(g, step) && g.poolReady && S.ActOf(g, step) == S.Binding(id, playerID)
    requires playerID != 0 && R.Sound(r) && ActiveIn(Delivered(r, g.offered), playerID)
    ensures ActiveIn(Delivered(r, G.Apply(g, step).offered), playerID) <==> !TakesOver(g, id, playerID)
  {
    LoginOffers(g, step, id, playerID);
    ActiveExactly(r, g.offered, playerID);
    var prev := Displaced(g, id, playerID);
    if prev.Some? && prev.value.playerID != 0 {
      var notice := I.OfflineNotice(prev.value);
      assert (g.offered + [notice])[..|g.offered|] == g.offered;
      OneDelivered(Delivered(r, g.offered), notice, playerID);
    } else {
      assert g.offered + [] == g.offered;
    }
  }

  /** An ordinary message to the game, on the connection of a session and in its name. */
  predicate Plays(g: G.Gate, step: G.Step, id: int) {
    && step.Receive? && step.conn in g.conns && g.conns[step.conn].sessionID == id && step.env.sessionId == id
    && ForGame(step.env) && step.env.msgId != MSG_PLAYER_OFFLINE_NOTIFY
  }

  /** The player's next message to the game makes it active again. */
  lemma PlayingTellsActive(g: G.Gate, step: G.Step, id: int, playerID: int, r: R.Roster)
    requires I.Inv(g) && G.Enabled(g, step) && g.poolReady && Plays(g, step, id) && R.Sound(r)
    requires T.LoggedIn(g, id, playerID) && playerID != 0
    ensures G.Apply(g, step).offered == g.offered + [step.env.(playerId := playerID)]
    ensures ActiveIn(Delivered(r, G.Apply(g, step).offered), playerID)
  {
    assert I.SessionOk(g, id);
    var env := step.env.(playerId := playerID);
    assert G.Apply(g, step).offered == g.offered + [env];
    ActiveExactly(r, g.offered, playerID);
    assert (g.offered + [env])[..|g.offered|] == g.offered;
    OneDelivered(Delivered(r, g.offered), env, playerID);
  }

  /** With a pool, a resume of a player's session makes the player active in the game. */
  lemma ResumeTellsActive(g: G.Gate, step: G.Step, id: int, c: int, r: R.Roster)
    requires I.Inv(g) && G.Enabled(g, step) && g.poolReady && S.ActOf(g, step) == S.Reconnects(id, c) && R.Sound(r)
    requires g.sessions[id].playerID != 0
    ensures ActiveIn(Delivered(r, G.Apply(g, step).offered), g.sessions[id].playerID)
  {
    var p := g.sessions[id].playerID;
    var env := Envelope(MSG_PLAYER_RESUME_REQ, id, p, []);
    E.ResumeAnswered(g, step, id, c);
    ActiveExactly(r, g.offered, p);
    assert (g.offered + [env])[..|g.offered|] == g.offered;
    OneDelivered(Delivered(r, g.offered), env, p);
  }

  // ---------- a reachable takeover ----------

  /** What the run below needs of every step: the pool stays, and connection 1 is still read. */
  ghost predicate Kept(g: G.Gate, g': G.Gate) {
    g'.poolReady == g.poolReady && (1 in g.conns ==> 1 in g'.conns && g'.conns[1].reading == g.conns[1].reading)
  }

  lemma ReplyKeeps(g: G.Gate, id: int, msgId: int, payload: seq<byte>)
    ensures Kept(g, G.Reply(g, id, msgId, payload))
  {}

  lemma KickKeeps(g: G.Gate, id: int, now: int)
    ensures Kept(g, G.Kick(g, id, now))
  {}

  lemma GrantKeeps(g: G.Gate, id: int, playerID: int, now: int)
    requires I.Inv(g) && id in g.bySession && now >= g.clock
    ensures Kept(g, G.Apply(g, C.GrantLogin(id, playerID, now)))
  {
    var t := g.(clock := now);
    var bound := G.BindPlayer(t, id, playerID);
    if playerID in t.byPlayer { KickKeeps(bound, t.byPlayer[playerID], now); }
    var after := G.OnLoginRsp(t, id, Some(playerID), now);
    assert Kept(t, after);
    ReplyKeeps(after, id, MSG_LOGIN_RSP, []);
  }

  lemma AskKeeps(g: G.Gate, c: int, now: int)
    requires I.Inv(g) && c in g.conns && g.conns[c].sessionID == 0 && g.conns[c].reading && now >= g.clock
    ensures Kept(g, G.Apply(g, C.AskLogin(c, now)))
  {}

  const EMPTY_STORE := Store(map[], map[], 0)
  const NO_PLAYERS := R.Roster(map[], map[], EMPTY_STORE)

  function Play(now: int): G.Step {
    G.Receive(1, Envelope(MSG_GAME_BEGIN, 1, 0, []), None, None, now)
  }

  /** One player logged in on connection 1 as session 1, the only session. */
  ghost predicate Playing(g: G.Gate, playerID: int) {
    && T.LoggedIn(g, 1, playerID) && g.byPlayer == map[playerID := 1] && g.nextID == 1 && g.poolReady
    && (forall c :: c in g.conns <==> c == 1) && g.conns[1].reading && g.conns[1].sessionID == 1
  }

  lemma Enter(g: G.Gate, playerID: int) returns (run: seq<G.Step>, h: G.Gate)
    requires T.Fresh(g) && g.poolReady
    ensures C.Leads(g, run, true, h) && Playing(h, playerID)
  {
    T.RunInvariant(g, [], 0);
    var r0, h0 := C.ArriveStep(g, [], true, g, 1, g.clock);
    var r1, h1 := AskFirst(g, r0, h0);
    FirstGrant(h1, playerID);
    run, h := C.Grow(g, r1, true, h1, C.GrantLogin(1, playerID, h1.clock));
  }

  /** Session 1 on connection 1 has asked for its login. */
  ghost predicate Asking(g: G.Gate) {
    && 1 in g.bySession && 1 in g.sessions && g.sessions[1].conn == Some(1) && g.byPlayer == map[] && g.nextID == 1
    && g.poolReady && (forall c :: c in g.conns <==> c == 1) && g.conns[1].reading
  }

  lemma FirstGrant(g: G.Gate, playerID: int)
    requires I.Inv(g) && Asking(g)
    ensures G.Enabled(g, C.GrantLogin(1, playerID, g.clock))
    ensures Playing(G.Apply(g, C.GrantLogin(1, playerID, g.clock)), playerID)
  {
    var step := C.GrantLogin(1, playerID, g.clock);
    GrantKeeps(g, 1, playerID, g.clock);
    C.GrantEffect(g, 1, playerID, g.clock);
    S.StepShaped(g, step);
    T.BindEffect(g, step);
    assert I.SessionOk(G.Apply(g, step), 1);
  }

  lemma AskFirst(g: G.Gate, run: seq<G.Step>, h: G.Gate) returns (run': seq<G.Step>, h': G.Gate)
    requires C.Leads(g, run, true, h) && h.clock == g.clock
    requires 1 in h.conns && h.conns[1].sessionID == 0 && h.conns[1].reading
    requires h.nextID == 0 && h.byPlayer == map[] && h.poolReady && forall c :: c in h.conns <==> c == 1
    ensures C.Leads(g, run', true, h') && Asking(h')
  {
    AskKeeps(h, 1, g.clock);
    C.AskEffect(h, 1, g.clock);
    run', h' := C.Grow(g, run, true, h, C.AskLogin(1, g.clock));
  }

  lemma PlayEffect(g: G.Gate, playerID: int)
    requires I.Inv(g) && Playing(g, playerID) && playerID != 0
    ensures G.Enabled(g, Play(g.clock)) && Playing(G.Apply(g, Play(g.clock)), playerID)
    ensures ActiveIn(Delivered(NO_PLAYERS, G.Apply(g, Play(g.clock)).offered), playerID)
  {
    assert I.SessionOk(g, 1);
    PlayingTellsActive(g, Play(g.clock), 1, playerID, NO_PLAYERS);
  }

  /** Asking for a login offers nothing to the game. */
  lemma AskOffers(g: G.Gate, c: int, now: int, r: R.Roster)
    requires I.Inv(g) && c in g.conns && g.conns[c].sessionID == 0 && g.conns[c].reading && now >= g.clock
    ensures Delivered(r, G.Apply(g, C.AskLogin(c, now)).offered) == Delivered(r, g.offered)
  {
    var offered := G.Apply(g, C.AskLogin(c, now)).offered;
    if offered != g.offered {
      assert offered[..|g.offered|] == g.offered && offered[|g.offered|].msgId == MSG_LOGIN_REQ;
    }
  }

  /** A second connection asks for a login. */
  ghost predicate Rivalled(g: G.Gate, playerID: int) {
    && T.LoggedIn(g, 1, playerID) && g.byPlayer == map[playerID := 1] && g.poolReady
    && 2 in g.bySession && 2 in g.sessions && g.sessions[2].conn.Some? && g.sessions[2].state == G.Online
    && ActiveIn(Delivered(NO_PLAYERS, g.offered), playerID)
  }

  lemma Rival(g: G.Gate, run: seq<G.Step>, h: G.Gate, playerID: int) returns (run': seq<G.Step>, h': G.Gate)
    requires C.Leads(g, run, true, h) && Playing(h, playerID) && ActiveIn(Delivered(NO_PLAYERS, h.offered), playerID)
    ensures C.Leads(g, run', true, h') && Rivalled(h', playerID)
  {
    var r1, h1 := C.ArriveStep(g, run, true, h, 2, h.clock);
    AskEffects(h1, playerID);
    run', h' := C.Grow(g, r1, true, h1, C.AskLogin(2, h1.clock));
  }

  lemma AskEffects(g: G.Gate, playerID: int)
    requires I.Inv(g) && 2 in g.conns && g.conns[2].sessionID == 0 && g.conns[2].reading && g.nextID == 1 && g.poolReady
    requires T.LoggedIn(g, 1, playerID) && g.byPlayer == map[playerID := 1]
    requires ActiveIn(Delivered(NO_PLAYERS, g.offered), playerID)
    ensures G.Enabled(g, C.AskLogin(2, g.clock)) && Rivalled(G.Apply(g, C.AskLogin(2, g.clock)), playerID)
  {
    AskKeeps(g, 2, g.clock);
    C.AskEffect(g, 2, g.clock);
    AskOffers(g, 2, g.clock, NO_PLAYERS);
  }

  lemma RivalWins(g: G.Gate, playerID: int)
    requires I.Inv(g) && Rivalled(g, playerID) && playerID != 0
    ensures var step := C.GrantLogin(2, playerID, g.clock);
            && G.Enabled(g, step) && T.LoggedIn(G.Apply(g, step), 2, playerID)
            && !ActiveIn(Delivered(NO_PLAYERS, G.Apply(g, step).offered), playerID)
  {
    var step := C.GrantLogin(2, playerID, g.clock);
    LoginKeepsActiveExactly(g, step, 2, playerID, NO_PLAYERS);
    T.BindEffect(g, step);
  }

  lemma LastStep(g: G.Gate, run: seq<G.Step>, h: G.Gate, step: G.Step)
    requires C.Leads(g, run, true, h) && G.Enabled(h, step)
    ensures var all := run + [step];
            G.IsRun(g, all) && G.After(g, all, |run|) == h && G.After(g, all, |all|) == G.Apply(h, step)
  {
    C.AtPrefix(g, run, step, |run|);
    assert (run + [step])[|run|] == step;
  }

  /** A reachable login at the gate by which a player who was active in the game stops being so. */
  lemma LoginDeactivates(g: G.Gate, playerID: int)
    requires T.Fresh(g) && g.poolReady && playerID != 0
    ensures exists run: seq<G.Step> :: && |run| > 0 && G.IsRun(g, run)
              && var before, after := G.After(g, run, |run| - 1), G.After(g, run, |run|);
              && !T.LoggedIn(before, 2, playerID) && ActiveIn(Delivered(NO_PLAYERS, before.offered), playerID)
              && T.LoggedIn(after, 2, playerID) && !ActiveIn(Delivered(NO_PLAYERS, after.offered), playerID)
  {
    var r1, h1 := Enter(g, playerID);
    PlayEffect(h1, playerID);
    var r2, h2 := C.Grow(g, r1, true, h1, Play(h1.clock));
    var r3, h3 := Rival(g, r2, h2, playerID);
    var step := C.GrantLogin(2, playerID, h3.clock);
    RivalWins(h3, playerID);
    LastStep(g, r3, h3, step);
    var run := r3 + [step];
    assert |run| - 1 == |r3| && G.After(g, run, |run| - 1) == h3;
  }
}
