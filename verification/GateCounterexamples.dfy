/** Reachable runs showing that each condition on the gate's guarantees is needed, whatever the configuration. */
module GateCounterexamples {
  import opened Prelude
  import opened Protocol
  import opened GateModel
  import opened GateInvariant
  import opened GateSteps
  import opened GateRuns
  import Token

  lemma {:induction false} AtPrefix(g: Gate, run: seq<Step>, step: Step, n: nat)
    requires n <= |run|
    ensures At(g, run + [step], n) == At(g, run, n)
  {
    if n > 0 { AtPrefix(g, run, step, n - 1); }
  }

  ghost function End(g: Gate, run: seq<Step>): Gate
    requires IsRun(g, run)
  {
    After(g, run, |run|)
  }

  /** A run without GC passes (`gc`), or one without resume requests. */
  predicate Avoids(run: seq<Step>, gc: bool) {
    forall m | 0 <= m < |run| :: if gc then !run[m].GCTick? else run[m].Receive? ==> run[m].env.msgId != MSG_RESUME_REQ
  }

  /** Some run of the kind asked for leads to state `h`. */
  ghost predicate Leads(g: Gate, run: seq<Step>, gc: bool, h: Gate) {
    Fresh(g) && IsRun(g, run) && Avoids(run, gc) && h == End(g, run) && Inv(h)
  }

  /** Taking one more step. */
  lemma Grow(g: Gate, run: seq<Step>, gc: bool, h: Gate, step: Step) returns (run': seq<Step>, h': Gate)
    requires Leads(g, run, gc, h) && Enabled(h, step) && Avoids([step], gc)
    ensures Leads(g, run', gc, h') && h' == Apply(h, step)
  {
    AtPrefix(g, run, step, |run|);
    run' := run + [step];
    assert [step][0] == step;
    RunInvariant(g, run', |run| + 1);
    h' := Apply(h, step);
  }

  const LOGIN_REQ := Envelope(MSG_LOGIN_REQ, 0, 0, [])
  const RESUME_REQ := Envelope(MSG_RESUME_REQ, 0, 0, [])

  function Arrive(c: int, now: int): Step {
    Accept(c, ConnTCP, now)
  }

  function AskLogin(c: int, now: int): Step {
    Receive(c, LOGIN_REQ, None, Some([]), now)
  }

  function GrantLogin(id: int, playerID: int, now: int): Step {
    FromService(Envelope(MSG_LOGIN_RSP, id, 0, []), Some(playerID), now)
  }

  /** How one login request changes what the next steps depend on: a session `n` is created on connection `c`. */
  ghost predicate Asked(g: Gate, g': Gate, c: int, n: int) {
    && n == g.nextID + 1 == g'.nextID && n !in g.sessions && n in g'.sessions
    && g'.sessions == g.sessions[n := g'.sessions[n]]
    && g'.sessions[n].state == Online && g'.sessions[n].conn == Some(c) && g'.sessions[n].id == n
    && g'.sessions[n].token == Token.Mint(g.mac, n, Some([]))
    && g'.bySession == g.bySession + {n} && g'.byPlayer == g.byPlayer
    && SameFrame(g, g')
  }

  ghost predicate SameFrame(g: Gate, g': Gate) {
    && g'.mac == g.mac && g'.cfg.heartbeatTimeout == g.cfg.heartbeatTimeout
    && (forall c :: c in g'.conns <==> c in g.conns)
  }

  lemma AskEffect(g: Gate, c: int, now: int)
    requires Inv(g) && c in g.conns && g.conns[c].sessionID == 0 && g.conns[c].reading && now >= g.clock
    ensures Asked(g, Apply(g, AskLogin(c, now)), c, g.nextID + 1) && Apply(g, AskLogin(c, now)).clock == now
  {
    assert forall i | i in g.sessions :: SessionOk(g, i);
    var t := Before(g, AskLogin(c, now));
    assert Apply(g, AskLogin(c, now)) == FirstLogin(t, c, LOGIN_REQ, Some([]), now);
    FirstLoginEffect(t, c, now);
    AskedTicked(g, t, FirstLogin(t, c, LOGIN_REQ, Some([]), now), c);
  }

  lemma FirstLoginEffect(g: Gate, c: int, now: int)
    requires c in g.conns && g.nextID + 1 !in g.sessions
    ensures var g' := FirstLogin(g, c, LOGIN_REQ, Some([]), now);
            Asked(g, g', c, g.nextID + 1) && g'.clock == g.clock
  {
    var g' := FirstLogin(g, c, LOGIN_REQ, Some([]), now);
    assert g'.sessions == g.sessions[g.nextID + 1 := g'.sessions[g.nextID + 1]];
  }

  lemma AskedTicked(g: Gate, t: Gate, g': Gate, c: int)
    requires t == g.(clock := t.clock, conns := t.conns) && (forall x :: x in t.conns <==> x in g.conns)
    requires Asked(t, g', c, t.nextID + 1)
    ensures Asked(g, g', c, g.nextID + 1)
  {}

  /** Granting it: session `id` belongs to the player, and whoever the index held is disconnected. */
  ghost predicate Granted(g: Gate, g': Gate, id: int, playerID: int) {
    && LoggedIn(g', id, playerID) && id in g.sessions && g'.sessions[id].token == g.sessions[id].token
    && g'.byPlayer == g.byPlayer[playerID := id] && g'.bySession == g.bySession && g'.nextID == g.nextID
    && (forall i :: i != id ==> Yielded(g, g', i, playerID))
    && SameFrame(g, g')
  }

  ghost predicate Yielded(g: Gate, g': Gate, i: int, playerID: int) {
    && (i in g'.sessions <==> i in g.sessions)
    && (i in g.sessions ==>
          g'.sessions[i] == if playerID in g.byPlayer && g.byPlayer[playerID] == i && g.sessions[i].conn.Some?
                            then Detached(g.sessions[i], g'.clock) else g.sessions[i])
  }

  lemma BoundEffect(g: Gate, id: int, playerID: int)
    requires Inv(g) && id in g.bySession && g.sessions[id].conn.Some?
    ensures id in Cleared(g, id, playerID, g.clock).sessions
    ensures Granted(g, Bound(Cleared(g, id, playerID, g.clock), id, playerID), id, playerID)
  {
    var a := Cleared(g, id, playerID, g.clock);
    ClearedOk(g, id, playerID, g.clock);
    assert SessionQuiet(g, a, id);
    var b := Bound(a, id, playerID);
    if playerID in g.byPlayer && g.byPlayer[playerID] != id {
      var prev := g.byPlayer[playerID];
      KickLinks(g, prev, g.clock);
      assert a.sessions == if g.sessions[prev].conn == None then g.sessions
                           else g.sessions[prev := Detached(g.sessions[prev], g.clock)];
      assert a.mac == g.mac && a.cfg == g.cfg;
    }
    forall c ensures c in b.conns <==> c in g.conns { assert SameBinding(g, a, c); }
    forall i | i != id ensures Yielded(g, b, i, playerID) {}
  }

  lemma GrantEffect(g: Gate, id: int, playerID: int, now: int)
    requires Inv(g) && id in g.bySession && g.sessions[id].conn.Some? && now >= g.clock
    ensures var g' := Apply(g, GrantLogin(id, playerID, now));
            Granted(g, g', id, playerID) && g'.clock == now
  {
    var step := GrantLogin(id, playerID, now);
    var t := Before(g, step);
    BeforeOk(g, step);
    BoundEffect(t, id, playerID);
    OnLoginRspOk(t, id, playerID, now);
    var bound := Bound(Cleared(t, id, playerID, now), id, playerID);
    GrantSame(t, bound, OnLoginRsp(t, id, Some(playerID), now), id, playerID);
    ReplyFrame(OnLoginRsp(t, id, Some(playerID), now), id, MSG_LOGIN_RSP, []);
    GrantFrame(t, id, playerID, now);
    GrantTicked(g, t, Apply(g, step), id, playerID);
  }

  /** The pieces of the step after the binding change nothing that matters here. */
  lemma GrantSame(g: Gate, b: Gate, g': Gate, id: int, playerID: int)
    requires Granted(g, b, id, playerID) && SameLinks(b, g')
    ensures g'.mac == g.mac && g'.cfg.heartbeatTimeout == g.cfg.heartbeatTimeout ==> Granted(g, g', id, playerID)
  {
    forall c ensures c in g'.conns <==> c in g.conns { assert SameBinding(b, g', c); }
    forall i | i != id ensures Yielded(g, g', i, playerID) { assert Yielded(g, b, i, playerID); }
  }

  lemma GrantFrame(g: Gate, id: int, playerID: int, now: int)
    ensures OnLoginRsp(g, id, Some(playerID), now).mac == g.mac
    ensures OnLoginRsp(g, id, Some(playerID), now).cfg.heartbeatTimeout == g.cfg.heartbeatTimeout
  {}

  lemma ReplyFrame(g: Gate, id: int, msgId: int, payload: seq<byte>)
    ensures var g' := Reply(g, id, msgId, payload);
            g' == g.(conns := g'.conns) && (forall c :: c in g'.conns <==> c in g.conns)
  {}

  lemma GrantTicked(g: Gate, t: Gate, g': Gate, id: int, playerID: int)
    requires t == g.(clock := t.clock)
    requires exists h ::
               && Granted(t, h, id, playerID) && g' == h.(conns := g'.conns)
               && (forall c :: c in g'.conns <==> c in h.conns)
    ensures Granted(g, g', id, playerID)
  {
    var h :| && Granted(t, h, id, playerID) && g' == h.(conns := g'.conns)
             && (forall c :: c in g'.conns <==> c in h.conns);
    forall i | i != id ensures Yielded(g, g', i, playerID) { assert Yielded(t, h, i, playerID); }
  }

  /** A login of player `playerID` on a new connection `c`, from the request to the grant. */
  ghost predicate Entered(h: Gate, h': Gate, c: int, playerID: int) {
    var n := h.nextID + 1;
    && h'.nextID == n && n !in h.sessions
    && h'.bySession == h.bySession + {n} && h'.byPlayer == h.byPlayer[playerID := n]
    && LoggedIn(h', n, playerID) && h'.sessions[n].token == Token.Mint(h.mac, n, Some([]))
    && h'.mac == h.mac && h'.cfg.heartbeatTimeout == h.cfg.heartbeatTimeout
    && (forall x :: x in h'.conns <==> x in h.conns || x == c)
    && (forall i :: i != n ==> Yielded(h, h', i, playerID))
  }

  lemma AskedAndGranted(h: Gate, h0: Gate, h1: Gate, h2: Gate, c: int, playerID: int)
    requires h0 == h.(clock := h0.clock, conns := h0.conns) && (forall x :: x in h0.conns <==> x in h.conns || x == c)
    requires Inv(h) && Asked(h0, h1, c, h.nextID + 1) && Granted(h1, h2, h.nextID + 1, playerID)
    ensures Entered(h, h2, c, playerID)
  {
    var n := h.nextID + 1;
    forall i | i != n ensures Yielded(h, h2, i, playerID) { assert Yielded(h1, h2, i, playerID); }
    forall x ensures x in h2.conns <==> x in h.conns || x == c {
      assert x in h2.conns <==> x in h1.conns;
      assert x in h1.conns <==> x in h0.conns;
    }
  }

  lemma ArriveStep(g: Gate, run: seq<Step>, gc: bool, h: Gate, c: int, now: int) returns (run': seq<Step>, h': Gate)
    requires Leads(g, run, gc, h) && c !in h.conns && now >= h.clock
    ensures Leads(g, run', gc, h') && h' == h.(clock := now, conns := h'.conns)
    ensures forall x :: x in h'.conns <==> x in h.conns || x == c
    ensures h'.conns[c].sessionID == 0 && h'.conns[c].reading
  {
    run', h' := Grow(g, run, gc, h, Arrive(c, now));
  }

  lemma AskStep(g: Gate, run: seq<Step>, gc: bool, h: Gate, c: int, now: int) returns (run': seq<Step>, h': Gate)
    requires Leads(g, run, gc, h) && c in h.conns && h.conns[c].sessionID == 0 && h.conns[c].reading && now >= h.clock
    ensures Leads(g, run', gc, h') && Asked(h, h', c, h.nextID + 1) && h'.clock == now
  {
    AskEffect(h, c, now);
    run', h' := Grow(g, run, gc, h, AskLogin(c, now));
  }

  lemma GrantStep(g: Gate, run: seq<Step>, gc: bool, h: Gate, id: int, playerID: int, now: int)
    returns (run': seq<Step>, h': Gate)
    requires Leads(g, run, gc, h) && id in h.bySession && h.sessions[id].conn.Some? && now >= h.clock
    ensures Leads(g, run', gc, h') && Granted(h, h', id, playerID) && h'.clock == now
  {
    GrantEffect(h, id, playerID, now);
    run', h' := Grow(g, run, gc, h, GrantLogin(id, playerID, now));
  }

  lemma LogIn(g: Gate, run: seq<Step>, gc: bool, h: Gate, c: int, playerID: int, now: int)
    returns (run': seq<Step>, h': Gate)
    requires Leads(g, run, gc, h) && c !in h.conns && now >= h.clock
    ensures Leads(g, run', gc, h') && h'.clock == now && Entered(h, h', c, playerID)
  {
    var r0, h0 := ArriveStep(g, run, gc, h, c, now);
    var r1, h1 := AskStep(g, r0, gc, h0, c, now);
    run', h' := GrantStep(g, r1, gc, h1, h.nextID + 1, playerID, now);
    AskedAndGranted(h, h0, h1, h', c, playerID);
  }

  /** Two sessions of one player: the first displaced and Offline, the second in the index. */
  ghost predicate Displacing(g: Gate, h: Gate, playerID: int) {
    && LoggedIn(h, 2, playerID) && OfflineIn(h, 1) && h.sessions[1].playerID == playerID && h.sessions[1].conn == None
    && h.sessions[1].token == Token.Mint(g.mac, 1, Some([])) && h.sessions[1].lastSeen == h.clock
    && h.bySession == {1, 2} && h.byPlayer == map[playerID := 2] && h.nextID == 2
    && h.mac == g.mac && h.cfg.heartbeatTimeout == g.cfg.heartbeatTimeout
    && (forall x :: x in h.conns <==> x == 1 || x == 2)
  }

  lemma LogInTwice(g: Gate, gc: bool, playerID: int) returns (run: seq<Step>, h: Gate)
    requires Fresh(g)
    ensures Leads(g, run, gc, h) && Displacing(g, h, playerID)
  {
    RunInvariant(g, [], 0);
    var r1, h1 := LogIn(g, [], gc, g, 1, playerID, g.clock);
    run, h := LogIn(g, r1, gc, h1, 2, playerID, g.clock);
    assert Yielded(h1, h, 1, playerID);
  }

  function Resume(g: Gate, c: int, id: int, now: int): Step
    requires id in g.sessions
  {
    Receive(c, RESUME_REQ, Some(ResumeReq(id, g.sessions[id].token)), None, now)
  }

  /** What a successful resume does to the sessions. */
  lemma ResumeEffect(g: Gate, c: int, id: int, now: int)
    requires Inv(g) && now >= g.clock && c in g.conns && g.conns[c].reading && g.conns[c].sessionID == 0
    requires id in g.bySession && g.sessions[id].state == Offline && g.sessions[id].playerID != 0
    requires Token.Verify(g.mac, id, g.sessions[id].token, g.sessions[id].token)
    ensures var g' := Apply(g, Resume(g, c, id, now));
            LoggedIn(g', id, g.sessions[id].playerID) && g'.sessions == g.sessions[id := g'.sessions[id]]
  {
    var step := Resume(g, c, id, now);
    StepShaped(g, step);
    assert ActOf(g, step) == Reconnects(id, c);
  }

  lemma ResumeStep(g: Gate, run: seq<Step>, h: Gate, playerID: int) returns (run': seq<Step>, h': Gate)
    requires Leads(g, run, true, h) && 3 in h.conns && h.conns[3].reading && h.conns[3].sessionID == 0
    requires OfflineIn(h, 1) && h.sessions[1].playerID == playerID != 0 && 1 in h.bySession && LoggedIn(h, 2, playerID)
    requires Token.Verify(h.mac, 1, h.sessions[1].token, h.sessions[1].token)
    ensures Leads(g, run', true, h') && LoggedIn(h', 1, playerID) && LoggedIn(h', 2, playerID)
  {
    ResumeEffect(h, 3, 1, h.clock);
    run', h' := Grow(g, run, true, h, Resume(h, 3, 1, h.clock));
  }

  /** Resuming a displaced session gives one player two connected logins, even in a run without any GC pass. */
  lemma ResumeGuardNeeded(g: Gate, playerID: int)
    requires Fresh(g) && playerID != 0
    ensures exists run: seq<Step> :: IsRun(g, run) && Avoids(run, true) && !OneLogin(End(g, run))
  {
    var run, h := LogInTwice(g, true, playerID);
    var r1, h1 := ArriveStep(g, run, true, h, 3, h.clock);
    Token.MintedTokenAccepted(g.mac, 1, [], h1.sessions[1].token);
    var r2, h2 := ResumeStep(g, r1, h1, playerID);
    assert !OneLogin(End(g, r2));
  }

  /** Collecting the displaced session takes the other one's index entry away. */
  lemma CollectEffect(g: Gate, h: Gate, playerID: int, now: int)
    requires Inv(h) && Displacing(g, h, playerID) && playerID != 0 && now >= h.clock
    requires now - h.clock > h.cfg.heartbeatTimeout
    ensures Enabled(h, GCTick([1, 2], now))
    ensures var h' := Apply(h, GCTick([1, 2], now));
            && h'.byPlayer == map[] && LoggedIn(h', 2, playerID)
            && h'.nextID == 2 && h'.clock == now && h'.conns == h.conns
            && 1 in h'.sessions && h'.sessions[1].conn == None
  {
    var t := h.(clock := now);
    assert (set id | id in [1, 2]) == {1, 2};
    GCExact(t, [1, 2], now);
    assert Collectable(t, 1, now) && !Collectable(t, 2, now);
    assert CollectableIn(t, {1, 2}, now) == {1};
    assert PlayersOf(t, {1}) == {playerID};
    assert Collected(t, {1}).byPlayer == map[];
  }

  lemma CollectStep(g: Gate, run: seq<Step>, h: Gate, playerID: int, now: int) returns (run': seq<Step>, h': Gate)
    requires Leads(g, run, false, h) && Displacing(g, h, playerID) && playerID != 0
    requires now >= h.clock && now - h.clock > h.cfg.heartbeatTimeout
    ensures Leads(g, run', false, h')
    ensures h'.byPlayer == map[] && LoggedIn(h', 2, playerID) && h'.nextID == 2 && h'.clock == now
    ensures h'.conns == h.conns
    ensures 1 in h'.sessions && h'.sessions[1].conn == None
  {
    CollectEffect(g, h, playerID, now);
    run', h' := Grow(g, run, false, h, GCTick([1, 2], now));
  }

  /** Two logins of one player, and a GC pass late enough to collect the displaced session. */
  lemma LogInTwiceAndCollect(g: Gate, playerID: int) returns (run: seq<Step>, h: Gate)
    requires Fresh(g) && playerID != 0
    ensures Leads(g, run, false, h) && h.byPlayer == map[] && LoggedIn(h, 2, playerID) && h.nextID == 2
    ensures 1 in h.sessions && h.sessions[1].conn == None && 3 !in h.conns
  {
    var r0, h0 := LogInTwice(g, false, playerID);
    var late := h0.clock + (if h0.cfg.heartbeatTimeout > 0 then h0.cfg.heartbeatTimeout else 0) + 1;
    run, h := CollectStep(g, r0, h0, playerID, late);
  }

  /** The player index can be wrong while every player still has one login: its guard is not the exact condition for
      that. */
  lemma IndexBreaksFirst(g: Gate, playerID: int)
    requires Fresh(g) && playerID != 0
    ensures exists run: seq<Step> :: IsRun(g, run) && !Indexed(End(g, run)) && OneLogin(End(g, run))
  {
    var run, h := LogInTwiceAndCollect(g, playerID);
    assert h == End(g, run) && !Indexed(h);
    forall i, j, p | LoggedIn(h, i, p) && LoggedIn(h, j, p) ensures i == j {
      assert SessionOk(h, i) && SessionOk(h, j);
    }
  }

  /** Collecting a displaced session hides its player's login from the next one, even in a run without any resume. */
  lemma CollectGuardNeeded(g: Gate, playerID: int)
    requires Fresh(g) && playerID != 0
    ensures exists run: seq<Step> :: IsRun(g, run) && Avoids(run, false) && !OneLogin(End(g, run))
  {
    var r1, h1 := LogInTwiceAndCollect(g, playerID);
    var r2, h2 := LogIn(g, r1, false, h1, 3, playerID, h1.clock);
    assert Yielded(h1, h2, 2, playerID);
    assert LoggedIn(h2, 2, playerID) && LoggedIn(h2, 3, playerID);
    assert !OneLogin(End(g, r2));
  }

  /** A login response naming player 0 leaves an authenticated session without a player. */
  lemma NonZeroPlayerNeeded(g: Gate)
    requires Fresh(g)
    ensures exists run: seq<Step> :: IsRun(g, run) && !Identified(End(g, run))
  {
    RunInvariant(g, [], 0);
    var run, h := LogIn(g, [], true, g, 1, 0, g.clock);
    assert LoggedIn(h, 1, 0);
    assert !Identified(End(g, run));
  }
}
