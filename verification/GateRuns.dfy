/** Safety of the gate over whole runs. */
module GateRuns {
  import opened Prelude
  import opened Protocol
  import opened GateModel
  import opened GateInvariant
  import opened GateSteps
  import E = GateEffects
  import Token

  /** A gate as it starts: nobody connected. */
  ghost predicate Fresh(g: Gate) {
    && g.sessions == map[] && g.conns == map[] && g.bySession == {} && g.byPlayer == map[]
    && g.nextID == 0 && g.offered == []
  }

  /** After n + 1 steps comes what step n makes of the state after n. */
  lemma Unfold(g: Gate, run: seq<Step>, n: nat)
    requires IsRun(g, run) && n < |run|
    ensures Enabled(After(g, run, n), run[n])
    ensures After(g, run, n + 1) == Apply(After(g, run, n), run[n])
  {
    RunPrefix(g, run, n + 1, |run|);
    RunPrefix(g, run, n, |run|);
  }

  /** The state invariant holds throughout every run. */
  lemma {:induction false} RunInvariant(g: Gate, run: seq<Step>, n: nat)
    requires Fresh(g) && IsRun(g, run) && n <= |run|
    ensures Inv(After(g, run, n))
  {
    if n > 0 {
      RunInvariant(g, run, n - 1);
      Unfold(g, run, n - 1);
      StepShaped(After(g, run, n - 1), run[n - 1]);
    }
  }

  // ---------- attachments and closed sessions ----------

  /** Session `id` is still there, frozen if closed, and has at most let go of its connection or taken an unbound
      one. */
  ghost predicate SessionEvolves(g: Gate, g': Gate, id: int) {
    && (id in g.sessions ==>
          id in g'.sessions && (g.sessions[id].state == Closed ==> g'.sessions[id] == g.sessions[id]))
    && (id in g'.sessions && g'.sessions[id].conn.Some? ==>
          || (id in g.sessions && g.sessions[id].conn == g'.sessions[id].conn)
          || Unbound(g, g'.sessions[id].conn.value))
  }

  ghost predicate Unbound(g: Gate, c: int) {
    c !in g.conns || g.conns[c].sessionID == 0
  }

  /** Connection `c` is still there, and a session ID once given to it stays. */
  ghost predicate ConnEvolves(g: Gate, g': Gate, c: int) {
    c in g.conns ==> c in g'.conns && (g.conns[c].sessionID != 0 ==> g'.conns[c].sessionID == g.conns[c].sessionID)
  }

  ghost predicate Evolves(g: Gate, g': Gate) {
    && (forall id :: SessionEvolves(g, g', id))
    && (forall c :: ConnEvolves(g, g', c))
  }

  lemma EvolvesTransitive(a: Gate, b: Gate, c: Gate)
    requires Evolves(a, b) && Evolves(b, c)
    ensures Evolves(a, c)
  {
    forall id ensures SessionEvolves(a, c, id) {
      assert SessionEvolves(a, b, id) && SessionEvolves(b, c, id);
      if id in c.sessions && c.sessions[id].conn.Some? { assert ConnEvolves(a, b, c.sessions[id].conn.value); }
    }
    forall x ensures ConnEvolves(a, c, x) {
      assert ConnEvolves(a, b, x) && ConnEvolves(b, c, x);
    }
  }

  lemma QuietEvolves(g: Gate, g': Gate)
    requires Quiet(g, g')
    ensures Evolves(g, g')
  {
    forall id ensures SessionEvolves(g, g', id) { assert SessionQuiet(g, g', id); }
    forall c ensures ConnEvolves(g, g', c) { assert SameBinding(g, g', c); }
  }

  lemma ActEvolves(g: Gate, act: Act)
    requires Inv(g) && CanAct(g, act)
    ensures Evolves(g, Perform(g, act))
  {
    var g' := Perform(g, act);
    forall id ensures SessionEvolves(g, g', id) {
      if id in g.sessions { assert SessionOk(g, id); }
    }
    forall c ensures ConnEvolves(g, g', c) {}
  }

  lemma BeforeEvolves(g: Gate, step: Step)
    requires Enabled(g, step)
    ensures Evolves(g, Before(g, step))
  {}

  lemma StepEvolves(g: Gate, step: Step)
    requires Inv(g) && Enabled(g, step)
    ensures Evolves(g, Apply(g, step))
  {
    StepShaped(g, step);
    var b, mid := Before(g, step), Mid(g, step);
    var acted := Perform(mid, ActOf(g, step));
    BeforeEvolves(g, step);
    QuietEvolves(b, mid);
    ActEvolves(mid, ActOf(g, step));
    QuietEvolves(acted, Apply(g, step));
    EvolvesInFour(g, b, mid, acted, Apply(g, step));
  }

  lemma EvolvesInFour(g: Gate, b: Gate, mid: Gate, acted: Gate, g': Gate)
    requires Evolves(g, b) && Evolves(b, mid) && Evolves(mid, acted) && Evolves(acted, g')
    ensures Evolves(g, g')
  {
    EvolvesTransitive(g, b, mid);
    EvolvesTransitive(g, mid, acted);
    EvolvesTransitive(g, acted, g');
  }

  lemma {:induction false} RunEvolves(g: Gate, run: seq<Step>, m: nat, n: nat)
    requires Fresh(g) && IsRun(g, run) && m <= n <= |run|
    ensures Evolves(After(g, run, m), After(g, run, n))
  {
    if m == n {
      assert Evolves(After(g, run, m), After(g, run, n));
    } else {
      RunEvolves(g, run, m, n - 1);
      Unfold(g, run, n - 1);
      RunInvariant(g, run, n - 1);
      StepEvolves(After(g, run, n - 1), run[n - 1]);
      EvolvesTransitive(After(g, run, m), After(g, run, n - 1), After(g, run, n));
    }
  }

  /** A connection is attached at most once in a run: the session it gets is the only one ever to hold it, and once
      let go it is never held again. */
  lemma AttachedAtMostOnce(g: Gate, run: seq<Step>, m: nat, n: nat, c: int)
    requires Fresh(g) && IsRun(g, run) && m <= n <= |run|
    requires c in After(g, run, m).conns && After(g, run, m).conns[c].sessionID != 0
    ensures var h, h' := After(g, run, m), After(g, run, n);
            var id := h.conns[c].sessionID;
            && c in h'.conns && h'.conns[c].sessionID == id && id in h.sessions && id in h'.sessions
            && (forall k | k in h'.sessions && h'.sessions[k].conn == Some(c) :: k == id)
            && (h.sessions[id].conn != Some(c) ==> h'.sessions[id].conn != Some(c))
  {
    RunEvolves(g, run, m, n);
    RunInvariant(g, run, m);
    RunInvariant(g, run, n);
    var h, h' := After(g, run, m), After(g, run, n);
    var id := h.conns[c].sessionID;
    assert ConnEvolves(h, h', c) && SessionEvolves(h, h', id);
    forall k | k in h'.sessions && h'.sessions[k].conn == Some(c) ensures k == id { assert SessionOk(h', k); }
  }

  /** A collected session never changes again and is never registered again. */
  lemma ClosedForGood(g: Gate, run: seq<Step>, m: nat, n: nat, id: int)
    requires Fresh(g) && IsRun(g, run) && m <= n <= |run|
    requires id in After(g, run, m).sessions && After(g, run, m).sessions[id].state == Closed
    ensures id in After(g, run, n).sessions && After(g, run, n).sessions[id] == After(g, run, m).sessions[id]
    ensures id !in After(g, run, n).bySession
  {
    RunEvolves(g, run, m, n);
    RunInvariant(g, run, n);
    assert SessionEvolves(After(g, run, m), After(g, run, n), id);
    assert SessionOk(After(g, run, n), id);
  }

  // ---------- authenticated sessions have a player ----------

  ghost predicate Identified(g: Gate) {
    forall id | id in g.sessions && g.sessions[id].state == Authenticated :: g.sessions[id].playerID != 0
  }

  lemma QuietIdentified(g: Gate, g': Gate)
    requires Quiet(g, g') && Identified(g)
    ensures Identified(g')
  {
    forall id | id in g'.sessions && g'.sessions[id].state == Authenticated ensures g'.sessions[id].playerID != 0 {
      assert SessionQuiet(g, g', id);
    }
  }

  /** The step's login response names player 0. */
  predicate BindsNobody(g: Gate, step: Step)
    requires Enabled(g, step)
  {
    ActOf(g, step).Binding? && ActOf(g, step).playerID == 0
  }

  lemma StepIdentified(g: Gate, step: Step)
    requires Inv(g) && Enabled(g, step) && Identified(g)
    ensures Identified(Apply(g, step)) <==> !BindsNobody(g, step)
  {
    if BindsNobody(g, step) {
      BoundSurvives(g, step);
      assert Apply(g, step).sessions[ActOf(g, step).id].playerID == 0;
    } else {
      StepShaped(g, step);
      QuietIdentified(Before(g, step), Mid(g, step));
      ActIdentified(Mid(g, step), ActOf(g, step));
      QuietIdentified(Perform(Mid(g, step), ActOf(g, step)), Apply(g, step));
    }
  }

  lemma ActIdentified(g: Gate, act: Act)
    requires Inv(g) && CanAct(g, act) && Identified(g) && !(act.Binding? && act.playerID == 0)
    ensures Identified(Perform(g, act))
  {}

  /** After a login response the session is authenticated, whatever the reply's fate. */
  lemma BoundSurvives(g: Gate, step: Step)
    requires Inv(g) && Enabled(g, step) && ActOf(g, step).Binding?
    ensures var id := ActOf(g, step).id;
            var g' := Apply(g, step);
            && id in g'.sessions && g'.sessions[id].state == Authenticated
            && g'.sessions[id].playerID == ActOf(g, step).playerID
            && g'.byPlayer == g.byPlayer[ActOf(g, step).playerID := id]
  {
    var t := g.(clock := step.now);
    var id := ActOf(g, step).id;
    BeforeOk(g, step);
    OnLoginRspOk(t, id, ActOf(g, step).playerID, step.now);
    var g1 := OnLoginRsp(t, id, step.rsp, step.now);
    assert Apply(g, step).sessions == g1.sessions && Apply(g, step).byPlayer == g1.byPlayer;
  }

  /** The state step `n` is taken in. */
  ghost function Source(g: Gate, run: seq<Step>, n: nat): (h: Gate)
    requires IsRun(g, run) && n < |run|
    ensures Enabled(h, run[n])
  {
    Unfold(g, run, n);
    After(g, run, n)
  }

  ghost predicate IdentifiedAt(g: Gate, run: seq<Step>, m: nat)
    requires IsRun(g, run) && m <= |run|
  {
    Identified(After(g, run, m))
  }

  ghost predicate BindsNobodyAt(g: Gate, run: seq<Step>, m: nat)
    requires IsRun(g, run) && m < |run|
  {
    BindsNobody(Source(g, run, m), run[m])
  }

  lemma {:induction false} IdentifiedForward(g: Gate, run: seq<Step>, n: nat)
    requires Fresh(g) && IsRun(g, run) && n <= |run| && forall m | 0 <= m < n :: !BindsNobodyAt(g, run, m)
    ensures IdentifiedAt(g, run, n)
  {
    if n == 0 {
      assert After(g, run, 0) == g;
    } else {
      IdentifiedForward(g, run, n - 1);
      assert !BindsNobodyAt(g, run, n - 1);
      StepIdentifiedAt(g, run, n - 1);
    }
  }

  lemma IdentifiedBackward(g: Gate, run: seq<Step>, n: nat, m: nat)
    requires Fresh(g) && IsRun(g, run) && m < n <= |run| && forall k | 0 <= k <= n :: IdentifiedAt(g, run, k)
    ensures !BindsNobodyAt(g, run, m)
  {
    StepIdentifiedAt(g, run, m);
  }

  /** Every authenticated session has a player at every moment of a run, if and only if no accepted login response
      names player 0. */
  lemma IdentifiedExactly(g: Gate, run: seq<Step>, n: nat)
    requires Fresh(g) && IsRun(g, run) && n <= |run|
    ensures (forall m | 0 <= m <= n :: IdentifiedAt(g, run, m))
            <==> (forall m | 0 <= m < n :: !BindsNobodyAt(g, run, m))
  {
    if forall m | 0 <= m < n :: !BindsNobodyAt(g, run, m) {
      forall m | 0 <= m <= n ensures IdentifiedAt(g, run, m) { IdentifiedForward(g, run, m); }
    }
    if forall m | 0 <= m <= n :: IdentifiedAt(g, run, m) {
      forall m | 0 <= m < n ensures !BindsNobodyAt(g, run, m) { IdentifiedBackward(g, run, n, m); }
    }
  }

  lemma StepIdentifiedAt(g: Gate, run: seq<Step>, n: nat)
    requires Fresh(g) && IsRun(g, run) && n < |run|
    ensures IdentifiedAt(g, run, n) ==> (IdentifiedAt(g, run, n + 1) <==> !BindsNobodyAt(g, run, n))
  {
    RunInvariant(g, run, n);
    Unfold(g, run, n);
    if IdentifiedAt(g, run, n) { StepIdentified(After(g, run, n), run[n]); }
  }

  // ---------- one connected login per player ----------

  ghost predicate LoggedIn(g: Gate, id: int, playerID: int) {
    && id in g.sessions && g.sessions[id].conn.Some?
    && g.sessions[id].state == Authenticated && g.sessions[id].playerID == playerID
  }

  /** No two sessions are connected and authenticated for one player. */
  ghost predicate OneLogin(g: Gate) {
    forall i, j, p :: LoggedIn(g, i, p) && LoggedIn(g, j, p) ==> i == j
  }

  /** The player index holds every connected, authenticated session. */
  ghost predicate Indexed(g: Gate) {
    forall i, p :: LoggedIn(g, i, p) ==> p in g.byPlayer && g.byPlayer[p] == i
  }

  lemma IndexedOneLogin(g: Gate)
    requires Indexed(g)
    ensures OneLogin(g)
  {}

  /** A resume is of the session the index holds for its player. */
  predicate ResumesOwner(g: Gate, id: int)
    requires id in g.sessions
  {
    var p := g.sessions[id].playerID;
    p != 0 ==> p in g.byPlayer && g.byPlayer[p] == id
  }

  /** No session a GC pass collects shares its player with a session that is logged in. */
  ghost predicate CollectsNoOwner(g: Gate, now: int) {
    forall id, t | id in g.bySession && Collectable(g, id, now) && g.sessions[id].playerID != 0 ::
      !LoggedIn(g, t, g.sessions[id].playerID)
  }

  /** The only two ways a step can break the index. */
  ghost predicate Guarded(g: Gate, step: Step)
    requires Inv(g) && Enabled(g, step)
  {
    match ActOf(g, step)
    case Reconnects(id, _) => ResumesOwner(g, id)
    case Collects => CollectsNoOwner(g.(clock := step.now), step.now)
    case _ => true
  }

  lemma QuietIndexed(g: Gate, g': Gate)
    requires Quiet(g, g') && Indexed(g)
    ensures Indexed(g')
  {
    forall i, p | LoggedIn(g', i, p) ensures p in g'.byPlayer && g'.byPlayer[p] == i {
      assert SessionQuiet(g, g', i);
      assert LoggedIn(g, i, p);
    }
  }

  lemma ReconnectEffect(g: Gate, step: Step)
    requires Inv(g) && Enabled(g, step) && ActOf(g, step).Reconnects?
    ensures var id, g' := ActOf(g, step).id, Apply(g, step);
            && id in g.sessions && id in g'.sessions
            && g'.byPlayer == g.byPlayer && g'.sessions == g.sessions[id := g'.sessions[id]]
            && g'.sessions[id].conn.Some? && g'.sessions[id].playerID == g.sessions[id].playerID
            && g'.sessions[id].state == if g.sessions[id].playerID != 0 then Authenticated else Online
  {
    StepShaped(g, step);
    var mid := Mid(g, step);
    assert mid.sessions == g.sessions;
  }

  lemma ReconnectIndexed(g: Gate, step: Step)
    requires Inv(g) && Enabled(g, step) && Indexed(g) && ActOf(g, step).Reconnects?
    ensures Indexed(Apply(g, step)) <==> Guarded(g, step)
  {
    var id, g' := ActOf(g, step).id, Apply(g, step);
    ReconnectEffect(g, step);
    if g.sessions[id].playerID != 0 { assert LoggedIn(g', id, g.sessions[id].playerID); }
    forall i, p | i != id && LoggedIn(g', i, p) ensures p in g'.byPlayer && g'.byPlayer[p] == i {
      assert LoggedIn(g, i, p);
    }
  }

  lemma CollectIndexed(g: Gate, step: Step)
    requires Inv(g) && Enabled(g, step) && Indexed(g) && ActOf(g, step).Collects?
    ensures Indexed(Apply(g, step)) <==> Guarded(g, step)
  {
    StepShaped(g, step);
    var t := Mid(g, step);
    var ids := CollectableIn(t, t.bySession, step.now);
    var g' := Apply(g, step);
    assert g' == Collected(t, ids);
    forall i, p ensures LoggedIn(g', i, p) <==> LoggedIn(t, i, p) {}
    forall i, p | LoggedIn(t, i, p) ensures p in t.byPlayer && t.byPlayer[p] == i { assert LoggedIn(g, i, p); }
    if !Guarded(g, step) {
      var id, i :| id in t.bySession && Collectable(t, id, step.now) && t.sessions[id].playerID != 0
                   && LoggedIn(t, i, t.sessions[id].playerID);
      assert id in ids;
      assert t.sessions[id].playerID in PlayersOf(t, ids);
      assert LoggedIn(g', i, t.sessions[id].playerID);
    } else {
      forall i, p | LoggedIn(g', i, p) ensures p in g'.byPlayer && g'.byPlayer[p] == i { assert LoggedIn(t, i, p); }
    }
  }

  /** The session a login displaces has no connection left. */
  lemma ClearedDisconnects(g: Gate, id: int, playerID: int, now: int)
    requires Inv(g) && playerID in g.byPlayer && g.byPlayer[playerID] != id
    ensures Cleared(g, id, playerID, now).sessions[g.byPlayer[playerID]].conn == None
  {
    KickLinks(g, g.byPlayer[playerID], now);
  }

  lemma BindingIndexed(g: Gate, id: int, playerID: int)
    requires Inv(g) && id in g.bySession && Indexed(g)
    requires playerID in g.byPlayer && g.byPlayer[playerID] != id ==> g.sessions[g.byPlayer[playerID]].conn == None
    ensures Indexed(Bound(g, id, playerID))
  {
    var g' := Bound(g, id, playerID);
    forall i, p | LoggedIn(g', i, p) ensures p in g'.byPlayer && g'.byPlayer[p] == i {
      if i != id { assert LoggedIn(g, i, p); }
    }
  }

  lemma OtherIndexed(g: Gate, step: Step)
    requires Inv(g) && Enabled(g, step) && Indexed(g) && !ActOf(g, step).Collects? && !ActOf(g, step).Reconnects?
    ensures Indexed(Apply(g, step))
  {
    StepShaped(g, step);
    var b, mid := Before(g, step), Mid(g, step);
    var act := ActOf(g, step);
    forall i, p | LoggedIn(b, i, p) ensures p in b.byPlayer && b.byPlayer[p] == i { assert LoggedIn(g, i, p); }
    assert Indexed(b);
    QuietIndexed(b, mid);
    match act {
      case Idle =>
      case Creates(c, nonce) =>
        forall i, p | LoggedIn(Perform(mid, act), i, p) ensures p in mid.byPlayer && mid.byPlayer[p] == i {
          assert LoggedIn(mid, i, p);
        }
      case Binding(id, p) =>
        if p in b.byPlayer && b.byPlayer[p] != id { ClearedDisconnects(b, id, p, step.now); }
        BindingIndexed(mid, id, p);
    }
    QuietIndexed(Perform(mid, act), Apply(g, step));
  }

  lemma StepIndexed(g: Gate, step: Step)
    requires Inv(g) && Enabled(g, step) && Indexed(g)
    ensures Indexed(Apply(g, step)) <==> Guarded(g, step)
  {
    match ActOf(g, step) {
      case Reconnects(_, _) => ReconnectIndexed(g, step);
      case Collects => CollectIndexed(g, step);
      case _ => OtherIndexed(g, step);
    }
  }

  ghost predicate IndexedAt(g: Gate, run: seq<Step>, m: nat)
    requires IsRun(g, run) && m <= |run|
  {
    Indexed(After(g, run, m))
  }

  ghost predicate GuardedAt(g: Gate, run: seq<Step>, m: nat)
    requires Fresh(g) && IsRun(g, run) && m < |run|
  {
    RunInvariant(g, run, m);
    Guarded(Source(g, run, m), run[m])
  }

  lemma StepIndexedAt(g: Gate, run: seq<Step>, n: nat)
    requires Fresh(g) && IsRun(g, run) && n < |run|
    ensures IndexedAt(g, run, n) ==> (IndexedAt(g, run, n + 1) <==> GuardedAt(g, run, n))
  {
    RunInvariant(g, run, n);
    Unfold(g, run, n);
    if IndexedAt(g, run, n) { StepIndexed(After(g, run, n), run[n]); }
  }

  lemma {:induction false} IndexedForward(g: Gate, run: seq<Step>, n: nat)
    requires Fresh(g) && IsRun(g, run) && n <= |run| && forall m | 0 <= m < n :: GuardedAt(g, run, m)
    ensures IndexedAt(g, run, n)
  {
    if n == 0 {
      assert After(g, run, 0) == g;
    } else {
      IndexedForward(g, run, n - 1);
      assert GuardedAt(g, run, n - 1);
      StepIndexedAt(g, run, n - 1);
    }
  }

  lemma IndexedBackward(g: Gate, run: seq<Step>, n: nat, m: nat)
    requires Fresh(g) && IsRun(g, run) && m < n <= |run| && forall k | 0 <= k <= n :: IndexedAt(g, run, k)
    ensures GuardedAt(g, run, m)
  {
    StepIndexedAt(g, run, m);
  }

  /** The index holds every logged-in session at every moment of a run, if and only if every resume is of its
      player's indexed session and no GC pass collects a session of a player who is logged in elsewhere. */
  lemma IndexedExactly(g: Gate, run: seq<Step>, n: nat)
    requires Fresh(g) && IsRun(g, run) && n <= |run|
    ensures (forall m | 0 <= m <= n :: IndexedAt(g, run, m)) <==> (forall m | 0 <= m < n :: GuardedAt(g, run, m))
  {
    if forall m | 0 <= m < n :: GuardedAt(g, run, m) {
      forall m | 0 <= m <= n ensures IndexedAt(g, run, m) { IndexedForward(g, run, m); }
    }
    if forall m | 0 <= m <= n :: IndexedAt(g, run, m) {
      forall m | 0 <= m < n ensures GuardedAt(g, run, m) { IndexedBackward(g, run, n, m); }
    }
  }

  /** One connected login per player, at every moment of every guarded run. */
  lemma OneLoginPerPlayer(g: Gate, run: seq<Step>, n: nat)
    requires Fresh(g) && IsRun(g, run) && n <= |run|
    requires forall m | 0 <= m < n :: GuardedAt(g, run, m)
    ensures OneLogin(After(g, run, n))
  {
    IndexedExactly(g, run, n);
    assert IndexedAt(g, run, n);
    IndexedOneLogin(After(g, run, n));
  }

  /** Nobody else is logged in, after the step, for the player it logs in: on a resume nobody is, on a login only the
      session the index holds, which is kicked. */
  ghost predicate Alone(g: Gate, step: Step)
    requires Inv(g) && Enabled(g, step)
  {
    match ActOf(g, step)
    case Reconnects(id, _) =>
      g.sessions[id].playerID != 0 ==> forall t | t != id :: !LoggedIn(g, t, g.sessions[id].playerID)
    case Binding(id, p) =>
      g.sessions[id].conn.Some? ==> forall t | t != id && LoggedIn(g, t, p) :: p in g.byPlayer && g.byPlayer[p] == t
    case _ => true
  }

  /** What a login leaves of a session other than its own. */
  ghost predicate Spared(g: Gate, g': Gate, i: int, p: int, now: int) {
    && (i in g'.sessions <==> i in g.sessions)
    && (i in g.sessions ==>
          g'.sessions[i] == if p in g.byPlayer && g.byPlayer[p] == i && g.sessions[i].conn.Some?
                            then Detached(g.sessions[i], now) else g.sessions[i])
  }

  lemma TakeOverSpares(g: Gate, id: int, p: int, now: int)
    requires Inv(g) && id in g.sessions
    ensures var g' := Cleared(g, id, p, now);
            id in g'.sessions && g'.sessions[id] == g.sessions[id] && forall i | i != id :: Spared(g, g', i, p, now)
  {
    if p in g.byPlayer && g.byPlayer[p] != id { KickLinks(g, g.byPlayer[p], now); }
  }

  lemma BindEffect(g: Gate, step: Step)
    requires Inv(g) && Enabled(g, step) && ActOf(g, step).Binding?
    ensures var id, p, g' := ActOf(g, step).id, ActOf(g, step).playerID, Apply(g, step);
            && id in g.sessions && id in g'.sessions
            && g'.sessions[id] == g.sessions[id].(playerID := p, state := Authenticated)
            && forall i | i != id :: Spared(g, g', i, p, step.now)
  {
    var t, id, p := Before(g, step), ActOf(g, step).id, ActOf(g, step).playerID;
    BeforeOk(g, step);
    OnLoginRspOk(t, id, p, step.now);
    TakeOverSpares(t, id, p, step.now);
    assert Apply(g, step).sessions == OnLoginRsp(t, id, step.rsp, step.now).sessions;
    forall i | i != id ensures Spared(g, Apply(g, step), i, p, step.now) {
      assert Spared(t, Cleared(t, id, p, step.now), i, p, step.now);
    }
  }

  lemma QuietLoggedIn(g: Gate, g': Gate, i: int, p: int)
    requires Quiet(g, g') && LoggedIn(g', i, p)
    ensures LoggedIn(g, i, p)
  {
    assert SessionQuiet(g, g', i);
  }

  /** Only a resume or a login logs anybody in. */
  lemma OtherLogsNobodyIn(g: Gate, step: Step, i: int, p: int)
    requires Inv(g) && Enabled(g, step) && !ActOf(g, step).Reconnects? && !ActOf(g, step).Binding?
    requires LoggedIn(Apply(g, step), i, p)
    ensures LoggedIn(g, i, p)
  {
    StepShaped(g, step);
    var mid := Mid(g, step);
    QuietLoggedIn(Perform(mid, ActOf(g, step)), Apply(g, step), i, p);
    assert LoggedIn(mid, i, p);
    QuietLoggedIn(Before(g, step), mid, i, p);
  }

  lemma ReconnectOneLogin(g: Gate, step: Step)
    requires Inv(g) && Enabled(g, step) && OneLogin(g) && ActOf(g, step).Reconnects?
    ensures OneLogin(Apply(g, step)) <==> Alone(g, step)
  {
    ReconnectEffect(g, step);
    var id, g' := ActOf(g, step).id, Apply(g, step);
    var p := g.sessions[id].playerID;
    forall i, q | i != id ensures LoggedIn(g', i, q) <==> LoggedIn(g, i, q) {}
    if p != 0 { assert LoggedIn(g', id, p); }
  }

  lemma BindingOneLogin(g: Gate, step: Step)
    requires Inv(g) && Enabled(g, step) && OneLogin(g) && ActOf(g, step).Binding?
    ensures OneLogin(Apply(g, step)) <==> Alone(g, step)
  {
    BindEffect(g, step);
    var id, p, g' := ActOf(g, step).id, ActOf(g, step).playerID, Apply(g, step);
    forall i, q | i != id
      ensures LoggedIn(g', i, q) <==> LoggedIn(g, i, q) && !(p in g.byPlayer && g.byPlayer[p] == i)
    {
      assert Spared(g, g', i, p, step.now);
    }
    forall q ensures LoggedIn(g', id, q) <==> g.sessions[id].conn.Some? && q == p {}
    if OneLogin(g') && g.sessions[id].conn.Some? {
      assert LoggedIn(g', id, p);
      forall t | t != id && LoggedIn(g, t, p) ensures p in g.byPlayer && g.byPlayer[p] == t {
        assert !LoggedIn(g', t, p);
      }
    }
    if Alone(g, step) {
      forall i, j, q | LoggedIn(g', i, q) && LoggedIn(g', j, q) ensures i == j {
        assert i != id ==> LoggedIn(g, i, q);
        assert j != id ==> LoggedIn(g, j, q);
      }
    }
  }

  lemma StepOneLogin(g: Gate, step: Step)
    requires Inv(g) && Enabled(g, step) && OneLogin(g)
    ensures OneLogin(Apply(g, step)) <==> Alone(g, step)
  {
    match ActOf(g, step) {
      case Reconnects(_, _) => ReconnectOneLogin(g, step);
      case Binding(_, _) => BindingOneLogin(g, step);
      case _ =>
        forall i, j, p | LoggedIn(Apply(g, step), i, p) && LoggedIn(Apply(g, step), j, p) ensures i == j {
          OtherLogsNobodyIn(g, step, i, p);
          OtherLogsNobodyIn(g, step, j, p);
        }
    }
  }

  ghost predicate OneLoginAt(g: Gate, run: seq<Step>, m: nat)
    requires IsRun(g, run) && m <= |run|
  {
    OneLogin(After(g, run, m))
  }

  ghost predicate AloneAt(g: Gate, run: seq<Step>, m: nat)
    requires Fresh(g) && IsRun(g, run) && m < |run|
  {
    RunInvariant(g, run, m);
    Alone(Source(g, run, m), run[m])
  }

  lemma StepOneLoginAt(g: Gate, run: seq<Step>, n: nat)
    requires Fresh(g) && IsRun(g, run) && n < |run|
    ensures OneLoginAt(g, run, n) ==> (OneLoginAt(g, run, n + 1) <==> AloneAt(g, run, n))
  {
    RunInvariant(g, run, n);
    Unfold(g, run, n);
    if OneLoginAt(g, run, n) { StepOneLogin(After(g, run, n), run[n]); }
  }

  lemma {:induction false} OneLoginForward(g: Gate, run: seq<Step>, n: nat)
    requires Fresh(g) && IsRun(g, run) && n <= |run| && forall m | 0 <= m < n :: AloneAt(g, run, m)
    ensures OneLoginAt(g, run, n)
  {
    if n == 0 {
      assert After(g, run, 0) == g;
    } else {
      OneLoginForward(g, run, n - 1);
      assert AloneAt(g, run, n - 1);
      StepOneLoginAt(g, run, n - 1);
    }
  }

  lemma OneLoginBackward(g: Gate, run: seq<Step>, n: nat, m: nat)
    requires Fresh(g) && IsRun(g, run) && m < n <= |run| && forall k | 0 <= k <= n :: OneLoginAt(g, run, k)
    ensures AloneAt(g, run, m)
  {
    StepOneLoginAt(g, run, m);
  }

  /** One connected login per player at every moment of a run, if and only if every resume found nobody logged in for
      its player and every login nobody but the session it displaced. */
  lemma OneLoginExactly(g: Gate, run: seq<Step>, n: nat)
    requires Fresh(g) && IsRun(g, run) && n <= |run|
    ensures (forall m | 0 <= m <= n :: OneLoginAt(g, run, m)) <==> (forall m | 0 <= m < n :: AloneAt(g, run, m))
  {
    if forall m | 0 <= m < n :: AloneAt(g, run, m) {
      forall m | 0 <= m <= n ensures OneLoginAt(g, run, m) { OneLoginForward(g, run, m); }
    }
    if forall m | 0 <= m <= n :: OneLoginAt(g, run, m) {
      forall m | 0 <= m < n ensures AloneAt(g, run, m) { OneLoginBackward(g, run, n, m); }
    }
  }

  // ---------- the player index and the history of bindings ----------

  /** The session that most recently bound player `p` in the first `n` steps. */
  ghost function LastBinder(g: Gate, run: seq<Step>, n: nat, p: int): Option<int>
    requires IsRun(g, run) && n <= |run|
  {
    if n == 0 then None
    else
      var act := ActOf(Source(g, run, n - 1), run[n - 1]);
      if act.Binding? && act.playerID == p then Some(act.id) else LastBinder(g, run, n - 1, p)
  }

  /** A step never adds or changes an index entry but by binding a player. */
  lemma StepIndex(g: Gate, step: Step, p: int)
    requires Inv(g) && Enabled(g, step) && p in Apply(g, step).byPlayer
    ensures var act := ActOf(g, step);
            if act.Binding? && act.playerID == p then Apply(g, step).byPlayer[p] == act.id
            else p in g.byPlayer && Apply(g, step).byPlayer[p] == g.byPlayer[p]
  {
    IndexThrough(g, step);
    ActIndex(Mid(g, step), ActOf(g, step), p);
  }

  /** Only the act changes the index. */
  lemma IndexThrough(g: Gate, step: Step)
    requires Inv(g) && Enabled(g, step)
    ensures CanAct(Mid(g, step), ActOf(g, step)) && Mid(g, step).byPlayer == g.byPlayer
    ensures Apply(g, step).byPlayer == Perform(Mid(g, step), ActOf(g, step)).byPlayer
  {
    StepShaped(g, step);
  }

  lemma ActIndex(g: Gate, act: Act, p: int)
    requires CanAct(g, act) && p in Perform(g, act).byPlayer
    ensures if act.Binding? && act.playerID == p then Perform(g, act).byPlayer[p] == act.id
            else p in g.byPlayer && Perform(g, act).byPlayer[p] == g.byPlayer[p]
  {}

  /** Whenever the player index has an entry, it is the session that bound that player last, through any rebinds,
      kicks, resumes and collections. */
  lemma {:induction false} IndexIsLastBinder(g: Gate, run: seq<Step>, n: nat, p: int)
    requires Fresh(g) && IsRun(g, run) && n <= |run| && p in After(g, run, n).byPlayer
    ensures LastBinder(g, run, n, p) == Some(After(g, run, n).byPlayer[p])
  {
    if n > 0 {
      RunInvariant(g, run, n - 1);
      Unfold(g, run, n - 1);
      StepIndex(After(g, run, n - 1), run[n - 1], p);
      if p in After(g, run, n - 1).byPlayer { IndexIsLastBinder(g, run, n - 1, p); }
    }
  }

  /** Right after a login the index holds the new session, and the one it displaced has no connection: the one it had
      is closed. */
  lemma LoginTakesOver(g: Gate, step: Step)
    requires Inv(g) && Enabled(g, step) && ActOf(g, step).Binding?
    ensures var id, p, g' := ActOf(g, step).id, ActOf(g, step).playerID, Apply(g, step);
            && p in g'.byPlayer && g'.byPlayer[p] == id
            && (p in g.byPlayer && g.byPlayer[p] != id ==>
                  && g.byPlayer[p] in g'.sessions && g'.sessions[g.byPlayer[p]].conn == None
                  && var was := g.sessions[g.byPlayer[p]].conn;
                     was.Some? ==> was.value in g'.conns && g'.conns[was.value].closed)
  {
    var id, p := ActOf(g, step).id, ActOf(g, step).playerID;
    BoundSurvives(g, step);
    StepShaped(g, step);
    if p in g.byPlayer && g.byPlayer[p] != id {
      ClearedDisconnects(Before(g, step), id, p, step.now);
      assert SessionQuiet(Perform(Mid(g, step), ActOf(g, step)), Apply(g, step), g.byPlayer[p]);
      var was := g.sessions[g.byPlayer[p]].conn;
      if was.Some? { E.LetGoClosedExactly(g, step, g.byPlayer[p], was.value); }
    }
  }

  // ---------- the grace period ----------

  ghost predicate OfflineIn(g: Gate, id: int) {
    id in g.sessions && g.sessions[id].state == Offline
  }

  /** A session found Offline either was so before, with an older time, or has just been seen. */
  ghost predicate Lingers(g: Gate, g': Gate, id: int) {
    OfflineIn(g', id) ==>
      || g'.sessions[id].lastSeen >= g'.clock
      || (OfflineIn(g, id) && g.sessions[id].lastSeen <= g'.sessions[id].lastSeen)
  }

  /** An act leaves the sessions it finds or makes Offline as they were. */
  lemma ActKeepsOffline(g: Gate, act: Act, id: int)
    requires Inv(g) && CanAct(g, act) && OfflineIn(Perform(g, act), id)
    ensures id in g.sessions && Perform(g, act).sessions[id] == g.sessions[id]
  {}

  lemma LingersThrough(b: Gate, mid: Gate, act: Act, g': Gate, id: int)
    requires Ok(b, mid) && CanAct(mid, act) && Quiet(Perform(mid, act), g')
    ensures Lingers(b, g', id) && g'.clock == b.clock
  {
    var acted := Perform(mid, act);
    assert acted.clock == b.clock;
    assert SessionQuiet(b, mid, id) && SessionQuiet(acted, g', id);
    if OfflineIn(acted, id) { ActKeepsOffline(mid, act, id); }
  }

  lemma StepLingers(g: Gate, step: Step, id: int)
    requires Inv(g) && Enabled(g, step)
    ensures Lingers(g, Apply(g, step), id) && Apply(g, step).clock == step.now
  {
    StepShaped(g, step);
    LingersThrough(Before(g, step), Mid(g, step), ActOf(g, step), Apply(g, step), id);
  }

  lemma LingersAt(g: Gate, run: seq<Step>, n: nat, id: int)
    requires Fresh(g) && IsRun(g, run) && n < |run|
    ensures Lingers(After(g, run, n), After(g, run, n + 1), id)
    ensures After(g, run, n + 1).clock == run[n].now && run[n].now >= After(g, run, n).clock
  {
    Unfold(g, run, n);
    RunInvariant(g, run, n);
    StepLingers(After(g, run, n), run[n], id);
  }

  /** Clocks along a run. */
  lemma {:induction false} ClockMonotone(g: Gate, run: seq<Step>, m: nat, n: nat)
    requires Fresh(g) && IsRun(g, run) && m < n <= |run|
    ensures run[m].now <= After(g, run, n).clock
  {
    LingersAt(g, run, n - 1, 0);
    if m < n - 1 { ClockMonotone(g, run, m, n - 1); }
  }

  /** A session Offline now has been Offline ever since its last-seen time. */
  lemma {:induction false} OfflineSince(g: Gate, run: seq<Step>, m: nat, n: nat, id: int)
    requires Fresh(g) && IsRun(g, run) && m < n <= |run| && OfflineIn(After(g, run, n), id)
    ensures OfflineIn(After(g, run, m), id) || run[m].now <= After(g, run, n).sessions[id].lastSeen
  {
    LingersAt(g, run, n - 1, id);
    ClockMonotone(g, run, m, n);
    if m < n - 1 && OfflineIn(After(g, run, n - 1), id) { OfflineSince(g, run, m, n - 1, id); }
  }

  lemma StepUnregisters(g: Gate, step: Step, id: int)
    requires Inv(g) && Enabled(g, step) && id in g.bySession && id !in Apply(g, step).bySession
    ensures step.GCTick? && OfflineIn(g, id) && step.now - g.sessions[id].lastSeen > g.cfg.heartbeatTimeout
  {
    StepShaped(g, step);
    assert Collectable(Mid(g, step), id, step.now);
  }

  /** Only a GC pass unregisters a session, and only one that was Offline at every step taken within the grace period
      before it. */
  lemma GracePeriod(g: Gate, run: seq<Step>, n: nat, id: int)
    requires Fresh(g) && IsRun(g, run) && n < |run|
    requires id in After(g, run, n).bySession && id !in After(g, run, n + 1).bySession
    ensures run[n].GCTick? && OfflineIn(After(g, run, n), id)
    ensures forall m | 0 <= m < n && !OfflineIn(After(g, run, m), id) ::
              run[n].now - run[m].now > After(g, run, n).cfg.heartbeatTimeout
  {
    var h := After(g, run, n);
    Unfold(g, run, n);
    RunInvariant(g, run, n);
    StepUnregisters(h, run[n], id);
    forall m | 0 <= m < n && !OfflineIn(After(g, run, m), id)
      ensures run[n].now - run[m].now > h.cfg.heartbeatTimeout
    {
      OfflineSince(g, run, m, n, id);
    }
  }

  // ---------- offline notices ----------

  lemma SignalledThrough(b: Gate, mid: Gate, act: Act, g': Gate, id: int)
    requires Ok(b, mid) && CanAct(mid, act) && Quiet(Perform(mid, act), g') && b.poolReady
    requires id in b.sessions && Live(b.sessions[id].state)
    requires OfflineIn(g', id) && g'.sessions[id].playerID != 0
    ensures exists i :: |b.offered| <= i < |g'.offered| && g'.offered[i] == OfflineNotice(g'.sessions[id])
  {
    var acted := Perform(mid, act);
    assert SessionQuiet(b, mid, id) && SessionQuiet(acted, g', id);
    if OfflineIn(acted, id) {
      ActKeepsOffline(mid, act, id);
      var i :| |b.offered| <= i < |mid.offered| && mid.offered[i] == OfflineNotice(b.sessions[id]);
      assert g'.offered[i] == mid.offered[i];
    } else {
      var i :| |acted.offered| <= i < |g'.offered| && g'.offered[i] == OfflineNotice(acted.sessions[id]);
      assert |b.offered| <= i;
    }
  }

  /** A step that takes a player's live session offline offers the service pool a notice naming that session and
      player. */
  lemma OfflineIsSignalled(g: Gate, step: Step, id: int)
    requires Inv(g) && Enabled(g, step) && g.poolReady
    requires id in g.sessions && Live(g.sessions[id].state)
    requires OfflineIn(Apply(g, step), id) && Apply(g, step).sessions[id].playerID != 0
    ensures exists i :: |g.offered| <= i < |Apply(g, step).offered|
                        && Apply(g, step).offered[i] == OfflineNotice(Apply(g, step).sessions[id])
  {
    StepShaped(g, step);
    SignalledThrough(Before(g, step), Mid(g, step), ActOf(g, step), Apply(g, step), id);
  }
}
