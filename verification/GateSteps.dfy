/** Every step of the gate is quiet but for at most one act: a creation, a resume, a binding or a collection. */
module GateSteps {
  import opened Prelude
  import opened Protocol
  import opened GateModel
  import opened GateInvariant

  // ---------- the sweeps, in closed form ----------

  ghost function CollectableIn(g: Gate, ids: set<int>, now: int): set<int> {
    set id | id in ids && Collectable(g, id, now)
  }

  ghost function PlayersOf(g: Gate, ids: set<int>): set<int>
    requires ids <= g.sessions.Keys
  {
    set id | id in ids && g.sessions[id].playerID != 0 :: g.sessions[id].playerID
  }

  /** The sessions `ids` closed and unregistered, with the index entries of their players gone. */
  ghost function Collected(g: Gate, ids: set<int>): Gate
    requires ids <= g.sessions.Keys
  {
    g.(sessions := map id | id in g.sessions :: if id in ids then g.sessions[id].(state := Closed) else g.sessions[id],
       bySession := g.bySession - ids,
       byPlayer := g.byPlayer - PlayersOf(g, ids))
  }

  /** Visiting one more session after those in `done` were collected. */
  lemma CollectNext(g: Gate, done: set<int>, id: int, now: int)
    requires done <= g.sessions.Keys && (forall i | i in done :: Collectable(g, i, now))
    ensures CollectOne(Collected(g, done), id, now)
            == if Collectable(g, id, now) then Collected(g, done + {id}) else Collected(g, done)
  {
    var h := Collected(g, done);
    if id in done {
      assert done + {id} == done;
      assert id !in h.bySession;
    } else if Collectable(g, id, now) {
      var h1, h2 := CollectOne(h, id, now), Collected(g, done + {id});
      assert h.sessions[id] == g.sessions[id];
      assert PlayersOf(g, done + {id})
          == PlayersOf(g, done) + if g.sessions[id].playerID != 0 then {g.sessions[id].playerID} else {};
      assert h1.byPlayer == h2.byPlayer;
      assert h1.bySession == h2.bySession;
      assert h1.sessions == h2.sessions;
    }
  }

  /** A GC pass, in whatever order it visits sessions, closes exactly the Offline and expired ones it visits. */
  lemma {:induction false} GCExact(g: Gate, order: seq<int>, now: int)
    requires g.bySession <= g.sessions.Keys
    ensures GC(g, order, now) == Collected(g, CollectableIn(g, (set id | id in order), now))
  {
    if order == [] {
      assert Collected(g, {}) == g;
    } else {
      var rest, id := order[..|order| - 1], order[|order| - 1];
      assert order == rest + [id];
      GCExact(g, rest, now);
      var done := CollectableIn(g, (set i | i in rest), now);
      CollectNext(g, done, id, now);
      assert CollectableIn(g, (set i | i in order), now) == if Collectable(g, id, now) then done + {id} else done;
    }
  }

  lemma CollectedOk(g: Gate, now: int)
    requires Inv(g)
    ensures Inv(Collected(g, CollectableIn(g, g.bySession, now)))
  {
    var g' := Collected(g, CollectableIn(g, g.bySession, now));
    forall i | i in g'.sessions ensures SessionOk(g', i) { assert SessionOk(g, i); }
  }

  // ---------- acts ----------

  datatype Act =
    | Idle
    | Creates(conn: int, nonce: Option<seq<byte>>)
    | Reconnects(id: int, conn: int)
    | Binding(id: int, playerID: int)
    | Collects

  /** The act of a step, read off the state before it. */
  function ActOf(g: Gate, step: Step): Act
    requires Enabled(g, step)
  {
    match step
    case Receive(c, env, req, nonce, _) =>
      if env.msgId == MSG_RESUME_REQ then
        match Resumes(g, c, req)
        case Some(id) => Reconnects(id, c)
        case None => Idle
      else if g.conns[c].sessionID == 0 && env.msgId == MSG_LOGIN_REQ then Creates(c, nonce)
      else Idle
    case FromService(env, rsp, _) =>
      (match Binds(g, env, rsp)
       case Some((id, p)) => Binding(id, p)
       case None => Idle)
    case GCTick(_, _) => Collects
    case _ => Idle
  }

  ghost predicate CanAct(g: Gate, act: Act) {
    match act
    case Idle => true
    case Creates(c, _) => c in g.conns && g.conns[c].sessionID == 0
    case Reconnects(id, c) => id in g.bySession && id in g.sessions && c in g.conns && g.conns[c].sessionID == 0
    case Binding(id, _) => id in g.bySession && id in g.sessions
    case Collects => g.bySession <= g.sessions.Keys
  }

  ghost function Perform(g: Gate, act: Act): Gate
    requires CanAct(g, act)
  {
    match act
    case Idle => g
    case Creates(c, nonce) => Enrolled(g, c, NewSession(g, c, nonce, g.clock))
    case Reconnects(id, c) => MoveTo(g, c, id, g.clock)
    case Binding(id, p) => Bound(g, id, p)
    case Collects => Collected(g, CollectableIn(g, g.bySession, g.clock))
  }

  /** The clock has ticked, and a new connection is known. */
  function Before(g: Gate, step: Step): Gate
    requires Enabled(g, step)
  {
    var t := g.(clock := step.now);
    match step
    case Accept(c, connType, now) => t.(conns := t.conns[c := Conn(connType, 0, [], 0, false, true, now, now)])
    case Receive(c, _, _, _, now) => MarkAlive(t, c, now)
    case _ => t
  }

  /** Just before the act. */
  ghost function Mid(g: Gate, step: Step): Gate
    requires Inv(g) && Enabled(g, step)
  {
    var b := Before(g, step);
    match ActOf(g, step)
    case Reconnects(id, c) => Displace(b, c, id)
    case Binding(id, p) => Cleared(b, id, p, step.now)
    case _ => b
  }

  lemma BeforeOk(g: Gate, step: Step)
    requires Inv(g) && Enabled(g, step)
    ensures Inv(Before(g, step))
  {
    var b := Before(g, step);
    forall i | i in b.sessions ensures SessionOk(b, i) { assert SessionOk(g, i); }
  }

  /** What a step comes to: quiet changes, its act, quiet changes again. */
  ghost predicate Shaped(g: Gate, step: Step)
    requires Inv(g) && Enabled(g, step)
  {
    var act := ActOf(g, step);
    var mid := Mid(g, step);
    && Inv(Before(g, step)) && Ok(Before(g, step), mid) && CanAct(mid, act)
    && Ok(Perform(mid, act), Apply(g, step)) && Inv(Perform(mid, act))
    && (act.Reconnects? ==> SameLinks(Before(g, step), mid) && SameLinks(Perform(mid, act), Apply(g, step)))
    && (act.Collects? ==> Apply(g, step) == Perform(mid, act))
  }

  lemma RefusalShaped(g: Gate, c: int, env: Envelope, req: Option<ResumeReq>, nonce: Option<seq<byte>>, now: int)
    requires Inv(g) && Enabled(g, Receive(c, env, req, nonce, now)) && env.msgId == MSG_RESUME_REQ
    requires Resumes(g, c, req) == None
    ensures Shaped(g, Receive(c, env, req, nonce, now))
  {
    var step := Receive(c, env, req, nonce, now);
    BeforeOk(g, step);
    var u := Before(g, step);
    SameLinksOk(u, u);
    assert Resumes(u, c, req) == None;
    RefusedResumeOk(u, c, req, now);
  }

  lemma RebindShaped(g: Gate, c: int, env: Envelope, req: Option<ResumeReq>, nonce: Option<seq<byte>>, now: int)
    requires Inv(g) && Enabled(g, Receive(c, env, req, nonce, now)) && env.msgId == MSG_RESUME_REQ
    requires Resumes(g, c, req).Some?
    ensures Shaped(g, Receive(c, env, req, nonce, now))
  {
    var step := Receive(c, env, req, nonce, now);
    BeforeOk(g, step);
    var u := Before(g, step);
    assert Resumes(u, c, req) == Resumes(g, c, req);
    RebindOk(u, c, Resumes(u, c, req).value, now);
    AcceptedResume(u, c, req, now);
    assert Apply(g, step) == HandleResume(u, c, req, now);
  }

  lemma ReceiveShaped(g: Gate, c: int, env: Envelope, req: Option<ResumeReq>, nonce: Option<seq<byte>>, now: int)
    requires Inv(g) && Enabled(g, Receive(c, env, req, nonce, now))
    ensures Shaped(g, Receive(c, env, req, nonce, now))
  {
    if env.msgId == MSG_RESUME_REQ {
      if Resumes(g, c, req) == None {
        RefusalShaped(g, c, env, req, nonce, now);
      } else {
        RebindShaped(g, c, env, req, nonce, now);
      }
    } else {
      BeforeOk(g, Receive(c, env, req, nonce, now));
      var u := Before(g, Receive(c, env, req, nonce, now));
      SameLinksOk(u, u);
      if g.conns[c].sessionID == 0 && env.msgId == MSG_LOGIN_REQ {
        FirstLoginOk(u, c, env, nonce, now);
      } else {
        BoundEnvelopeOk(u, c, env, req, nonce, now);
      }
    }
  }

  lemma FromServiceShaped(g: Gate, env: Envelope, rsp: Option<int>, now: int)
    requires Inv(g) && Enabled(g, FromService(env, rsp, now))
    ensures Shaped(g, FromService(env, rsp, now))
  {
    var step := FromService(env, rsp, now);
    BeforeOk(g, step);
    var t := Before(g, step);
    SameLinksOk(t, t);
    assert Binds(t, env, rsp) == Binds(g, env, rsp);
    if Binds(t, env, rsp).Some? { LoginServiceOk(t, env, rsp, now); } else { OtherServiceOk(t, env, rsp, now); }
  }

  lemma GCShaped(g: Gate, order: seq<int>, now: int)
    requires Inv(g) && Enabled(g, GCTick(order, now))
    ensures Shaped(g, GCTick(order, now))
  {
    var step := GCTick(order, now);
    BeforeOk(g, step);
    var t := Before(g, step);
    SameLinksOk(t, t);
    forall id | id in t.bySession ensures id in t.sessions { assert id in g.sessions; }
    GCExact(t, order, now);
    CollectedOk(t, now);
    SameLinksOk(Perform(t, Collects), Perform(t, Collects));
  }

  /** Every enabled step keeps the invariant and is one act between quiet changes, whatever its environment answers. */
  lemma StepShaped(g: Gate, step: Step)
    requires Inv(g) && Enabled(g, step)
    ensures Shaped(g, step)
  {
    BeforeOk(g, step);
    var t := Before(g, step);
    SameLinksOk(t, t);
    match step {
      case Receive(c, env, req, nonce, now) => ReceiveShaped(g, c, env, req, nonce, now);
      case FromService(env, rsp, now) => FromServiceShaped(g, env, rsp, now);
      case GCTick(order, now) => GCShaped(g, order, now);
      case Accept(_, _, _) =>
      case ReadFailed(c, now) => OnConnCloseOk(t, c, now);
      case WriteOne(c, ok, now) => SameLinksOk(t, Apply(g, step));
      case KickSession(id, now) => KickOk(t, id, now);
      case HeartbeatTick(order, now) => HeartbeatPassOk(t, order, now);
      case AuthingTick(order, now) => AuthingPassOk(t, order, now);
      case Configure(cfg, _) => SameLinksOk(t, Apply(g, step));
    }
  }
}
