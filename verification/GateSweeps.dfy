/** The heartbeat and login-timeout sweeps take offline exactly the sessions whose time is up, and tell the game
    server nothing. */
module GateSweeps {
  import opened Prelude
  import opened GateModel
  import opened GateInvariant

  /** Connection `c` is the attached connection of a session in `ids`. */
  ghost predicate HeldBy(g: Gate, c: int, ids: set<int>)
    requires c in g.conns
  {
    var id := g.conns[c].sessionID;
    id in ids && id in g.sessions && g.sessions[id].conn == Some(c)
  }

  /** The sessions `ids` offline since `now`, their connections closed; nothing else differs. */
  ghost function TakenOffline(g: Gate, ids: set<int>, now: int): Gate {
    g.(sessions := map id | id in g.sessions :: if id in ids then Detached(g.sessions[id], now) else g.sessions[id],
       conns := map c | c in g.conns :: if HeldBy(g, c, ids) then g.conns[c].(closed := true) else g.conns[c])
  }

  ghost function Idle(g: Gate, now: int): set<int> {
    set id | id in g.bySession && HeartbeatExpired(g, id, now)
  }

  ghost function Overdue(g: Gate, now: int): set<int> {
    set id | id in g.bySession && AuthingExpired(g, id, now)
  }

  /** A session that has not logged in, such as the sweeps look for. */
  ghost predicate Anonymous(g: Gate, id: int) {
    id in g.bySession && id in g.sessions && (g.sessions[id].state == Online || g.sessions[id].state == Authing)
  }

  lemma TakeNext(g: Gate, done: set<int>, id: int, now: int)
    requires Inv(g) && id !in done && Anonymous(g, id)
    ensures TakeOffline(TakenOffline(g, done, now), id, now) == TakenOffline(g, done + {id}, now)
  {
    var h, r := TakenOffline(g, done, now), TakenOffline(g, done + {id}, now);
    var s := g.sessions[id];
    assert SessionOk(g, id);
    assert h.sessions[id] == s;
    var t := TakeOffline(h, id, now);
    assert t.sessions == h.sessions[id := Detached(s, now)];
    assert t.sessions == r.sessions;
    assert t.conns == h.conns[s.conn.value := h.conns[s.conn.value].(closed := true)];
    forall c | c in g.conns ensures t.conns[c] == r.conns[c] {
      assert HeldBy(g, c, done + {id}) <==> HeldBy(g, c, done) || c == s.conn.value;
    }
    assert t.conns == r.conns;
  }

  lemma SweepStart(g: Gate, now: int)
    ensures TakenOffline(g, {}, now) == g
  {
    assert TakenOffline(g, {}, now).conns == g.conns;
    assert TakenOffline(g, {}, now).sessions == g.sessions;
  }

  lemma {:induction false} HeartbeatPassExact(g: Gate, order: seq<int>, now: int)
    requires Inv(g)
    ensures HeartbeatPass(g, order, now) == TakenOffline(g, Idle(g, now) * (set id | id in order), now)
  {
    if order == [] {
      SweepStart(g, now);
      assert Idle(g, now) * (set id | id in order) == {};
    } else {
      var rest, id := order[..|order| - 1], order[|order| - 1];
      HeartbeatPassExact(g, rest, now);
      var done := Idle(g, now) * (set i | i in rest);
      assert order == rest + [id];
      HeartbeatSeen(g, done, id, now);
      if HeartbeatExpired(g, id, now) && id !in done { TakeNext(g, done, id, now); }
      assert Idle(g, now) * (set i | i in order) == if HeartbeatExpired(g, id, now) then done + {id} else done;
      assert id in done ==> done + {id} == done;
    }
  }

  /** Sessions already taken offline are skipped; the others are judged as at the start of the pass. */
  lemma HeartbeatSeen(g: Gate, done: set<int>, id: int, now: int)
    requires Inv(g) && done <= Idle(g, now)
    ensures HeartbeatExpired(TakenOffline(g, done, now), id, now) <==> HeartbeatExpired(g, id, now) && id !in done
  {}

  /** The heartbeat sweep, in any order: exactly the Online sessions idle beyond the limit, and no message offered. */
  lemma HeartbeatSweepExact(g: Gate, order: seq<int>, now: int)
    requires Inv(g) && Enumerates(g, order)
    ensures CheckHeartbeat(g, order, now)
            == if g.cfg.heartbeatTimeout <= 0 then g else TakenOffline(g, Idle(g, now), now)
  {
    HeartbeatPassExact(g, order, now);
    assert Idle(g, now) * (set id | id in order) == Idle(g, now);
  }

  lemma AuthingSeen(g: Gate, done: set<int>, id: int, now: int)
    requires Inv(g) && done <= Overdue(g, now)
    ensures AuthingExpired(TakenOffline(g, done, now), id, now) <==> AuthingExpired(g, id, now) && id !in done
  {}

  lemma {:induction false} AuthingPassExact(g: Gate, order: seq<int>, now: int)
    requires Inv(g)
    ensures CheckAuthingTimeout(g, order, now) == TakenOffline(g, Overdue(g, now) * (set id | id in order), now)
  {
    if order == [] {
      SweepStart(g, now);
      assert Overdue(g, now) * (set id | id in order) == {};
    } else {
      var rest, id := order[..|order| - 1], order[|order| - 1];
      AuthingPassExact(g, rest, now);
      var done := Overdue(g, now) * (set i | i in rest);
      assert order == rest + [id];
      AuthingSeen(g, done, id, now);
      if AuthingExpired(g, id, now) && id !in done { TakeNext(g, done, id, now); }
      assert Overdue(g, now) * (set i | i in order) == if AuthingExpired(g, id, now) then done + {id} else done;
      assert id in done ==> done + {id} == done;
    }
  }

  /** The login-timeout sweep, in any order: exactly the Authing sessions past the limit, and no message offered. */
  lemma AuthingSweepExact(g: Gate, order: seq<int>, now: int)
    requires Inv(g) && Enumerates(g, order)
    ensures CheckAuthingTimeout(g, order, now) == TakenOffline(g, Overdue(g, now), now)
  {
    AuthingPassExact(g, order, now);
    assert Overdue(g, now) * (set id | id in order) == Overdue(g, now);
  }
}
