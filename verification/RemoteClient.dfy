/** The pool as objects: a Send call with its retry loop is a run of the pool machine. */
module RemoteClient {
  import opened Prelude
  import opened Protocol
  import R = RemotePool

  class RemoteClient {
    var sendCh: seq<Envelope>
    var busyCount: nat
    var dropCount: nat
    /** Envelopes whose write to the connection was attempted. */
    var attempted: seq<Envelope>

    constructor ()
      ensures sendCh == [] && busyCount == 0 && dropCount == 0 && attempted == []
    {
      sendCh, busyCount, dropCount, attempted := [], 0, 0, [];
    }

    /** The select of one attempt; the last failure is counted. */
    method Select(env: Envelope, last: bool) returns (ok: bool)
      modifies this`sendCh, this`busyCount
      ensures ok == (|old(sendCh)| < R.QUEUE_CAPACITY)
      ensures sendCh == if ok then old(sendCh) + [env] else old(sendCh)
      ensures busyCount == old(busyCount) + if !ok && last then 1 else 0
    {
      ok := |sendCh| < R.QUEUE_CAPACITY;
      if ok {
        sendCh := sendCh + [env];
      } else if last {
        busyCount := busyCount + 1;
      }
    }

    /** One round of the writer. */
    method WriteOne(connected: bool)
      requires sendCh != []
      modifies this
      ensures sendCh == old(sendCh)[1..] && busyCount == old(busyCount)
      ensures dropCount == old(dropCount) + if connected then 0 else 1
      ensures attempted == old(attempted) + if connected then [old(sendCh)[0]] else []
    {
      var env := sendCh[0];
      sendCh := sendCh[1..];
      if !connected {
        dropCount := dropCount + 1;
        return;
      }
      attempted := attempted + [env];
    }
  }

  /** The envelopes of a list of offers. */
  function Envelopes(p: R.Pool, ids: seq<nat>): seq<Envelope> {
    seq(|ids|, i requires 0 <= i < |ids| => if ids[i] < |p.offers| then p.offers[ids[i]].env else Envelope(0, 0, 0, []))
  }

  function Written(taken: seq<R.Taken>): seq<nat> {
    if taken == [] then []
    else
      var last := taken[|taken| - 1];
      Written(taken[..|taken| - 1]) + if last.dropped then [] else [last.id]
  }

  lemma TakeWritten(p: R.Pool, c: nat, connected: bool)
    requires R.Inv(p) && R.Enabled(p, R.Write(c, connected))
    ensures var m, after := p.clients[c], R.Take(p.clients[c], connected);
            && m.queue[0] < |p.offers|
            && Envelopes(p, after.queue) == Envelopes(p, m.queue)[1..]
            && Written(after.taken) == Written(m.taken) + (if connected then [m.queue[0]] else [])
            && Envelopes(p, Written(after.taken))
            == Envelopes(p, Written(m.taken)) + (if connected then [Envelopes(p, m.queue)[0]] else [])
  {
    var m, after := p.clients[c], R.Take(p.clients[c], connected);
    assert R.ClientOk(p, c);
    assert R.Log(m)[|m.taken|] == m.queue[0];
    assert after.taken[..|m.taken|] == m.taken;
  }

  /** Envelopes are known by the offers alone. */
  lemma TakenStill(p: R.Pool, q: R.Pool, c: nat, connected: bool)
    requires c < |p.clients| && p.clients[c].queue != [] && q.offers == p.offers
    ensures var after := R.Take(p.clients[c], connected);
            && Envelopes(q, after.queue) == Envelopes(p, after.queue)
            && Envelopes(q, Written(after.taken)) == Envelopes(p, Written(after.taken))
  {}

  /** The machine got from `p0` to `p` by these steps. */
  ghost predicate Runs(p0: R.Pool, run: seq<R.Step>, p: R.Pool) {
    R.At(p0, run, |run|) == Some(p)
  }

  lemma Extend(p0: R.Pool, run: seq<R.Step>, p: R.Pool, step: R.Step)
    requires Runs(p0, run, p) && R.Enabled(p, step)
    ensures Runs(p0, run + [step], R.Apply(p, step))
  {
    R.AtPrefix(p0, run, step, |run|);
    var after := run + [step];
    assert after[|run|] == step && R.At(p0, after, |after| - 1) == Some(p);
  }

  /** A call of Send that has not returned. */
  datatype Call = Call(session: int, env: Envelope, attempts: nat)

  class RemoteClientPool {
    const clients: seq<RemoteClient>
    const retryMax: int
    /** The number of calls of Send so far, and those that have not returned, by number. */
    var count: nat
    var calls: map<nat, Call>
    ghost var pool: R.Pool

    /** `client` holds what the machine's client `c` holds. */
    ghost predicate Matches(client: RemoteClient, p: R.Pool, c: nat)
      requires c < |p.clients|
      reads client
    {
      var m := p.clients[c];
      && client.sendCh == Envelopes(p, m.queue) && client.attempted == Envelopes(p, Written(m.taken))
      && client.busyCount == m.busyCount && client.dropCount == m.dropCount
      && (forall i | 0 <= i < |Written(m.taken)| :: Written(m.taken)[i] < |p.offers|)
    }

    ghost predicate CallsMatch(p: R.Pool)
      reads this
    {
      && count == |p.offers| && calls.Keys == p.trying.Keys
      && forall id | id in calls :: id < |p.offers| && calls[id] == CallOf(p, id)
    }

    ghost function CallOf(p: R.Pool, id: nat): Call
      requires id < |p.offers| && id in p.trying
    {
      Call(p.offers[id].session, p.offers[id].env, p.trying[id])
    }

    ghost predicate Valid()
      reads this, clients
    {
      && (forall i, j | 0 <= i < j < |clients| :: clients[i] != clients[j])
      && R.Inv(pool) && pool.retryMax == retryMax && |pool.clients| == |clients| && CallsMatch(pool)
      && forall c | 0 <= c < |clients| :: Matches(clients[c], pool, c)
    }

    constructor (clients: seq<RemoteClient>, retryMax: int)
      requires forall i, j | 0 <= i < j < |clients| :: clients[i] != clients[j]
      requires forall c | 0 <= c < |clients| ::
                 && clients[c].sendCh == [] && clients[c].attempted == []
                 && clients[c].busyCount == clients[c].dropCount == 0
      ensures Valid() && this.clients == clients && this.retryMax == retryMax && pool == R.Start(|clients|, retryMax)
    {
      this.clients, this.retryMax, count, calls, pool := clients, retryMax, 0, map[], R.Start(|clients|, retryMax);
    }

    /** The call begins; it fails at once without clients or attempts. */
    method Begin(session: int, env: Envelope) returns (id: nat)
      requires Valid()
      modifies this`pool, this`count, this`calls
      ensures Valid() && pool == R.Apply(old(pool), R.Send(session, env)) && id == |old(pool).offers|
      ensures id in calls <==> |clients| > 0 && retryMax >= 0
    {
      ghost var p := pool;
      R.SendInv(pool, session, env);
      id := count;
      count := count + 1;
      if |clients| > 0 && retryMax >= 0 { calls := calls[id := Call(session, env, 0)]; }
      pool := R.Begin(pool, session, env);
      forall c | 0 <= c < |clients| ensures Matches(clients[c], pool, c) {
        assert old(Matches(clients[c], pool, c));
        assert R.ClientOk(p, c);
        QueueKnown(p, c);
      }
    }

    /** The connection of a call. */
    function IndexOf(session: int): (index: nat)
      requires |clients| > 0
      ensures index < |clients| && index == R.Index(session, |clients|)
    {
      R.IndexInRange(session, |clients|);
      var rem := R.Rem(session, |clients|);
      if rem < 0 then -rem else rem
    }

    /** One attempt, on the connection of the call's session; the last failure ends the call. */
    method Attempt(id: nat) returns (ok: bool)
      requires Valid() && id in calls
      modifies this`pool, this`calls, clients
      ensures Valid() && R.Enabled(old(pool), R.Attempt(id)) && pool == R.Apply(old(pool), R.Attempt(id))
      ensures ok == (|old(pool).clients[R.ClientOf(old(pool), id)].queue| < R.QUEUE_CAPACITY)
    {
      ghost var c, p := R.ClientOf(pool, id), pool;
      R.TryInv(pool, id);
      TryChanges(pool, id);
      var call := calls[id];
      var client := clients[IndexOf(call.session)];
      assert Matches(client, pool, c);
      ok := client.Select(call.env, call.attempts == retryMax);
      calls := if ok || call.attempts == retryMax then calls - {id}
               else calls[id := call.(attempts := call.attempts + 1)];
      pool := R.Try(pool, id);
      assert Envelopes(pool, p.clients[c].queue + [id]) == Envelopes(p, p.clients[c].queue) + [call.env];
      forall i | 0 <= i < |clients| ensures Matches(clients[i], pool, i) {
        if i != c {
          assert clients[i] != client && old(Matches(clients[i], pool, i));
          MatchesStill(clients[i], p, pool, i);
        }
      }
    }

    lemma MatchesStill(client: RemoteClient, p: R.Pool, q: R.Pool, c: nat)
      requires c < |p.clients| && c < |q.clients| && q.clients[c] == p.clients[c] && q.offers == p.offers
      requires Matches(client, p, c)
      ensures Matches(client, q, c)
    {
      assert Envelopes(q, p.clients[c].queue) == Envelopes(p, p.clients[c].queue);
      assert Envelopes(q, Written(p.clients[c].taken)) == Envelopes(p, Written(p.clients[c].taken));
    }

    method Write(c: nat, connected: bool)
      requires Valid() && R.Enabled(pool, R.Write(c, connected))
      modifies this`pool, clients[c]
      ensures Valid() && pool == R.Apply(old(pool), R.Write(c, connected))
    {
      ghost var p := pool;
      R.WriteInv(pool, c, connected);
      TakeWritten(pool, c, connected);
      clients[c].WriteOne(connected);
      pool := p.(clients := p.clients[c := R.Take(p.clients[c], connected)]);
      TakenStill(p, pool, c, connected);
      forall i | 0 <= i < |clients| ensures Matches(clients[i], pool, i) {
        if i != c {
          assert clients[i] != clients[c] && old(Matches(clients[i], pool, i));
          MatchesStill(clients[i], p, pool, i);
        }
      }
    }

    /** One step of another thread, if it can take it: a writer's round, a call of Send that begins, or an attempt of
        one that is under way. */
    method Other(step: R.Step, own: nat, ghost p0: R.Pool, ghost run: seq<R.Step>) returns (ghost run': seq<R.Step>)
      requires Valid() && Runs(p0, run, pool) && own in calls
      modifies this`pool, this`count, this`calls, clients
      ensures Valid() && Runs(p0, run', pool) && run <= run' && own in calls && calls[own] == old(calls[own])
    {
      run' := run;
      match step {
        case Send(session, env) =>
          Extend(p0, run, pool, step);
          var id := Begin(session, env);
          run' := run + [step];
        case Attempt(id) =>
          if id in calls && id != own {
            Extend(p0, run, pool, step);
            var ok := Attempt(id);
            run' := run + [step];
          }
        case Write(c, connected) =>
          if c < |clients| && clients[c].sendCh != [] {
            assert Matches(clients[c], pool, c);
            Extend(p0, run, pool, step);
            Write(c, connected);
            run' := run + [step];
          }
      }
    }

    /** While a call sleeps every other thread goes on. */
    method Sleep(pause: seq<R.Step>, own: nat, ghost p0: R.Pool, ghost run: seq<R.Step>)
      returns (ghost run': seq<R.Step>)
      requires Valid() && Runs(p0, run, pool) && own in calls
      modifies this`pool, this`count, this`calls, clients
      ensures Valid() && Runs(p0, run', pool) && run <= run' && own in calls && calls[own] == old(calls[own])
    {
      run' := run;
      for k := 0 to |pause|
        invariant Valid() && Runs(p0, run', pool) && run <= run' && own in calls && calls[own] == old(calls[own])
      {
        run' := Other(pause[k], own, p0, run');
      }
    }

    /** One attempt, and the sleep after a failed one that is not the last. */
    method Round(id: nat, pause: seq<R.Step>, ghost p0: R.Pool, ghost run: seq<R.Step>)
      returns (ok: bool, ghost run': seq<R.Step>)
      requires Valid() && Runs(p0, run, pool) && id in calls
      modifies this`pool, this`count, this`calls, clients
      ensures Valid() && Runs(p0, run', pool) && run <= run'
      ensures ok || old(calls[id]).attempts == retryMax ==> Returned(id, old(calls[id]), ok)
      ensures !ok && old(calls[id]).attempts != retryMax ==>
                id in calls && calls[id] == old(calls[id]).(attempts := old(calls[id]).attempts + 1)
    {
      var call := calls[id];
      Extend(p0, run, pool, R.Attempt(id));
      TryEffect(pool, id);
      ok := Attempt(id);
      run' := run + [R.Attempt(id)];
      if !ok && call.attempts != retryMax {
        run' := Sleep(pause, id, p0, run');
      }
    }

    /** The call has returned: its envelope is in the queue of its connection, or the offer was refused. */
    ghost predicate Returned(id: nat, call: Call, ok: bool)
      reads this
    {
      && id !in pool.trying && (id in pool.refused <==> !ok)
      && id < |pool.offers| && pool.offers[id] == R.Offer(call.session, call.env)
      && (ok ==> |pool.clients| > 0 && id in R.Log(pool.clients[R.ClientOf(pool, id)]))
    }

    /** A whole call, with everything the other threads do during its sleeps: it returns with the envelope in the queue
        of the session's connection, put there once, or refused after every attempt found the queue full. */
    method Send(session: int, env: Envelope, pauses: seq<seq<R.Step>>) returns (ok: bool, ghost run: seq<R.Step>)
      requires Valid() && |pauses| >= retryMax
      modifies this`pool, this`count, this`calls, clients
      ensures Valid() && Runs(old(pool), run, pool) && |run| > 0 && run[0] == R.Send(session, env)
      ensures Returned(|old(pool).offers|, Call(session, env, 0), ok)
    {
      ghost var p0 := pool;
      assert R.At(p0, [], 0) == Some(p0);
      Extend(p0, [], pool, R.Send(session, env));
      var id := Begin(session, env);
      run := [] + [R.Send(session, env)];
      if id !in calls { return false, run; }
      var attempt := 0;
      ok := false;
      while attempt <= retryMax && !ok
        invariant 0 <= attempt && Valid() && Runs(p0, run, pool) && |run| > 0 && run[0] == R.Send(session, env)
        invariant !ok && attempt <= retryMax ==> id in calls && calls[id] == Call(session, env, attempt)
        invariant ok || attempt > retryMax ==> Returned(id, Call(session, env, 0), ok)
        decreases retryMax - attempt, !ok
      {
        ok, run := Round(id, if attempt < retryMax then pauses[attempt] else [], p0, run);
        attempt := attempt + 1;
      }
    }
  }

  /** What an attempt writes, in one piece. */
  lemma TryChanges(p: R.Pool, id: nat)
    requires R.Enabled(p, R.Attempt(id))
    ensures var c := R.ClientOf(p, id);
            var m, q, last := p.clients[c], R.Try(p, id), p.trying[id] == p.retryMax;
            var ok := |m.queue| < R.QUEUE_CAPACITY;
            && q.offers == p.offers && q.retryMax == p.retryMax && |q.clients| == |p.clients|
            && (forall i | 0 <= i < |p.clients| && i != c :: q.clients[i] == p.clients[i])
            && q.clients[c] == m.(queue := if ok then m.queue + [id] else m.queue,
                                  busyCount := if !ok && last then m.busyCount + 1 else m.busyCount)
            && q.trying == if ok || last then p.trying - {id} else p.trying[id := p.trying[id] + 1]
  {}

  lemma TryEffect(p: R.Pool, id: nat)
    requires R.Inv(p) && R.Enabled(p, R.Attempt(id))
    ensures var c, q := R.ClientOf(p, id), R.Try(p, id);
            var full := |p.clients[c].queue| >= R.QUEUE_CAPACITY;
            && q.offers == p.offers && |q.clients| == |p.clients| && R.ClientOf(q, id) == c
            && (!full ==> id !in q.trying && id !in q.refused && id in R.Log(q.clients[c]))
            && (full && p.trying[id] == p.retryMax ==> id !in q.trying && id in q.refused)
            && (full && p.trying[id] != p.retryMax ==> id in q.trying && q.trying[id] == p.trying[id] + 1)
  {
    R.TryInv(p, id);
    assert R.Accounted(R.Try(p, id), id);
  }

  lemma QueueKnown(p: R.Pool, c: nat)
    requires c < |p.clients| && R.ClientOk(p, c)
    ensures forall i | 0 <= i < |p.clients[c].queue| :: p.clients[c].queue[i] < |p.offers|
  {
    var m := p.clients[c];
    forall i | 0 <= i < |m.queue| ensures m.queue[i] < |p.offers| { assert R.Log(m)[|m.taken| + i] == m.queue[i]; }
  }
}
