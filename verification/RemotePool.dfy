/**
 * The pool of connections to the next process: concurrent senders with retries, one bounded queue and one writer per
 * connection.
 */
module RemotePool {
  import opened Prelude
  import opened Protocol

  const QUEUE_CAPACITY := 8192

  /** The source's remainder: it has the sign of the dividend. */
  function Rem(a: int, b: int): int
    requires b > 0
  {
    if a >= 0 then a % b else -(-a % b)
  }

  /** The connection a session uses in a pool of `n`. */
  function Index(session: int, n: nat): int
    requires n > 0
  {
    var r := Rem(session, n);
    if r < 0 then -r else r
  }

  /** Always in range; a negative session shares the connection of its opposite. */
  lemma IndexInRange(session: int, n: nat)
    requires n > 0
    ensures 0 <= Index(session, n) < n
    ensures Index(session, n) == (if session < 0 then -session else session) % n
  {}

  datatype Offer = Offer(session: int, env: Envelope)

  /** What the writer took from the queue; without a connection it is dropped, otherwise one write is attempted. */
  datatype Taken = Taken(id: nat, dropped: bool)

  datatype Client = Client(queue: seq<nat>, taken: seq<Taken>, busyCount: nat, dropCount: nat)

  const NEW_CLIENT := Client([], [], 0, 0)

  /** Every call of Send is an offer, known by its position in `offers`; `trying` counts the failed attempts of those
      that have not returned. */
  datatype Pool = Pool(
    clients: seq<Client>, retryMax: int, offers: seq<Offer>, trying: map<nat, nat>, refused: set<nat>)

  datatype Step =
    | Send(session: int, env: Envelope)
    | Attempt(id: nat)
    | Write(client: nat, connected: bool)

  predicate Enabled(p: Pool, step: Step) {
    match step
    case Send(_, _) => true
    case Attempt(id) => id in p.trying && id < |p.offers| && |p.clients| > 0
    case Write(c, _) => c < |p.clients| && p.clients[c].queue != []
  }

  function ClientOf(p: Pool, id: nat): nat
    requires id < |p.offers| && |p.clients| > 0
  {
    IndexInRange(p.offers[id].session, |p.clients|);
    Index(p.offers[id].session, |p.clients|)
  }

  function Begin(p: Pool, session: int, env: Envelope): Pool {
    var id, q := |p.offers|, p.(offers := p.offers + [Offer(session, env)]);
    if |p.clients| == 0 || p.retryMax < 0 then q.(refused := p.refused + {id}) else q.(trying := p.trying[id := 0])
  }

  function Try(p: Pool, id: nat): Pool
    requires Enabled(p, Attempt(id))
  {
    var c := ClientOf(p, id);
    var client := p.clients[c];
    if |client.queue| < QUEUE_CAPACITY then
      p.(clients := p.clients[c := client.(queue := client.queue + [id])], trying := p.trying - {id})
    else if p.trying[id] == p.retryMax then
      p.(clients := p.clients[c := client.(busyCount := client.busyCount + 1)], trying := p.trying - {id},
         refused := p.refused + {id})
    else p.(trying := p.trying[id := p.trying[id] + 1])
  }

  function Take(client: Client, connected: bool): Client
    requires client.queue != []
  {
    client.(queue := client.queue[1..], taken := client.taken + [Taken(client.queue[0], !connected)],
            dropCount := client.dropCount + if connected then 0 else 1)
  }

  function Apply(p: Pool, step: Step): Pool
    requires Enabled(p, step)
  {
    match step
    case Send(session, env) => Begin(p, session, env)
    case Attempt(id) => Try(p, id)
    case Write(c, connected) => p.(clients := p.clients[c := Take(p.clients[c], connected)])
  }

  function Start(n: nat, retryMax: int): Pool {
    Pool(seq(n, i => NEW_CLIENT), retryMax, [], map[], {})
  }

  function At(p: Pool, run: seq<Step>, n: nat): Option<Pool>
    requires n <= |run|
  {
    if n == 0 then Some(p)
    else
      match At(p, run, n - 1)
      case None => None
      case Some(q) => if Enabled(q, run[n - 1]) then Some(Apply(q, run[n - 1])) else None
  }

  /** Reached from a new pool in `n` steps of the run. */
  ghost predicate Reached(size: nat, retryMax: int, run: seq<Step>, n: nat) {
    n <= |run| && At(Start(size, retryMax), run, n).Some?
  }

  function Reach(size: nat, retryMax: int, run: seq<Step>, n: nat): Pool
    requires Reached(size, retryMax, run, n)
  {
    At(Start(size, retryMax), run, n).value
  }

  // ---------- conservation ----------

  function Ids(taken: seq<Taken>): seq<nat> {
    seq(|taken|, i requires 0 <= i < |taken| => taken[i].id)
  }

  /** Everything that ever entered a client's queue, in order. */
  function Log(client: Client): seq<nat> {
    Ids(client.taken) + client.queue
  }

  lemma TakeKeepsLog(client: Client, connected: bool)
    requires client.queue != []
    ensures Log(Take(client, connected)) == Log(client)
  {
    var after := Take(client, connected);
    assert Ids(after.taken) == Ids(client.taken) + [client.queue[0]];
    assert client.queue == [client.queue[0]] + client.queue[1..];
  }

  /** No client logs an offer twice, one of another client's, or one that is still trying or was refused. */
  ghost predicate ClientOk(p: Pool, c: nat)
    requires c < |p.clients|
  {
    var log := Log(p.clients[c]);
    && |p.clients[c].queue| <= QUEUE_CAPACITY
    && (forall i | 0 <= i < |log| ::
          log[i] < |p.offers| && ClientOf(p, log[i]) == c && log[i] !in p.trying && log[i] !in p.refused)
    && (forall i, j | 0 <= i < j < |log| :: log[i] != log[j])
  }

  ghost predicate Accounted(p: Pool, id: nat)
    requires id < |p.offers|
  {
    id in p.trying || id in p.refused || (|p.clients| > 0 && id in Log(p.clients[ClientOf(p, id)]))
  }

  ghost predicate Inv(p: Pool) {
    && (forall c | 0 <= c < |p.clients| :: ClientOk(p, c))
    && (forall id | id in p.trying ::
          id < |p.offers| && id !in p.refused && |p.clients| > 0 && p.trying[id] <= p.retryMax)
    && (forall id | id in p.refused :: id < |p.offers|)
    && (forall id | 0 <= id < |p.offers| :: Accounted(p, id))
  }

  lemma SendInv(p: Pool, session: int, env: Envelope)
    requires Inv(p)
    ensures Inv(Begin(p, session, env))
  {
    var q := Begin(p, session, env);
    forall c | 0 <= c < |q.clients| ensures ClientOk(q, c) {
      assert ClientOk(p, c);
      forall i | 0 <= i < |Log(q.clients[c])| ensures ClientOf(q, Log(q.clients[c])[i]) == c {
        assert ClientOf(p, Log(p.clients[c])[i]) == c;
      }
    }
    forall id | 0 <= id < |q.offers| ensures Accounted(q, id) { assert id < |p.offers| ==> Accounted(p, id); }
  }

  lemma TryClients(p: Pool, id: nat, c: nat)
    requires Inv(p) && Enabled(p, Attempt(id)) && c < |p.clients|
    ensures ClientOk(Try(p, id), c)
    ensures Log(Try(p, id).clients[c])
         == Log(p.clients[c]) + if c == ClientOf(p, id) && |p.clients[c].queue| < QUEUE_CAPACITY then [id] else []
  {
    var q := Try(p, id);
    assert ClientOk(p, c);
    if c == ClientOf(p, id) && |p.clients[c].queue| < QUEUE_CAPACITY {
      assert Log(q.clients[c]) == Log(p.clients[c]) + [id];
    } else {
      assert Log(q.clients[c]) == Log(p.clients[c]);
    }
    forall i | 0 <= i < |Log(q.clients[c])| ensures ClientOf(q, Log(q.clients[c])[i]) == c {}
  }

  lemma TryInv(p: Pool, id: nat)
    requires Inv(p) && Enabled(p, Attempt(id))
    ensures Inv(Try(p, id))
  {
    var q, c0 := Try(p, id), ClientOf(p, id);
    forall c | 0 <= c < |q.clients| ensures ClientOk(q, c) { TryClients(p, id, c); }
    TryClients(p, id, c0);
    forall k | 0 <= k < |q.offers| ensures Accounted(q, k) {
      assert Accounted(p, k);
      if k == id && |p.clients[c0].queue| < QUEUE_CAPACITY {
        assert Log(q.clients[c0])[|Log(p.clients[c0])|] == id;
      } else if |p.clients| > 0 {
        TryClients(p, id, ClientOf(p, k));
      }
    }
  }

  lemma WriteInv(p: Pool, c0: nat, connected: bool)
    requires Inv(p) && Enabled(p, Write(c0, connected))
    ensures Inv(Apply(p, Write(c0, connected)))
  {
    var q := Apply(p, Write(c0, connected));
    TakeKeepsLog(p.clients[c0], connected);
    forall c | 0 <= c < |q.clients| ensures ClientOk(q, c) {
      assert ClientOk(p, c);
      forall i | 0 <= i < |Log(q.clients[c])| ensures ClientOf(q, Log(q.clients[c])[i]) == c {
        assert ClientOf(p, Log(p.clients[c])[i]) == c;
      }
    }
    forall id | 0 <= id < |q.offers| ensures Accounted(q, id) { assert Accounted(p, id); }
  }

  lemma StepInv(p: Pool, step: Step)
    requires Inv(p) && Enabled(p, step)
    ensures Inv(Apply(p, step))
  {
    match step
    case Send(session, env) => SendInv(p, session, env);
    case Attempt(id) => TryInv(p, id);
    case Write(c, connected) => WriteInv(p, c, connected);
  }

  lemma {:induction false} RunInv(size: nat, retryMax: int, run: seq<Step>, n: nat)
    requires Reached(size, retryMax, run, n)
    ensures Inv(Reach(size, retryMax, run, n))
  {
    if n > 0 {
      RunInv(size, retryMax, run, n - 1);
      StepInv(Reach(size, retryMax, run, n - 1), run[n - 1]);
    }
  }

  function Total(clients: seq<Client>): nat {
    if clients == [] then 0 else Total(clients[..|clients| - 1]) + |Log(clients[|clients| - 1])|
  }

  lemma {:induction false} TotalUpdate(clients: seq<Client>, c: nat, client: Client)
    requires c < |clients|
    ensures Total(clients[c := client]) == Total(clients) - |Log(clients[c])| + |Log(client)|
  {
    var after, m := clients[c := client], |clients| - 1;
    if c == m {
      assert after[..m] == clients[..m];
    } else {
      assert after[..m] == clients[..m][c := client];
      TotalUpdate(clients[..m], c, client);
    }
  }

  /** Offered = still trying + refused + queued + dropped + attempted; and the drop count is what was dropped. */
  ghost predicate Balanced(p: Pool) {
    && |p.offers| == |p.trying| + |p.refused| + Total(p.clients)
    && forall c | 0 <= c < |p.clients| :: p.clients[c].dropCount == Drops(p.clients[c].taken)
  }

  function Drops(taken: seq<Taken>): nat {
    if taken == [] then 0
    else Drops(taken[..|taken| - 1]) + if taken[|taken| - 1].dropped then 1 else 0
  }

  lemma SendBalanced(p: Pool, session: int, env: Envelope)
    requires Inv(p) && Balanced(p)
    ensures Balanced(Begin(p, session, env))
  {
    assert |p.offers| !in p.trying && |p.offers| !in p.refused;
  }

  lemma TryBalanced(p: Pool, id: nat)
    requires Inv(p) && Balanced(p) && Enabled(p, Attempt(id))
    ensures Balanced(Try(p, id))
  {
    var c, q := ClientOf(p, id), Try(p, id);
    TotalUpdate(p.clients, c, q.clients[c]);
    assert q.clients == p.clients[c := q.clients[c]];
    assert p.trying.Keys == (p.trying - {id}).Keys + {id};
  }

  lemma WriteBalanced(p: Pool, c: nat, connected: bool)
    requires Balanced(p) && Enabled(p, Write(c, connected))
    ensures Balanced(Apply(p, Write(c, connected)))
  {
    var client := Take(p.clients[c], connected);
    TakeKeepsLog(p.clients[c], connected);
    TotalUpdate(p.clients, c, client);
    assert client.taken[..|p.clients[c].taken|] == p.clients[c].taken;
  }

  lemma StepBalanced(p: Pool, step: Step)
    requires Inv(p) && Balanced(p) && Enabled(p, step)
    ensures Balanced(Apply(p, step))
  {
    match step
    case Send(session, env) => SendBalanced(p, session, env);
    case Attempt(id) => TryBalanced(p, id);
    case Write(c, connected) => WriteBalanced(p, c, connected);
  }

  lemma {:induction false} TotalStart(n: nat)
    ensures Total(seq(n, i => NEW_CLIENT)) == 0
  {
    if n > 0 {
      TotalStart(n - 1);
      assert seq(n, i => NEW_CLIENT)[..n - 1] == seq(n - 1, i => NEW_CLIENT);
    }
  }

  /** At every moment of every run each offer is in exactly one place, and the counts add up. */
  lemma {:induction false} Conservation(size: nat, retryMax: int, run: seq<Step>, n: nat)
    requires Reached(size, retryMax, run, n)
    ensures Inv(Reach(size, retryMax, run, n)) && Balanced(Reach(size, retryMax, run, n))
  {
    RunInv(size, retryMax, run, n);
    if n == 0 {
      TotalStart(size);
    } else {
      Conservation(size, retryMax, run, n - 1);
      StepBalanced(Reach(size, retryMax, run, n - 1), run[n - 1]);
    }
  }

  // ---------- when an offer is refused ----------

  /** The step is an attempt to send the offer. */
  predicate Tries(step: Step, id: nat) {
    step.Attempt? && step.id == id
  }

  /** That finds room in the queue. */
  predicate FindsRoom(p: Pool, step: Step, id: nat) {
    Tries(step, id) && Enabled(p, step) && |p.clients[ClientOf(p, id)].queue| < 8192
  }

  /** How often the offer was tried in the first `n` steps. */
  function Tried(run: seq<Step>, n: nat, id: nat): nat
    requires n <= |run|
  {
    if n == 0 then 0 else Tried(run, n - 1, id) + if Tries(run[n - 1], id) then 1 else 0
  }

  /** Whether one of those attempts found room. */
  ghost predicate FoundRoom(size: nat, retryMax: int, run: seq<Step>, n: nat, id: nat)
    requires Reached(size, retryMax, run, n)
  {
    exists m | 0 <= m < n :: Reached(size, retryMax, run, m) && FindsRoom(Reach(size, retryMax, run, m), run[m], id)
  }

  /** Where an offer is that was tried `k` times, by whether an attempt found room: still trying, refused after the
      last attempt, or in its connection's queue or beyond. */
  ghost predicate Tally(p: Pool, id: nat, k: nat, found: bool) {
    if id >= |p.offers| then k == 0 && !found
    else if |p.clients| == 0 || p.retryMax < 0 then k == 0 && !found && id in p.refused
    else
      && k <= p.retryMax + 1
      && (id in p.trying <==> !found && k <= p.retryMax) && (id in p.trying ==> p.trying[id] == k)
      && (id in p.refused <==> !found && k == p.retryMax + 1)
      && (id in Log(p.clients[ClientOf(p, id)]) <==> found)
  }

  lemma StepTally(p: Pool, step: Step, id: nat, k: nat, found: bool)
    requires Inv(p) && Enabled(p, step) && Tally(p, id, k, found)
    ensures Tally(Apply(p, step), id, if Tries(step, id) then k + 1 else k, found || FindsRoom(p, step, id))
  {
    StepInv(p, step);
    var q := Apply(p, step);
    if id < |q.offers| && |q.clients| > 0 {
      assert Accounted(q, id) && ClientOk(q, ClientOf(q, id));
      match step {
        case Send(_, _) =>
        case Attempt(i) => TryClients(p, i, ClientOf(p, i));
        case Write(c, connected) => TakeKeepsLog(p.clients[c], connected);
      }
    }
  }

  /** An offer is refused exactly after one attempt more than there are retries, none of which found room, and at once
      in a pool without connections or attempts; it is in the queue exactly if an attempt found room. */
  lemma {:induction false} RefusedExactly(size: nat, retryMax: int, run: seq<Step>, n: nat, id: nat)
    requires Reached(size, retryMax, run, n)
    ensures Tally(Reach(size, retryMax, run, n), id, Tried(run, n, id), FoundRoom(size, retryMax, run, n, id))
  {
    if n > 0 {
      RefusedExactly(size, retryMax, run, n - 1, id);
      RunInv(size, retryMax, run, n - 1);
      var p := Reach(size, retryMax, run, n - 1);
      FoundRoomNext(size, retryMax, run, n - 1, id);
      StepTally(p, run[n - 1], id, Tried(run, n - 1, id), FoundRoom(size, retryMax, run, n - 1, id));
    }
  }

  lemma FoundRoomNext(size: nat, retryMax: int, run: seq<Step>, n: nat, id: nat)
    requires n < |run| && Reached(size, retryMax, run, n + 1)
    ensures Reached(size, retryMax, run, n)
    ensures FoundRoom(size, retryMax, run, n + 1, id)
            <==> FoundRoom(size, retryMax, run, n, id) || FindsRoom(Reach(size, retryMax, run, n), run[n], id)
  {}

  // ---------- order within a session ----------

  predicate OfSession(p: Pool, id: nat, session: int) {
    id < |p.offers| && p.offers[id].session == session
  }

  /** The log of the session's own connection. */
  function SessionLog(p: Pool, session: int): seq<nat> {
    if |p.clients| == 0 then []
    else
      IndexInRange(session, |p.clients|);
      Log(p.clients[Index(session, |p.clients|)])
  }

  /** The session's own offers. */
  function Own(p: Pool, session: int): set<nat> {
    set id: nat | id < |p.offers| && OfSession(p, id, session)
  }

  ghost predicate Ascending(log: seq<nat>, own: set<nat>) {
    forall i, j | 0 <= i < j < |log| && log[i] in own && log[j] in own :: log[i] < log[j]
  }

  ghost predicate Precede(log: seq<nat>, rest: set<nat>, own: set<nat>) {
    forall i, id | 0 <= i < |log| && log[i] in own && id in rest && id in own :: log[i] < id
  }

  /** A session's offers reach the writer in the order they were made. */
  ghost predicate Ordered(p: Pool, session: int) {
    Ascending(SessionLog(p, session), Own(p, session))
  }

  /** Nor has an offer still trying been overtaken. */
  ghost predicate InOrder(p: Pool, session: int) {
    Ordered(p, session) && Precede(SessionLog(p, session), p.trying.Keys, Own(p, session))
  }

  /** No offer in `rest` is older than `id0`. */
  ghost predicate Oldest(id0: nat, rest: set<nat>, own: set<nat>) {
    id0 in own ==> forall id | id in rest && id in own :: id0 <= id
  }

  /** An offer that enters its queue is the oldest one its session is still trying to send. */
  ghost predicate OldestFirst(p: Pool, session: int, step: Step) {
    && step.Attempt? && Enabled(p, step)
    && |p.clients[ClientOf(p, step.id)].queue| < QUEUE_CAPACITY
    ==> Oldest(step.id, p.trying.Keys, Own(p, session))
  }

  /** What a step does to the session's log: it grows by one offer that was trying, or stays. */
  lemma LogGrows(p: Pool, session: int, step: Step)
    requires Inv(p) && Enabled(p, step)
    ensures var q := Apply(p, step);
            SessionLog(q, session)
            == if Enters(p, session, step) then SessionLog(p, session) + [step.id] else SessionLog(p, session)
  {
    if |p.clients| > 0 {
      IndexInRange(session, |p.clients|);
      var c := Index(session, |p.clients|);
      var client := p.clients[c];
      match step {
        case Send(_, _) =>
        case Attempt(id) =>
          var c0 := ClientOf(p, id);
          assert Log(p.clients[c0].(queue := p.clients[c0].queue + [id])) == Log(p.clients[c0]) + [id];
        case Write(c0, connected) => TakeKeepsLog(p.clients[c0], connected);
      }
    }
  }

  predicate Enters(p: Pool, session: int, step: Step)
    requires Enabled(p, step)
  {
    && step.Attempt? && |p.clients[ClientOf(p, step.id)].queue| < QUEUE_CAPACITY
    && ClientOf(p, step.id) == Index(session, |p.clients|)
  }

  /** Offers in the log or under way are known ones. */
  lemma LogKnown(p: Pool, session: int)
    requires Inv(p)
    ensures forall i | 0 <= i < |SessionLog(p, session)| :: SessionLog(p, session)[i] < |p.offers|
  {
    if |p.clients| > 0 {
      IndexInRange(session, |p.clients|);
      assert ClientOk(p, Index(session, |p.clients|));
    }
  }

  lemma OwnChanges(p: Pool, session: int, step: Step)
    requires Enabled(p, step)
    ensures var q := Apply(p, step);
            && q.trying.Keys <= p.trying.Keys + {|p.offers|}
            && forall id: nat | id < |p.offers| :: id in Own(q, session) <==> id in Own(p, session)
  {}

  lemma StayInOrder(p: Pool, session: int, step: Step)
    requires Inv(p) && InOrder(p, session) && Enabled(p, step) && !Enters(p, session, step)
    ensures InOrder(Apply(p, step), session)
  {
    var q := Apply(p, step);
    LogGrows(p, session, step);
    LogKnown(p, session);
    OwnChanges(p, session, step);
    KeepInOrder(SessionLog(p, session), p.trying.Keys, q.trying.Keys, Own(p, session), Own(q, session), |p.offers|);
  }

  lemma KeepInOrder(log: seq<nat>, rest: set<nat>, rest': set<nat>, own: set<nat>, own': set<nat>, n: nat)
    requires Ascending(log, own) && Precede(log, rest, own) && forall i | 0 <= i < |log| :: log[i] < n
    requires rest' <= rest + {n} && (forall id: nat | id < n :: id in own' <==> id in own)
    requires forall id | id in rest :: id < n
    ensures Ascending(log, own') && Precede(log, rest', own')
  {}

  lemma EnterInOrderExactly(p: Pool, session: int, step: Step)
    requires Inv(p) && InOrder(p, session) && Enabled(p, step) && Enters(p, session, step)
    ensures InOrder(Apply(p, step), session) <==> OldestFirst(p, session, step)
  {
    var q := Apply(p, step);
    LogGrows(p, session, step);
    assert q.trying.Keys == p.trying.Keys - {step.id} && Own(q, session) == Own(p, session);
    AppendInOrder(SessionLog(p, session), p.trying.Keys, Own(p, session), step.id);
  }

  lemma AppendInOrder(log: seq<nat>, rest: set<nat>, own: set<nat>, id0: nat)
    requires Ascending(log, own) && Precede(log, rest, own) && id0 in rest
    ensures Ascending(log + [id0], own) && Precede(log + [id0], rest - {id0}, own) <==> Oldest(id0, rest, own)
  {
    var after := log + [id0];
    assert after[|log|] == id0 && forall i | 0 <= i < |log| :: after[i] == log[i];
    if Precede(after, rest - {id0}, own) && id0 in own {
      forall id | id in rest && id in own ensures id0 <= id { assert id != id0 ==> after[|log|] < id; }
    }
  }

  lemma ElsewhereOldest(p: Pool, session: int, step: Step)
    requires Enabled(p, step) && !Enters(p, session, step)
    ensures OldestFirst(p, session, step)
  {}

  /** A step keeps the session in order exactly when it does not let a younger offer overtake. */
  lemma StepInOrderExactly(p: Pool, session: int, step: Step)
    requires Inv(p) && InOrder(p, session) && Enabled(p, step)
    ensures InOrder(Apply(p, step), session) <==> OldestFirst(p, session, step)
  {
    if Enters(p, session, step) {
      EnterInOrderExactly(p, session, step);
    } else {
      StayInOrder(p, session, step);
      ElsewhereOldest(p, session, step);
    }
  }

  lemma {:induction false} ReachedBefore(size: nat, retryMax: int, run: seq<Step>, m: nat, n: nat)
    requires m <= n && Reached(size, retryMax, run, n)
    ensures Reached(size, retryMax, run, m)
  {
    if m < n { ReachedBefore(size, retryMax, run, m, n - 1); }
  }

  ghost predicate InOrderAt(size: nat, retryMax: int, run: seq<Step>, m: nat, session: int) {
    Reached(size, retryMax, run, m) && InOrder(Reach(size, retryMax, run, m), session)
  }

  ghost predicate OldestFirstAt(size: nat, retryMax: int, run: seq<Step>, m: nat, session: int) {
    m < |run| && Reached(size, retryMax, run, m) && OldestFirst(Reach(size, retryMax, run, m), session, run[m])
  }

  ghost predicate InOrderUpTo(size: nat, retryMax: int, run: seq<Step>, n: nat, session: int) {
    forall m | 0 <= m <= n :: InOrderAt(size, retryMax, run, m, session)
  }

  lemma RunStepInOrder(size: nat, retryMax: int, run: seq<Step>, n: nat, session: int)
    requires Reached(size, retryMax, run, n + 1) && InOrderAt(size, retryMax, run, n, session)
    ensures InOrderAt(size, retryMax, run, n + 1, session) <==> OldestFirstAt(size, retryMax, run, n, session)
  {
    RunInv(size, retryMax, run, n);
    StepInOrderExactly(Reach(size, retryMax, run, n), session, run[n]);
  }

  lemma StartsInOrder(size: nat, retryMax: int, run: seq<Step>, session: int)
    ensures InOrderAt(size, retryMax, run, 0, session)
  {
    assert SessionLog(Start(size, retryMax), session) == [];
  }

  lemma {:induction false} InOrderForward(size: nat, retryMax: int, run: seq<Step>, n: nat, session: int)
    requires Reached(size, retryMax, run, n) && forall m | 0 <= m < n :: OldestFirstAt(size, retryMax, run, m, session)
    ensures InOrderAt(size, retryMax, run, n, session)
  {
    if n == 0 {
      StartsInOrder(size, retryMax, run, session);
    } else {
      ReachedBefore(size, retryMax, run, n - 1, n);
      InOrderForward(size, retryMax, run, n - 1, session);
      RunStepInOrder(size, retryMax, run, n - 1, session);
    }
  }

  lemma InOrderBackward(size: nat, retryMax: int, run: seq<Step>, n: nat, m: nat, session: int)
    requires m < n && InOrderUpTo(size, retryMax, run, n, session)
    ensures OldestFirstAt(size, retryMax, run, m, session)
  {
    assert InOrderAt(size, retryMax, run, m, session) && InOrderAt(size, retryMax, run, m + 1, session);
    RunStepInOrder(size, retryMax, run, m, session);
  }

  /** Over a whole run: the session is in order at every moment exactly when its offers entered oldest first. */
  lemma OrderExactly(size: nat, retryMax: int, run: seq<Step>, n: nat, session: int)
    requires Reached(size, retryMax, run, n)
    ensures InOrderUpTo(size, retryMax, run, n, session)
            <==> forall m | 0 <= m < n :: OldestFirstAt(size, retryMax, run, m, session)
  {
    if forall m | 0 <= m < n :: OldestFirstAt(size, retryMax, run, m, session) {
      forall m | 0 <= m <= n ensures InOrderAt(size, retryMax, run, m, session) {
        ReachedBefore(size, retryMax, run, m, n);
        InOrderForward(size, retryMax, run, m, session);
      }
    }
    if InOrderUpTo(size, retryMax, run, n, session) {
      forall m | 0 <= m < n ensures OldestFirstAt(size, retryMax, run, m, session) {
        InOrderBackward(size, retryMax, run, n, m, session);
      }
    }
  }

  /** An offer of the session that enters the queue is younger than all that entered before. */
  ghost predicate Newest(p: Pool, session: int, step: Step)
    requires Enabled(p, step)
  {
    Enters(p, session, step) && step.id in Own(p, session) ==> Above(step.id, SessionLog(p, session), Own(p, session))
  }

  ghost predicate Above(id0: nat, log: seq<nat>, own: set<nat>) {
    forall i | 0 <= i < |log| && log[i] in own :: log[i] < id0
  }

  lemma AppendAscending(log: seq<nat>, own: set<nat>, id0: nat)
    requires Ascending(log, own)
    ensures Ascending(log + [id0], own) <==> (id0 in own ==> Above(id0, log, own))
  {
    var after := log + [id0];
    assert after[|log|] == id0 && forall i | 0 <= i < |log| :: after[i] == log[i];
  }

  lemma SameOwnAscending(log: seq<nat>, own: set<nat>, own': set<nat>, n: nat)
    requires (forall i | 0 <= i < |log| :: log[i] < n) && forall id: nat | id < n :: id in own' <==> id in own
    ensures Ascending(log, own') <==> Ascending(log, own)
  {}

  /** A step keeps the session's offers in order exactly when it lets no older offer in behind a younger one. */
  lemma StepOrderedExactly(p: Pool, session: int, step: Step)
    requires Inv(p) && Ordered(p, session) && Enabled(p, step)
    ensures Ordered(Apply(p, step), session) <==> Newest(p, session, step)
  {
    var q, log := Apply(p, step), SessionLog(p, session);
    LogGrows(p, session, step);
    if Enters(p, session, step) {
      assert Own(q, session) == Own(p, session);
      AppendAscending(log, Own(p, session), step.id);
    } else {
      LogKnown(p, session);
      OwnChanges(p, session, step);
      SameOwnAscending(log, Own(p, session), Own(q, session), |p.offers|);
    }
  }

  /** Order, once lost, stays lost. */
  lemma StepOrderedBefore(p: Pool, session: int, step: Step)
    requires Inv(p) && Enabled(p, step) && Ordered(Apply(p, step), session)
    ensures Ordered(p, session)
  {
    var q, log := Apply(p, step), SessionLog(p, session);
    LogGrows(p, session, step);
    LogKnown(p, session);
    OwnChanges(p, session, step);
    assert forall i | 0 <= i < |log| :: SessionLog(q, session)[i] == log[i];
    assert Ascending(log, Own(q, session));
    SameOwnAscending(log, Own(p, session), Own(q, session), |p.offers|);
  }

  ghost predicate OrderedAt(size: nat, retryMax: int, run: seq<Step>, m: nat, session: int) {
    Reached(size, retryMax, run, m) && Ordered(Reach(size, retryMax, run, m), session)
  }

  ghost predicate NewestAt(size: nat, retryMax: int, run: seq<Step>, m: nat, session: int) {
    m < |run| && Reached(size, retryMax, run, m + 1) && Reached(size, retryMax, run, m)
    && Newest(Reach(size, retryMax, run, m), session, run[m])
  }

  ghost predicate OrderedUpTo(size: nat, retryMax: int, run: seq<Step>, n: nat, session: int) {
    forall m | 0 <= m <= n :: OrderedAt(size, retryMax, run, m, session)
  }

  lemma RunStepOrdered(size: nat, retryMax: int, run: seq<Step>, n: nat, session: int)
    requires Reached(size, retryMax, run, n + 1) && OrderedAt(size, retryMax, run, n, session)
    ensures OrderedAt(size, retryMax, run, n + 1, session) <==> NewestAt(size, retryMax, run, n, session)
  {
    RunInv(size, retryMax, run, n);
    StepOrderedExactly(Reach(size, retryMax, run, n), session, run[n]);
  }

  lemma {:induction false} OrderedForward(size: nat, retryMax: int, run: seq<Step>, n: nat, session: int)
    requires Reached(size, retryMax, run, n) && forall m | 0 <= m < n :: NewestAt(size, retryMax, run, m, session)
    ensures OrderedAt(size, retryMax, run, n, session)
  {
    if n == 0 {
      StartsInOrder(size, retryMax, run, session);
    } else {
      ReachedBefore(size, retryMax, run, n - 1, n);
      OrderedForward(size, retryMax, run, n - 1, session);
      RunStepOrdered(size, retryMax, run, n - 1, session);
    }
  }

  lemma OrderedBackward(size: nat, retryMax: int, run: seq<Step>, n: nat, m: nat, session: int)
    requires m < n && OrderedUpTo(size, retryMax, run, n, session)
    ensures NewestAt(size, retryMax, run, m, session)
  {
    assert OrderedAt(size, retryMax, run, m, session) && OrderedAt(size, retryMax, run, m + 1, session);
    RunStepOrdered(size, retryMax, run, m, session);
  }

  /** Over a whole run: the session's offers are in order at every moment exactly when none entered behind a younger
      one. */
  lemma OrderedExactly(size: nat, retryMax: int, run: seq<Step>, n: nat, session: int)
    requires Reached(size, retryMax, run, n)
    ensures OrderedUpTo(size, retryMax, run, n, session)
            <==> forall m | 0 <= m < n :: NewestAt(size, retryMax, run, m, session)
  {
    if forall m | 0 <= m < n :: NewestAt(size, retryMax, run, m, session) {
      forall m | 0 <= m <= n ensures OrderedAt(size, retryMax, run, m, session) {
        ReachedBefore(size, retryMax, run, m, n);
        OrderedForward(size, retryMax, run, m, session);
      }
    }
    if OrderedUpTo(size, retryMax, run, n, session) {
      forall m | 0 <= m < n ensures NewestAt(size, retryMax, run, m, session) {
        OrderedBackward(size, retryMax, run, n, m, session);
      }
    }
  }

  lemma {:induction false} OrderedThroughout(size: nat, retryMax: int, run: seq<Step>, n: nat, session: int)
    requires OrderedAt(size, retryMax, run, n, session)
    ensures OrderedUpTo(size, retryMax, run, n, session)
  {
    if n > 0 {
      RunInv(size, retryMax, run, n - 1);
      StepOrderedBefore(Reach(size, retryMax, run, n - 1), session, run[n - 1]);
      OrderedThroughout(size, retryMax, run, n - 1, session);
    }
  }

  /** The session's calls of Send do not overlap: at most one is under way. */
  ghost predicate OneAtATime(p: Pool, session: int) {
    forall id, other | id in p.trying && other in p.trying && id in Own(p, session) && other in Own(p, session) ::
      id == other
  }

  /** Then its envelopes reach the writer in the order of the calls, whatever the retries. */
  lemma SequentialSendsOrdered(size: nat, retryMax: int, run: seq<Step>, n: nat, session: int)
    requires Reached(size, retryMax, run, n)
    requires forall m | 0 <= m < n && Reached(size, retryMax, run, m) ::
               OneAtATime(Reach(size, retryMax, run, m), session)
    ensures Ordered(Reach(size, retryMax, run, n), session)
  {
    OrderExactly(size, retryMax, run, n, session);
    forall m | 0 <= m < n ensures OldestFirstAt(size, retryMax, run, m, session) {
      ReachedBefore(size, retryMax, run, m, n);
      ReachedBefore(size, retryMax, run, m + 1, n);
    }
    assert InOrderAt(size, retryMax, run, n, session);
  }

  // ---------- overlapping sends ----------

  ghost predicate Leads(size: nat, retryMax: int, run: seq<Step>, p: Pool) {
    Reached(size, retryMax, run, |run|) && Reach(size, retryMax, run, |run|) == p
  }

  lemma {:induction false} AtPrefix(p: Pool, run: seq<Step>, step: Step, n: nat)
    requires n <= |run|
    ensures At(p, run + [step], n) == At(p, run, n)
  {
    if n > 0 { AtPrefix(p, run, step, n - 1); }
  }

  lemma Next(size: nat, retryMax: int, run: seq<Step>, p: Pool, step: Step) returns (run': seq<Step>, p': Pool)
    requires Leads(size, retryMax, run, p) && Enabled(p, step)
    ensures p' == Apply(p, step) && Leads(size, retryMax, run', p')
  {
    run', p' := run + [step], Apply(p, step);
    AtPrefix(Start(size, retryMax), run, step, |run|);
  }

  /** A pool of one connection whose queue holds `k` offers of session 0, with nothing else going on. */
  ghost predicate Filled(p: Pool, retryMax: int, k: nat) {
    && |p.clients| == 1 && |p.clients[0].queue| == k && p.clients[0].taken == [] && p.trying == map[]
    && p.retryMax == retryMax && |p.offers| == k && forall i | 0 <= i < k :: p.offers[i].session == 0
  }

  lemma Fill(retryMax: int, k: nat) returns (run: seq<Step>, p: Pool)
    requires retryMax >= 0 && k <= QUEUE_CAPACITY
    ensures Leads(1, retryMax, run, p) && Filled(p, retryMax, k)
  {
    run, p := [], Start(1, retryMax);
    for i := 0 to k
      invariant Leads(1, retryMax, run, p) && Filled(p, retryMax, i)
    {
      run, p := Next(1, retryMax, run, p, Send(0, Envelope(0, 0, 0, [])));
      run, p := Next(1, retryMax, run, p, Attempt(i));
    }
  }

  /** The last offer, of the given session, met a full queue and sleeps. */
  ghost predicate Sleeping(p: Pool, session: int) {
    && |p.clients| == 1 && |p.clients[0].queue| == QUEUE_CAPACITY && |p.offers| > 0
    && p.trying.Keys == {|p.offers| - 1} && p.offers[|p.offers| - 1].session == session
  }

  lemma MeetFullQueue(retryMax: int, session: int) returns (run: seq<Step>, p: Pool)
    requires retryMax > 0
    ensures Leads(1, retryMax, run, p) && Sleeping(p, session) && p.retryMax > 0
  {
    run, p := Fill(retryMax, QUEUE_CAPACITY);
    var first := |p.offers|;
    run, p := Next(1, retryMax, run, p, Send(session, Envelope(0, session, 0, [])));
    run, p := Next(1, retryMax, run, p, Attempt(first));
  }

  lemma Overtake(retryMax: int, session: int, run: seq<Step>, p: Pool) returns (run': seq<Step>, p': Pool)
    requires Leads(1, retryMax, run, p) && Sleeping(p, session) && p.retryMax > 0
    ensures Leads(1, retryMax, run', p') && |p'.clients| == 1 && |p'.offers| == |p.offers| + 1
    ensures p'.offers[..|p.offers|] == p.offers && p'.offers[|p.offers|].session == session
    ensures var queue := p'.clients[0].queue;
            |queue| > 1 && queue[|queue| - 2] == |p.offers| && queue[|queue| - 1] == |p.offers| - 1
  {
    var first, second := |p.offers| - 1, |p.offers|;
    run', p' := Next(1, retryMax, run, p, Send(session, Envelope(0, session, 0, [])));
    run', p' := Next(1, retryMax, run', p', Write(0, true));
    run', p' := Next(1, retryMax, run', p', Attempt(second));
    run', p' := Next(1, retryMax, run', p', Write(0, true));
    run', p' := Next(1, retryMax, run', p', Attempt(first));
  }

  /** Otherwise a retry can be overtaken: the first call meets a full queue, the second finds room while it sleeps. */
  lemma OverlappingSendsReorder(retryMax: int, session: int)
    requires retryMax > 0
    ensures exists run: seq<Step>, n: nat ::
              Reached(1, retryMax, run, n) && !Ordered(Reach(1, retryMax, run, n), session)
  {
    var run, p := MeetFullQueue(retryMax, session);
    var run', p' := Overtake(retryMax, session, run, p);
    assert p'.offers[..|p.offers|][|p.offers| - 1] == p'.offers[|p.offers| - 1];
    Swapped(p', session, |p.offers| - 1);
    assert Reached(1, retryMax, run', |run'|) && Reach(1, retryMax, run', |run'|) == p';
  }

  lemma Swapped(p: Pool, session: int, first: nat)
    requires |p.clients| == 1 && |p.offers| == first + 2
    requires p.offers[first].session == session && p.offers[first + 1].session == session
    requires var queue := p.clients[0].queue;
             |queue| > 1 && queue[|queue| - 2] == first + 1 && queue[|queue| - 1] == first
    ensures !Ordered(p, session)
  {
    var log := SessionLog(p, session);
    assert log == Log(p.clients[0]);
    assert log[|log| - 1] == first && log[|log| - 2] == first + 1;
  }

  /** The second call's offer has entered, the first one still tries, and nothing else of the session is around. */
  ghost predicate Overtaken(p: Pool, session: int, first: nat) {
    && |p.clients| == 1 && |p.clients[0].queue| == QUEUE_CAPACITY && |p.offers| == first + 2
    && p.trying.Keys == {first} && p.offers[first].session == session
    && Log(p.clients[0]) != [] && Log(p.clients[0])[|Log(p.clients[0])| - 1] == first + 1
    && (forall i | 0 <= i < first :: p.offers[i].session != session) && p.offers[first + 1].session == session
    && p.trying[first] <= p.retryMax
  }

  lemma LetOvertake(retryMax: int, session: int) returns (run: seq<Step>, p: Pool, first: nat)
    requires retryMax >= 0 && session != 0
    ensures Leads(1, retryMax, run, p) && Overtaken(p, session, first)
  {
    run, p := Fill(retryMax, QUEUE_CAPACITY);
    first := |p.offers|;
    run, p := Next(1, retryMax, run, p, Send(session, Envelope(0, session, 0, [])));
    run, p := Next(1, retryMax, run, p, Send(session, Envelope(0, session, 0, [])));
    run, p := Next(1, retryMax, run, p, Write(0, true));
    run, p := Next(1, retryMax, run, p, Attempt(first + 1));
  }

  /** The first call finds the queue full until it gives up. */
  lemma {:induction false} GiveUp(retryMax: int, session: int, run: seq<Step>, p: Pool, first: nat)
    returns (run': seq<Step>, p': Pool)
    requires Leads(1, retryMax, run, p) && Overtaken(p, session, first)
    ensures Leads(1, retryMax, run', p') && run <= run' && p'.trying == map[] && p'.offers == p.offers
    ensures |p'.clients| == 1 && Log(p'.clients[0]) == Log(p.clients[0])
    decreases p.retryMax - p.trying[first]
  {
    var last := p.trying[first] == p.retryMax;
    run', p' := NextAppends(retryMax, run, p, Attempt(first));
    if !last {
      run', p' := GiveUp(retryMax, session, run', p', first);
    }
  }

  lemma NextAppends(retryMax: int, run: seq<Step>, p: Pool, step: Step) returns (run': seq<Step>, p': Pool)
    requires Leads(1, retryMax, run, p) && Enabled(p, step)
    ensures p' == Apply(p, step) && Leads(1, retryMax, run', p') && run <= run'
  {
    run', p' := run + [step], Apply(p, step);
    AtPrefix(Start(1, retryMax), run, step, |run|);
  }

  lemma {:induction false} ReachPrefix(retryMax: int, run: seq<Step>, run': seq<Step>, n: nat)
    requires run <= run' && n <= |run|
    ensures At(Start(1, retryMax), run', n) == At(Start(1, retryMax), run, n)
  {
    if n > 0 { ReachPrefix(retryMax, run, run', n - 1); }
  }

  /** Being overtaken need not cost the order: here the call overtaken is refused, so the stronger condition fails
      while the offers are in order at every moment. */
  lemma OvertakenInOrder(retryMax: int, session: int)
    requires retryMax >= 0 && session != 0
    ensures exists run: seq<Step>, n: nat ::
              && Reached(1, retryMax, run, n) && Reach(1, retryMax, run, n).trying == map[]
              && OrderedUpTo(1, retryMax, run, n, session) && !InOrderUpTo(1, retryMax, run, n, session)
  {
    var run, p, first := LetOvertake(retryMax, session);
    var run', p' := GiveUp(retryMax, session, run, p, first);
    RunInv(1, retryMax, run, |run|);
    OnlyOne(p, p', session, first);
    OrderedThroughout(1, retryMax, run', |run'|, session);
    ReachPrefix(retryMax, run, run', |run|);
    NotInOrder(p, session, first);
    assert !InOrderAt(1, retryMax, run', |run|, session);
    assert Reach(1, retryMax, run', |run'|).trying == map[];
  }

  lemma NotInOrder(p: Pool, session: int, first: nat)
    requires Overtaken(p, session, first)
    ensures !InOrder(p, session)
  {
    var log := SessionLog(p, session);
    assert log[|log| - 1] == first + 1 && first in p.trying.Keys;
    assert first in Own(p, session) && first + 1 in Own(p, session);
  }

  /** Only one offer of the session ever entered. */
  lemma OnlyOne(p: Pool, p': Pool, session: int, first: nat)
    requires Inv(p) && Overtaken(p, session, first)
    requires |p'.clients| == 1 && Log(p'.clients[0]) == Log(p.clients[0]) && p'.offers == p.offers
    ensures Ordered(p', session)
  {
    var log := Log(p.clients[0]);
    assert SessionLog(p', session) == log && ClientOk(p, 0);
    forall i | 0 <= i < |log| && log[i] in Own(p', session) ensures log[i] == first + 1 {
      assert log[i] !in p.trying;
    }
  }
}
