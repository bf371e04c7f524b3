/** Which gate connection the service answers each session on: an index against the history of deliveries. */
module GateIndex {
  import opened Prelude
  import opened Protocol

  /** One gate connection: what was written to it, and whether its reader has closed it. */
  datatype Link = Link(sent: seq<Envelope>, closed: bool)

  datatype Service = Service(gateConns: map<int, Link>, sessionGate: map<int, int>, nextGateID: int)

  const START := Service(map[], map[], 0)

  /** A gate's reader delivers envelopes, then closes the connection, then cleans up. Replies come from anywhere;
      `works` says whether the write goes through. */
  datatype Step =
    | Accept
    | Deliver(gate: int, env: Envelope)
    | Close(gate: int)
    | Cleanup(gate: int)
    | Reply(session: int, msgId: int, payload: seq<byte>, works: bool)

  predicate Enabled(v: Service, step: Step) {
    match step
    case Deliver(g, _) => g in v.gateConns && !v.gateConns[g].closed
    case Close(g) => g in v.gateConns && !v.gateConns[g].closed
    case Cleanup(g) => g in v.gateConns && v.gateConns[g].closed
    case _ => true
  }

  /** Whether a reply finds no index entry, finds an entry without a connection, or has a connection to go to. */
  datatype Target = NoEntry | NoConn | On(gate: int)

  function FindTarget(v: Service, session: int): Target {
    if session !in v.sessionGate then NoEntry
    else if v.sessionGate[session] !in v.gateConns then NoConn
    else On(v.sessionGate[session])
  }

  function Register(v: Service): Service {
    v.(nextGateID := v.nextGateID + 1, gateConns := v.gateConns[v.nextGateID + 1 := Link([], false)])
  }

  function Record(v: Service, gate: int, env: Envelope): Service {
    if env.sessionId == 0 then v else v.(sessionGate := v.sessionGate[env.sessionId := gate])
  }

  function CloseLink(v: Service, gate: int): Service
    requires gate in v.gateConns
  {
    v.(gateConns := v.gateConns[gate := v.gateConns[gate].(closed := true)])
  }

  function Forget(v: Service, gate: int): Service {
    v.(gateConns := v.gateConns - {gate},
       sessionGate := map s | s in v.sessionGate && v.sessionGate[s] != gate :: v.sessionGate[s])
  }

  function ReplyToGate(v: Service, session: int, msgId: int, payload: seq<byte>, works: bool): Service {
    match FindTarget(v, session)
    case On(g) =>
      var link := v.gateConns[g];
      if link.closed || !works then v
      else v.(gateConns := v.gateConns[g := link.(sent := link.sent + [Envelope(msgId, session, 0, payload)])])
    case _ => v
  }

  function Apply(v: Service, step: Step): Service
    requires Enabled(v, step)
  {
    match step
    case Accept => Register(v)
    case Deliver(g, env) => Record(v, g, env)
    case Close(g) => CloseLink(v, g)
    case Cleanup(g) => Forget(v, g)
    case Reply(s, msgId, payload, works) => ReplyToGate(v, s, msgId, payload, works)
  }

  function At(run: seq<Step>, n: nat): Option<Service>
    requires n <= |run|
  {
    if n == 0 then Some(START)
    else
      match At(run, n - 1)
      case None => None
      case Some(v) => if Enabled(v, run[n - 1]) then Some(Apply(v, run[n - 1])) else None
  }

  /** The gate connection that last delivered an envelope of the session in the first `n` steps. */
  function LastDeliverer(run: seq<Step>, n: nat, session: int): Option<int>
    requires n <= |run|
  {
    if n == 0 then None
    else
      match run[n - 1]
      case Deliver(g, env) => if env.sessionId == session then Some(g) else LastDeliverer(run, n - 1, session)
      case _ => LastDeliverer(run, n - 1, session)
  }

  ghost predicate Issued(v: Service) {
    && (forall g | g in v.gateConns :: 0 < g <= v.nextGateID)
    && (forall s | s in v.sessionGate :: s != 0 && v.sessionGate[s] in v.gateConns)
    && v.nextGateID >= 0
  }

  /** The entry names the last deliverer while that one is registered. */
  ghost predicate Follows(v: Service, last: Option<int>, session: int) {
    && (last.Some? ==> 0 < last.value <= v.nextGateID)
    && (session in v.sessionGate <==> last.Some? && last.value in v.gateConns)
    && (session in v.sessionGate ==> v.sessionGate[session] == last.value)
  }

  /** The index is the delivery history, for every session at every moment of every run; IDs are never reused. */
  lemma {:induction false} IndexIsHistory(run: seq<Step>, n: nat, session: int)
    requires n <= |run| && At(run, n).Some? && session != 0
    ensures Issued(At(run, n).value) && Follows(At(run, n).value, LastDeliverer(run, n, session), session)
  {
    if n > 0 {
      IndexIsHistory(run, n - 1, session);
      StepIssued(At(run, n - 1).value, run[n - 1]);
      StepFollows(At(run, n - 1).value, LastDeliverer(run, n - 1, session), run[n - 1], session);
    }
  }

  lemma StepIssued(v: Service, step: Step)
    requires Issued(v) && Enabled(v, step)
    ensures Issued(Apply(v, step))
  {}

  lemma StepFollows(v: Service, last: Option<int>, step: Step, session: int)
    requires Issued(v) && Enabled(v, step) && Follows(v, last, session) && session != 0
    ensures var last' := if step.Deliver? && step.env.sessionId == session then Some(step.gate) else last;
            Follows(Apply(v, step), last', session)
  {}

  /** An entry without a connection never exists, so that branch of a reply is never taken. */
  lemma NilConnUnreachable(run: seq<Step>, n: nat, session: int)
    requires n <= |run| && At(run, n).Some?
    ensures FindTarget(At(run, n).value, session) != NoConn
  {
    IndexIsHistory(run, n, 1);
  }

  /** A reply goes to the gate connection that last delivered an envelope of the session, if it is still there; all
      other connections and the index stay as they were. */
  lemma ReplyReachesLastDeliverer(run: seq<Step>, n: nat, session: int, msgId: int, payload: seq<byte>, works: bool)
    requires n <= |run| && At(run, n).Some? && session != 0
    ensures var v, last := At(run, n).value, LastDeliverer(run, n, session);
            var w := ReplyToGate(v, session, msgId, payload, works);
            && w.sessionGate == v.sessionGate && w.gateConns.Keys == v.gateConns.Keys
            && forall g | g in v.gateConns ::
                 w.gateConns[g] == if last == Some(g) && works && !v.gateConns[g].closed
                                   then Link(v.gateConns[g].sent + [Envelope(msgId, session, 0, payload)], false)
                                   else v.gateConns[g]
  {
    IndexIsHistory(run, n, session);
  }

  /** Session 0 never gets a reply. */
  lemma SessionZeroUnanswered(run: seq<Step>, n: nat)
    requires n <= |run| && At(run, n).Some?
    ensures FindTarget(At(run, n).value, 0) == NoEntry
  {
    IndexIsHistory(run, n, 1);
  }

  // ---------- the life of a gate connection ----------

  /** Connection `g` is gone for good: neither it nor an entry for it will be there again. */
  ghost predicate Gone(v: Service, g: int) {
    g !in v.gateConns && g <= v.nextGateID && forall s | s in v.sessionGate :: v.sessionGate[s] != g
  }

  lemma StepGone(v: Service, step: Step, g: int)
    requires Issued(v) && Enabled(v, step)
    ensures Gone(v, g) ==> Gone(Apply(v, step), g)
    ensures step == Cleanup(g) ==> Gone(Apply(v, step), g)
  {}

  /** After its cleanup a gate connection and all its sessions' entries are gone, and its ID is never used again. */
  lemma {:induction false} CleanedForGood(run: seq<Step>, m: nat, n: nat, g: int)
    requires m < n <= |run| && At(run, n).Some? && run[m] == Cleanup(g)
    ensures Gone(At(run, n).value, g)
  {
    IndexIsHistory(run, n - 1, 1);
    StepGone(At(run, n - 1).value, run[n - 1], g);
    if m < n - 1 { CleanedForGood(run, m, n - 1, g); }
  }

  /** Connection `g` has been written exactly `sent`, and is closed, or is gone. */
  ghost predicate Silent(v: Service, g: int, sent: seq<Envelope>) {
    if g in v.gateConns then v.gateConns[g] == Link(sent, true) else g <= v.nextGateID
  }

  lemma {:induction false} StepSilent(v: Service, step: Step, g: int, sent: seq<Envelope>)
    requires Issued(v) && Enabled(v, step) && Silent(v, g, sent)
    ensures Silent(Apply(v, step), g, sent)
  {}

  /** Once a gate's reader has closed its connection nothing more is written to it. */
  lemma {:induction false} ClosedStaysSilent(run: seq<Step>, m: nat, n: nat, g: int)
    requires m < n <= |run| && At(run, n).Some? && run[m] == Close(g) && At(run, m).Some?
    ensures g in At(run, m).value.gateConns
    ensures Silent(At(run, n).value, g, At(run, m).value.gateConns[g].sent)
  {
    IndexIsHistory(run, n - 1, 1);
    if m < n - 1 {
      ClosedStaysSilent(run, m, n - 1, g);
      StepSilent(At(run, n - 1).value, run[n - 1], g, At(run, m).value.gateConns[g].sent);
    }
  }

  /** A gate that connects is registered under an ID that no gate had before, with nothing written to it, and no session
      is answered on it yet. */
  lemma ArrivesNew(run: seq<Step>, m: nat, n: nat)
    requires m <= n < |run| && At(run, n + 1).Some? && run[n] == Accept && At(run, m).Some?
    ensures var v, w := At(run, n).value, At(run, n + 1).value;
            && w.gateConns == v.gateConns[w.nextGateID := Link([], false)] && w.sessionGate == v.sessionGate
            && w.nextGateID !in At(run, m).value.gateConns
            && forall s | s in w.sessionGate :: w.sessionGate[s] != w.nextGateID
  {
    IndexIsHistory(run, m, 1);
    IndexIsHistory(run, n, 1);
    IssuedUpTo(run, m, n);
  }

  lemma {:induction false} IssuedUpTo(run: seq<Step>, m: nat, n: nat)
    requires m <= n <= |run| && At(run, n).Some?
    ensures At(run, m).Some? && At(run, m).value.nextGateID <= At(run, n).value.nextGateID
  {
    if m < n { IssuedUpTo(run, m, n - 1); }
  }
}
