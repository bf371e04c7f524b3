/** How a player tries its modules on one message, and what the dispatching caller gets. */
module Dispatch {
  import opened Prelude
  import opened Protocol

  datatype Error =
    | ErrPlayerClosed | ErrPlayerBusy | ErrUnknownMessage | ErrPlayerDestroyed | ErrPlayerReplyTimeout
    | ModulePanic(reason: string) | PlayerPanic(reason: string) | ModuleError(reason: string)

  /** What travels on the reply channel. */
  datatype Result = Result(envelope: Option<Envelope>, handled: bool, err: Option<Error>)

  /** How a module's Handle ends. */
  datatype Answer = Returns(result: Result) | Panics(reason: string)

  /** What one module does with the message: CanHandle refuses it, panics, or accepts it and Handle answers. */
  datatype Verdict = Declines | CanHandlePanics(reason: string) | Takes(answer: Answer)

  const NOTHING := Result(None, false, None)

  /** The module list decides here: the message is handled, or the player panics. */
  predicate Decisive(v: Verdict) {
    v.CanHandlePanics? || (v.Takes? && v.answer.Returns? && v.answer.result.handled)
  }

  /** The first decisive module, or the end of the list. */
  function Ending(modules: seq<Verdict>): (n: nat)
    ensures n <= |modules|
    ensures forall i | 0 <= i < n :: !Decisive(modules[i])
    ensures n < |modules| ==> Decisive(modules[n])
  {
    if modules == [] || Decisive(modules[0]) then 0 else 1 + Ending(modules[1..])
  }

  /** The error of the last module tried, None if none was. */
  function LastError(modules: seq<Verdict>): Option<Error> {
    if modules == [] then None
    else
      var last := modules[|modules| - 1];
      match last
      case Takes(Returns(r)) => r.err
      case Takes(Panics(reason)) => Some(ModulePanic(reason))
      case _ => LastError(modules[..|modules| - 1])
  }

  /** The envelope of the last module that returned, None if none did. */
  function LastEnvelope(modules: seq<Verdict>): Option<Envelope> {
    if modules == [] then None
    else
      var last := modules[|modules| - 1];
      match last
      case Takes(Returns(r)) => r.envelope
      case _ => LastEnvelope(modules[..|modules| - 1])
  }

  /** First handler wins; otherwise the last module tried leaves its error, and a player panic leaves its own. */
  function Verdicts(modules: seq<Verdict>): Result {
    var n := Ending(modules);
    if n == |modules| then Result(LastEnvelope(modules), false, LastError(modules))
    else match modules[n]
      case Takes(Returns(r)) => r
      case CanHandlePanics(reason) => Result(LastEnvelope(modules[..n]), false, Some(PlayerPanic(reason)))
      case _ => NOTHING
  }

  /** The player's loop over its modules, with both recovery points. */
  method Handle(modules: seq<Verdict>) returns (r: Result)
    ensures r == Verdicts(modules)
  {
    r := NOTHING;
    ghost var n := Ending(modules);
    for i := 0 to |modules|
      invariant i <= n
      invariant r == Result(LastEnvelope(modules[..i]), false, LastError(modules[..i]))
    {
      assert modules[..i + 1][..i] == modules[..i];
      match modules[i] {
        case Declines =>
        case CanHandlePanics(reason) => return r.(err := Some(PlayerPanic(reason)));
        case Takes(answer) =>
          match answer {
            case Panics(reason) => r := r.(handled := false, err := Some(ModulePanic(reason)));
            case Returns(result) => r := result;
          }
          if r.handled { return; }
      }
    }
    assert modules[..|modules|] == modules;
  }

  /** The first module that handles the message decides, whatever the modules after it would do. */
  lemma FirstHandlerWins(modules: seq<Verdict>, k: nat)
    requires k < |modules| && modules[k].Takes? && modules[k].answer.Returns? && modules[k].answer.result.handled
    requires forall i | 0 <= i < k :: !Decisive(modules[i])
    ensures Verdicts(modules) == modules[k].answer.result
  {
    assert Ending(modules) == k;
  }

  /** What Dispatch returns for a reply. */
  datatype Outcome = Answered(envelope: Option<Envelope>) | Rejected(err: Error)

  function Conclude(r: Result): Outcome {
    if r.err.Some? then Rejected(r.err.value)
    else if !r.handled then Rejected(ErrUnknownMessage)
    else Answered(r.envelope)
  }

  /** How a dispatch goes: the player's inbox refuses it or the answer is late, or its modules have their say. */
  datatype Fate = Undelivered(err: Error) | Delivered(modules: seq<Verdict>)

  function OutcomeOf(fate: Fate): Outcome {
    match fate
    case Undelivered(err) => Rejected(err)
    case Delivered(modules) => Conclude(Verdicts(modules))
  }

  /** The dispatching caller: what it is sent on its reply channel decides what it returns. */
  method Dispatch(fate: Fate) returns (outcome: Outcome)
    ensures outcome == OutcomeOf(fate)
  {
    match fate {
      case Undelivered(err) => return Rejected(err);
      case Delivered(modules) =>
        var r := Handle(modules);
        if r.err.Some? { return Rejected(r.err.value); }
        if !r.handled { return Rejected(ErrUnknownMessage); }
        return Answered(r.envelope);
    }
  }

  /** A dispatch returns an envelope exactly if it reached the modules and the deciding one handled the message with
      that envelope and no error. */
  lemma EnvelopeExactly(fate: Fate, e: Envelope)
    ensures OutcomeOf(fate) == Answered(Some(e))
            <==> && fate.Delivered? && Ending(fate.modules) < |fate.modules|
                 && fate.modules[Ending(fate.modules)] == Takes(Returns(Result(Some(e), true, None)))
  {}

  /** The last module that took the message, None if all declined. */
  function LastTried(modules: seq<Verdict>): (k: Option<nat>)
    ensures k.Some? ==>
              k.value < |modules| && modules[k.value].Takes? && forall i | k.value < i < |modules| :: !modules[i].Takes?
    ensures k == None ==> forall i | 0 <= i < |modules| :: !modules[i].Takes?
  {
    if modules == [] then None
    else
      var last := |modules| - 1;
      if modules[last].Takes? then Some(last) else LastTried(modules[..last])
  }

  function ErrorOf(answer: Answer): Option<Error> {
    match answer
    case Returns(r) => r.err
    case Panics(reason) => Some(ModulePanic(reason))
  }

  lemma {:induction false} LastErrorIs(modules: seq<Verdict>)
    ensures LastError(modules)
            == match LastTried(modules)
               case None => None
               case Some(k) => ErrorOf(modules[k].answer)
  {
    if modules != [] && !modules[|modules| - 1].Takes? { LastErrorIs(modules[..|modules| - 1]); }
  }

  /** Dispatch says "unknown message" exactly when no module decided and the last one that took the message, if any,
      left no error or that error, or when the deciding module handled the message with that error. */
  lemma UnknownExactly(modules: seq<Verdict>)
    ensures Conclude(Verdicts(modules)) == Rejected(ErrUnknownMessage)
            <==> var n, k := Ending(modules), LastTried(modules);
                 if n < |modules| then modules[n].Takes? && modules[n].answer.result.err == Some(ErrUnknownMessage)
                 else k == None || ErrorOf(modules[k.value].answer) in {None, Some(ErrUnknownMessage)}
  {
    LastErrorIs(modules);
  }

  /** It succeeds exactly when the deciding module handled the message without error. */
  lemma AnsweredExactly(modules: seq<Verdict>)
    ensures Conclude(Verdicts(modules)).Answered?
            <==> var n := Ending(modules);
                 n < |modules| && modules[n].Takes? && modules[n].answer.result.err == None
  {}
}
