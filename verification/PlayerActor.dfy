/**
 * The player actor under every interleaving: posters, the loop, and the lifecycle calls each move one atomic
 * operation at a time.
 */
module PlayerActor {
  import opened Prelude
  import Dispatch

  datatype PlayerState = Active | Offline | Destroyed

  /** `id` identifies the Post call; `wantsReply` says whether it carries a reply channel. */
  datatype Message = Message(id: nat, wantsReply: bool)

  datatype Reply = Reply(id: nat, result: Dispatch.Result)

  /** Where the player's loop is. */
  datatype Loop = Checking | Waiting | Handling(msg: Message) | Draining | Exited

  /** The `n`-th lifecycle change that took effect, counting from 0: going offline or coming back. */
  datatype Change = Change(n: nat, offline: bool)

  const INBOX_CAPACITY := 64

  /**
   * `admitted` are posts that passed the state check but have not reached the inbox; `accepted` and `finished` are
   * logs, oldest first; `won` lists the lifecycle changes that took effect. Of one module, whichever, `pending` lists
   * the changes whose hook has not been called on it yet, `ran` those whose hook has; the calls on other modules change
   * nothing here, so what is shown holds for each module.
   */
  datatype Actor = Actor(
    state: PlayerState, inbox: seq<Message>, loop: Loop, admitted: set<Message>, nextID: nat,
    accepted: seq<Message>, finished: seq<Message>, replies: seq<Reply>,
    won: seq<Change>, pending: seq<Change>, ran: seq<Change>)

  const START := Actor(Active, [], Checking, {}, 0, [], [], [], [], [], [])

  datatype Step =
    | PostCheck(wantsReply: bool)
    | PostEnqueue(msg: Message)
    | LoopCheck
    | LoopTake
    | LoopFinish(modules: seq<Dispatch.Verdict>)
    | DrainTake
    | DrainStop
    | GoOffline
    | GoResume
    | GoDestroy
    | RunHooks(i: nat)

  predicate Enabled(a: Actor, step: Step) {
    match step
    case PostEnqueue(m) => m in a.admitted
    case LoopCheck => a.loop == Checking
    case LoopTake => a.loop == Waiting && a.inbox != []
    case LoopFinish(_) => a.loop.Handling?
    case DrainTake => a.loop == Draining && a.inbox != []
    case DrainStop => a.loop == Draining && a.inbox == []
    case RunHooks(i) => i < |a.pending|
    case _ => true
  }

  /** A message is done with; its channel, if any, gets the result. */
  function Finish(a: Actor, m: Message, result: Dispatch.Result): Actor {
    a.(finished := a.finished + [m], replies := if m.wantsReply then a.replies + [Reply(m.id, result)] else a.replies)
  }

  /** A compare-and-swap of the state; only a success is followed by the module hooks. */
  function Swap(a: Actor, from: PlayerState, to: PlayerState): Actor {
    var change := Change(|a.won|, to == Offline);
    if a.state == from then a.(state := to, won := a.won + [change], pending := a.pending + [change]) else a
  }

  function Apply(a: Actor, step: Step): Actor
    requires Enabled(a, step)
  {
    match step
    case PostCheck(wantsReply) =>
      var m := Message(a.nextID, wantsReply);
      a.(nextID := a.nextID + 1, admitted := if a.state == Active then a.admitted + {m} else a.admitted)
    case PostEnqueue(m) =>
      var b := a.(admitted := a.admitted - {m});
      if |a.inbox| < INBOX_CAPACITY then b.(inbox := a.inbox + [m], accepted := a.accepted + [m]) else b
    case LoopCheck => a.(loop := if a.state == Destroyed then Draining else Waiting)
    case LoopTake => a.(loop := Handling(a.inbox[0]), inbox := a.inbox[1..])
    case LoopFinish(modules) => Finish(a.(loop := Checking), a.loop.msg, Dispatch.Verdicts(modules))
    case DrainTake =>
      Finish(a.(inbox := a.inbox[1..]), a.inbox[0], Dispatch.Result(None, false, Some(Dispatch.ErrPlayerDestroyed)))
    case DrainStop => a.(loop := Exited)
    case GoOffline => Swap(a, Active, Offline)
    case GoResume => Swap(a, Offline, Active)
    case GoDestroy => if a.state == Offline then a.(state := Destroyed) else a
    case RunHooks(i) => a.(pending := a.pending[..i] + a.pending[i + 1..], ran := a.ran + [a.pending[i]])
  }

  function At(run: seq<Step>, n: nat): Option<Actor>
    requires n <= |run|
  {
    if n == 0 then Some(START)
    else
      match At(run, n - 1)
      case None => None
      case Some(a) => if Enabled(a, run[n - 1]) then Some(Apply(a, run[n - 1])) else None
  }

  predicate IsRun(run: seq<Step>) {
    At(run, |run|).Some?
  }

  function After(run: seq<Step>, n: nat): Actor
    requires IsRun(run) && n <= |run|
  {
    RunPrefix(run, n, |run|);
    At(run, n).value
  }

  lemma {:induction false} RunPrefix(run: seq<Step>, m: nat, n: nat)
    requires m <= n <= |run| && At(run, n).Some?
    ensures At(run, m).Some?
  {
    if m < n { RunPrefix(run, m, n - 1); }
  }

  /** Taking one more step. */
  lemma {:induction false} Grow(run: seq<Step>, step: Step, n: nat)
    requires n <= |run|
    ensures At(run + [step], n) == At(run, n)
  {
    if n > 0 { Grow(run, step, n - 1); }
  }

  /** `run` ends in state `a`. */
  predicate Leads(run: seq<Step>, a: Actor) {
    At(run, |run|) == Some(a)
  }

  lemma Next(run: seq<Step>, a: Actor, step: Step) returns (run': seq<Step>, a': Actor)
    requires Leads(run, a) && Enabled(a, step)
    ensures a' == Apply(a, step) && Leads(run', a')
  {
    run', a' := run + [step], Apply(a, step);
    Grow(run, step, |run|);
  }

  lemma Unfold(run: seq<Step>, n: nat)
    requires IsRun(run) && n < |run|
    ensures Enabled(After(run, n), run[n]) && After(run, n + 1) == Apply(After(run, n), run[n])
  {
    RunPrefix(run, n + 1, |run|);
  }

  // ---------- conservation ----------

  function Current(loop: Loop): seq<Message> {
    if loop.Handling? then [loop.msg] else []
  }

  /** The posts that want a reply, by ID. */
  function Wanted(msgs: seq<Message>): seq<nat> {
    if msgs == [] then []
    else Wanted(msgs[..|msgs| - 1]) + if msgs[|msgs| - 1].wantsReply then [msgs[|msgs| - 1].id] else []
  }

  function Addressed(replies: seq<Reply>): seq<nat> {
    seq(|replies|, i requires 0 <= i < |replies| => replies[i].id)
  }

  ghost predicate Distinct(msgs: seq<Message>) {
    forall i, j | 0 <= i < j < |msgs| :: msgs[i].id != msgs[j].id
  }

  /** Each accepted message is finished, being handled or queued, in order of acceptance. */
  ghost predicate InOrder(a: Actor) {
    a.accepted == a.finished + Current(a.loop) + a.inbox && |a.inbox| <= INBOX_CAPACITY
  }

  /** Replies go out one per finished message that wants one, in the same order. */
  ghost predicate Answered(a: Actor) {
    Addressed(a.replies) == Wanted(a.finished)
  }

  ghost predicate Unseen(a: Actor, m: Message) {
    m.id < a.nextID && forall i | 0 <= i < |a.accepted| :: a.accepted[i].id != m.id
  }

  /** No two calls share an ID. */
  ghost predicate Identified(a: Actor) {
    && Distinct(a.accepted)
    && (forall i | 0 <= i < |a.accepted| :: a.accepted[i].id < a.nextID)
    && (forall m | m in a.admitted :: Unseen(a, m))
    && (forall m, m' | m in a.admitted && m' in a.admitted && m.id == m'.id :: m == m')
  }

  ghost predicate Conserved(a: Actor) {
    InOrder(a) && Answered(a) && Identified(a)
  }

  lemma StepInOrder(a: Actor, step: Step)
    requires InOrder(a) && Enabled(a, step)
    ensures InOrder(Apply(a, step))
  {
    if step.LoopTake? || step.DrainTake? { assert a.inbox == [a.inbox[0]] + a.inbox[1..]; }
  }

  lemma FinishAnswered(a: Actor, m: Message, result: Dispatch.Result)
    requires Answered(a)
    ensures Answered(Finish(a, m, result))
  {
    assert (a.finished + [m])[..|a.finished|] == a.finished;
  }

  lemma StepAnswered(a: Actor, step: Step)
    requires Answered(a) && Enabled(a, step)
    ensures Answered(Apply(a, step))
  {
    match step
    case LoopFinish(modules) => FinishAnswered(a.(loop := Checking), a.loop.msg, Dispatch.Verdicts(modules));
    case DrainTake =>
      var result := Dispatch.Result(None, false, Some(Dispatch.ErrPlayerDestroyed));
      FinishAnswered(a.(inbox := a.inbox[1..]), a.inbox[0], result);
    case _ => assert Apply(a, step).replies == a.replies && Apply(a, step).finished == a.finished;
  }

  lemma CheckIdentified(a: Actor, wantsReply: bool)
    requires Identified(a)
    ensures Identified(Apply(a, PostCheck(wantsReply)))
  {
    var b := Apply(a, PostCheck(wantsReply));
    forall m | m in b.admitted ensures Unseen(b, m) { assert m in a.admitted ==> Unseen(a, m); }
    forall m, m' | m in b.admitted && m' in b.admitted && m.id == m'.id ensures m == m' {
      assert m in a.admitted ==> Unseen(a, m);
      assert m' in a.admitted ==> Unseen(a, m');
    }
  }

  lemma EnqueueIdentified(a: Actor, m0: Message)
    requires Identified(a) && m0 in a.admitted
    ensures Identified(Apply(a, PostEnqueue(m0)))
  {
    var b := Apply(a, PostEnqueue(m0));
    assert Unseen(a, m0);
    forall m | m in b.admitted ensures Unseen(b, m) { assert Unseen(a, m); }
  }

  lemma StepIdentified(a: Actor, step: Step)
    requires Identified(a) && Enabled(a, step)
    ensures Identified(Apply(a, step))
  {
    match step
    case PostCheck(wantsReply) => CheckIdentified(a, wantsReply);
    case PostEnqueue(m) => EnqueueIdentified(a, m);
    case _ =>
      var b := Apply(a, step);
      assert b.accepted == a.accepted && b.admitted == a.admitted && b.nextID == a.nextID;
      forall m | m in b.admitted ensures Unseen(b, m) { assert Unseen(a, m); }
  }

  lemma StepConserved(a: Actor, step: Step)
    requires Conserved(a) && Enabled(a, step)
    ensures Conserved(Apply(a, step))
  {
    StepInOrder(a, step);
    StepAnswered(a, step);
    StepIdentified(a, step);
  }

  /** Nothing is lost, duplicated or reordered, at any moment of any interleaving. */
  lemma {:induction false} AlwaysConserved(run: seq<Step>, n: nat)
    requires IsRun(run) && n <= |run|
    ensures Conserved(After(run, n))
  {
    if n > 0 {
      AlwaysConserved(run, n - 1);
      Unfold(run, n - 1);
      var a := After(run, n - 1);
      StepConserved(a, run[n - 1]);
    }
  }

  // ---------- replies ----------

  lemma {:induction false} WantedMembers(msgs: seq<Message>, id: nat)
    ensures id in Wanted(msgs) <==> exists i :: 0 <= i < |msgs| && msgs[i].wantsReply && msgs[i].id == id
  {
    if msgs != [] {
      var rest := msgs[..|msgs| - 1];
      WantedMembers(rest, id);
      if id in Wanted(rest) {
        var i :| 0 <= i < |rest| && rest[i].wantsReply && rest[i].id == id;
        assert msgs[i].id == id;
      }
    }
  }

  lemma {:induction false} WantedDistinct(msgs: seq<Message>)
    requires Distinct(msgs)
    ensures forall i, j | 0 <= i < j < |Wanted(msgs)| :: Wanted(msgs)[i] != Wanted(msgs)[j]
  {
    if msgs != [] {
      var rest, last := msgs[..|msgs| - 1], msgs[|msgs| - 1];
      WantedDistinct(rest);
      WantedMembers(rest, last.id);
    }
  }

  /** How many replies the call `id` got. */
  function RepliesTo(replies: seq<Reply>, id: nat): nat {
    if replies == [] then 0
    else RepliesTo(replies[..|replies| - 1], id) + if replies[|replies| - 1].id == id then 1 else 0
  }

  lemma {:induction false} CountDistinct(replies: seq<Reply>, id: nat)
    requires forall i, j | 0 <= i < j < |replies| :: replies[i].id != replies[j].id
    ensures RepliesTo(replies, id) == if exists i :: 0 <= i < |replies| && replies[i].id == id then 1 else 0
  {
    if replies != [] {
      var rest := replies[..|replies| - 1];
      CountDistinct(rest, id);
      if exists i :: 0 <= i < |rest| && rest[i].id == id {
        var i :| 0 <= i < |rest| && rest[i].id == id;
        assert replies[i].id == id;
      }
    }
  }

  /** A finished call with a reply channel got exactly one reply, any other call none. */
  lemma ExactlyOneReply(run: seq<Step>, n: nat, id: nat)
    requires IsRun(run) && n <= |run|
    ensures var a := After(run, n);
            RepliesTo(a.replies, id)
            == if exists i :: 0 <= i < |a.finished| && a.finished[i].wantsReply && a.finished[i].id == id then 1 else 0
  {
    var a := After(run, n);
    AlwaysConserved(run, n);
    assert Distinct(a.finished) by {
      forall i, j | 0 <= i < j < |a.finished| ensures a.finished[i].id != a.finished[j].id {
        assert a.accepted[i] == a.finished[i] && a.accepted[j] == a.finished[j];
      }
    }
    WantedMembers(a.finished, id);
    WantedDistinct(a.finished);
    forall i, j | 0 <= i < j < |a.replies| ensures a.replies[i].id != a.replies[j].id {
      assert Addressed(a.replies)[i] == a.replies[i].id && Addressed(a.replies)[j] == a.replies[j].id;
    }
    CountDistinct(a.replies, id);
    if id in Addressed(a.replies) {
      var k :| 0 <= k < |Addressed(a.replies)| && Addressed(a.replies)[k] == id;
      assert a.replies[k].id == id;
    } else {
      forall k | 0 <= k < |a.replies| ensures a.replies[k].id != id { assert Addressed(a.replies)[k] != id; }
    }
  }

  /** The message whose result a step sends, None if the step sends none. */
  function Sends(a: Actor, step: Step): Option<Message>
    requires Enabled(a, step)
  {
    match step
    case LoopFinish(_) => if a.loop.msg.wantsReply then Some(a.loop.msg) else None
    case DrainTake => if a.inbox[0].wantsReply then Some(a.inbox[0]) else None
    case _ => None
  }

  /** Sending a result never blocks: the channel of capacity one is still unused. */
  lemma ReplyNeverBlocks(run: seq<Step>, n: nat)
    requires IsRun(run) && n < |run|
    ensures Enabled(After(run, n), run[n])
    ensures Sends(After(run, n), run[n]).Some? ==>
              RepliesTo(After(run, n).replies, Sends(After(run, n), run[n]).value.id) == 0
  {
    Unfold(run, n);
    var a := After(run, n);
    AlwaysConserved(run, n);
    if Sends(a, run[n]).Some? {
      var m := Sends(a, run[n]).value;
      ExactlyOneReply(run, n, m.id);
      assert a.accepted[|a.finished|] == m;
      forall i | 0 <= i < |a.finished| ensures a.finished[i].id != m.id { assert a.accepted[i] == a.finished[i]; }
    }
  }

  /** The step ends the call the reply is for, and the reply says how: with what its modules made of it, or with the
      player's destruction. */
  ghost predicate Explains(a: Actor, step: Step, reply: Reply) {
    match step
    case LoopFinish(modules) =>
      a.loop == Handling(Message(reply.id, true)) && reply.result == Dispatch.Verdicts(modules)
    case DrainTake =>
      && a.loop == Draining && a.inbox != [] && a.inbox[0] == Message(reply.id, true)
      && reply.result == Dispatch.Result(None, false, Some(Dispatch.ErrPlayerDestroyed))
    case _ => false
  }

  ghost predicate ExplainsAt(run: seq<Step>, m: nat, reply: Reply)
    requires IsRun(run) && m < |run|
  {
    Explains(After(run, m), run[m], reply)
  }

  lemma StepReplies(a: Actor, step: Step, k: nat)
    requires Enabled(a, step) && k < |Apply(a, step).replies|
    ensures k < |a.replies| ==> Apply(a, step).replies[k] == a.replies[k]
    ensures k >= |a.replies| ==> Explains(a, step, Apply(a, step).replies[k])
  {}

  /** Every reply is of a call that was being handled or drained when it was sent, and is the verdict of the modules on
      it, or says that the player is destroyed. */
  lemma {:induction false} RepliesExplained(run: seq<Step>, n: nat, k: nat)
    requires IsRun(run) && n <= |run| && k < |After(run, n).replies|
    ensures exists m :: 0 <= m < n && ExplainsAt(run, m, After(run, n).replies[k])
  {
    Unfold(run, n - 1);
    StepReplies(After(run, n - 1), run[n - 1], k);
    if k < |After(run, n - 1).replies| {
      RepliesExplained(run, n - 1, k);
    } else {
      assert ExplainsAt(run, n - 1, After(run, n).replies[k]);
    }
  }

  /** A post made in one go is accepted exactly if the player is active and has fewer than 64 messages waiting. */
  lemma PostAcceptedExactly(a: Actor, wantsReply: bool)
    requires Identified(a)
    ensures var m, b := Message(a.nextID, wantsReply), Apply(a, PostCheck(wantsReply));
            && (m in b.admitted <==> a.state == Active)
            && (m in b.admitted ==>
                  var c := Apply(b, PostEnqueue(m));
                  && c.accepted == (if |a.inbox| < 64 then a.accepted + [m] else a.accepted)
                  && c.inbox == (if |a.inbox| < 64 then a.inbox + [m] else a.inbox)
                  && c.admitted == a.admitted)
  {
    forall m | m in a.admitted ensures m.id < a.nextID { assert Unseen(a, m); }
  }

  /** Messages finish in the order they were accepted: the finished ones are the oldest accepted ones. */
  lemma FinishedInOrder(run: seq<Step>, n: nat)
    requires IsRun(run) && n <= |run|
    ensures After(run, n).finished <= After(run, n).accepted
  {
    AlwaysConserved(run, n);
  }

  // ---------- after the loop has exited ----------

  /** Logs only grow, and an exited loop does nothing more. */
  lemma {:induction false} Grows(run: seq<Step>, m: nat, n: nat)
    requires IsRun(run) && m <= n <= |run|
    ensures After(run, m).accepted <= After(run, n).accepted
    ensures After(run, m).loop == Exited ==>
              After(run, n).loop == Exited && After(run, n).finished == After(run, m).finished
    ensures After(run, m).state == Destroyed ==> After(run, n).state == Destroyed
  {
    if m < n {
      Grows(run, m, n - 1);
      Unfold(run, n - 1);
    }
  }

  /** The loop exits with everything accepted so far finished. */
  lemma {:induction false} ExitFindsNothing(run: seq<Step>, m: nat, n: nat)
    requires IsRun(run) && m <= n <= |run|
    requires After(run, m).loop != Exited && After(run, n).loop == Exited
    ensures After(run, m).accepted <= After(run, n).finished
  {
    Unfold(run, n - 1);
    Grows(run, m, n - 1);
    if After(run, n - 1).loop == Exited {
      ExitFindsNothing(run, m, n - 1);
    } else {
      AlwaysConserved(run, n - 1);
      StepToExit(After(run, n - 1), run[n - 1]);
    }
  }

  lemma StepToExit(a: Actor, step: Step)
    requires InOrder(a) && Enabled(a, step) && a.loop != Exited && Apply(a, step).loop == Exited
    ensures a.accepted == Apply(a, step).finished
  {}

  /** Once the loop has exited, a message still unanswered was enqueued after the loop's last look at the inbox. */
  lemma UnansweredCameLate(run: seq<Step>, m: nat, n: nat, i: nat)
    requires IsRun(run) && m <= n <= |run| && After(run, n).loop == Exited
    requires |After(run, n).finished| <= i < |After(run, m).accepted|
    ensures After(run, m).loop == Exited
  {
    if After(run, m).loop != Exited { ExitFindsNothing(run, m, n); }
  }

  /** The fate of every message that ever enters the inbox of a player whose loop exits: entering at step `m`, it stays
      unanswered if the loop had exited by then; otherwise it is finished and has its reply, if it wants one. */
  lemma AnsweredExactly(run: seq<Step>, m: nat, n: nat, i: nat)
    requires IsRun(run) && m < n <= |run| && After(run, n).loop == Exited
    requires |After(run, m).accepted| <= i < |After(run, m + 1).accepted|
    ensures After(run, m + 1).accepted <= After(run, n).accepted
    ensures i >= |After(run, n).finished| <==> After(run, m).loop == Exited
    ensures var msg := After(run, n).accepted[i];
            RepliesTo(After(run, n).replies, msg.id) == if msg.wantsReply && After(run, m).loop != Exited then 1 else 0
  {
    FinishedExactly(run, m, n, i);
    AlwaysConserved(run, n);
    var b := After(run, n);
    ExactlyOneReply(run, n, b.accepted[i].id);
    OnlyPlace(b, i);
  }

  lemma FinishedExactly(run: seq<Step>, m: nat, n: nat, i: nat)
    requires IsRun(run) && m < n <= |run| && After(run, n).loop == Exited
    requires |After(run, m).accepted| <= i < |After(run, m + 1).accepted|
    ensures After(run, m + 1).accepted <= After(run, n).accepted && After(run, n).finished <= After(run, n).accepted
    ensures i >= |After(run, n).finished| <==> After(run, m).loop == Exited
  {
    Grows(run, m, n);
    Grows(run, m + 1, n);
    FinishedInOrder(run, m);
    FinishedInOrder(run, n);
    if After(run, m).loop != Exited {
      Unfold(run, m);
      ExitFindsNothing(run, m + 1, n);
    }
  }

  /** The finished message with the ID of the `i`-th accepted one can only be that one. */
  lemma OnlyPlace(b: Actor, i: nat)
    requires Conserved(b) && b.finished <= b.accepted && i < |b.accepted|
    ensures forall k | 0 <= k < |b.finished| && b.finished[k].id == b.accepted[i].id :: k == i
    ensures i < |b.finished| ==> b.finished[i] == b.accepted[i]
  {
    forall k | 0 <= k < |b.finished| && b.finished[k].id == b.accepted[i].id ensures k == i {
      assert b.accepted[k] == b.finished[k];
    }
  }

  /** Such a message exists: a post that passed its state check in time and reached the inbox too late. */
  lemma LatePostIsLost()
    ensures exists run: seq<Step> :: && IsRun(run) && After(run, |run|).loop == Exited
                          && Message(1, true) in After(run, |run|).accepted
                          && RepliesTo(After(run, |run|).replies, 1) == 0
  {
    var early, late := Message(0, true), Message(1, true);
    var run, a := [], START;
    run, a := Next(run, a, PostCheck(true));
    run, a := Next(run, a, PostCheck(true));
    run, a := Next(run, a, LoopCheck);
    run, a := Next(run, a, PostEnqueue(early));
    run, a := Next(run, a, LoopTake);
    run, a := Next(run, a, GoOffline);
    run, a := Next(run, a, GoDestroy);
    run, a := Next(run, a, LoopFinish([]));
    run, a := Next(run, a, LoopCheck);
    run, a := Next(run, a, DrainStop);
    run, a := Next(run, a, PostEnqueue(late));
    assert a.loop == Exited && late in a.accepted && RepliesTo(a.replies, 1) == 0;
    assert After(run, |run|) == a;
  }

  /** A player destroyed while its loop waits on an empty inbox, with no post on its way, waits for ever. */
  lemma {:induction false} IdleDestroyedNeverExits(run: seq<Step>, m: nat, n: nat)
    requires IsRun(run) && m <= n <= |run|
    requires After(run, m).state == Destroyed && Stuck(After(run, m))
    ensures After(run, n).state == Destroyed && Stuck(After(run, n))
  {
    if m < n {
      IdleDestroyedNeverExits(run, m, n - 1);
      Unfold(run, n - 1);
    }
  }

  /** Such a player exists. */
  lemma IdleDestroyedReachable()
    ensures exists run: seq<Step> :: IsRun(run) && After(run, |run|).state == Destroyed && Stuck(After(run, |run|))
  {
    var run, a := [], START;
    run, a := Next(run, a, LoopCheck);
    run, a := Next(run, a, GoOffline);
    run, a := Next(run, a, GoDestroy);
    assert After(run, |run|) == a;
  }

  /** The loop waits on an empty inbox, and no post is on its way. */
  predicate Stuck(a: Actor) {
    a.loop == Waiting && a.inbox == [] && a.admitted == {}
  }

  /** Where the steps `more` lead from `a`, None if one of them is not enabled. */
  function From(a: Actor, more: seq<Step>): Option<Actor>
    decreases |more|
  {
    if more == [] then Some(a)
    else if Enabled(a, more[0]) then From(Apply(a, more[0]), more[1..])
    else None
  }

  lemma {:induction false} FromExtend(a: Actor, more: seq<Step>, b: Actor, step: Step)
    requires From(a, more) == Some(b) && Enabled(b, step)
    ensures From(a, more + [step]) == Some(Apply(b, step))
    decreases |more|
  {
    if more == [] {
      assert [step][1..] == [] && From(Apply(b, step), []) == Some(Apply(b, step));
      assert more + [step] == [step];
    } else {
      FromExtend(Apply(a, more[0]), more[1..], b, step);
      assert (more + [step])[1..] == more[1..] + [step];
    }
  }

  ghost predicate CanExit(a: Actor) {
    exists more :: From(a, more).Some? && From(a, more).value.loop == Exited
  }

  lemma {:induction false} StuckStays(a: Actor, more: seq<Step>)
    requires a.state == Destroyed && Stuck(a) && From(a, more).Some?
    ensures Stuck(From(a, more).value)
    decreases |more|
  {
    if more != [] { StuckStays(Apply(a, more[0]), more[1..]); }
  }

  /** How far the loop is from its exit. */
  function Distance(a: Actor): nat {
    match a.loop
    case Exited => 0
    case Draining => 1
    case Checking => 2
    case Handling(_) => 3
    case Waiting => if a.inbox != [] then 4 else 5
  }

  /** The step that brings a destroyed player's loop nearer to its exit. */
  function Towards(a: Actor, msg: Message): Step {
    match a.loop
    case Draining => if a.inbox != [] then DrainTake else DrainStop
    case Checking => LoopCheck
    case Handling(_) => LoopFinish([])
    case _ => if a.inbox != [] then LoopTake else PostEnqueue(msg)
  }

  lemma {:induction false} FindExit(a: Actor)
    requires a.state == Destroyed && !Stuck(a)
    ensures CanExit(a)
    decreases Distance(a), |a.inbox|
  {
    if a.loop == Exited {
      assert From(a, []) == Some(a);
    } else {
      var step := LoopCheck;
      if a.loop == Waiting && a.inbox == [] {
        var msg :| msg in a.admitted;
        step := Towards(a, msg);
      } else {
        step := Towards(a, Message(0, false));
      }
      FindExit(Apply(a, step));
      var more :| From(Apply(a, step), more).Some? && From(Apply(a, step), more).value.loop == Exited;
      assert ([step] + more)[1..] == more;
      assert From(a, [step] + more) == From(Apply(a, step), more);
    }
  }

  /** A destroyed player's loop can still exit exactly when it is not stuck; the comment that it always does is
      wrong. */
  lemma ExitsExactly(a: Actor)
    requires a.state == Destroyed
    ensures CanExit(a) <==> !Stuck(a)
  {
    if Stuck(a) {
      forall more | From(a, more).Some? ensures From(a, more).value.loop != Exited { StuckStays(a, more); }
    } else {
      FindExit(a);
    }
  }

  /** A step of the loop, or a post that reaches the inbox. */
  predicate Progress(step: Step) {
    step.PostEnqueue? || step.LoopCheck? || step.LoopTake? || step.LoopFinish? || step.DrainTake? || step.DrainStop?
  }

  /** A bound on the progress a destroyed player can still make. */
  function Effort(a: Actor): nat {
    2 * |a.admitted| + |a.inbox|
    + match a.loop
      case Exited => 0
      case Draining => 1
      case Checking => 2
      case Handling(_) => 3
      case Waiting => 4
  }

  /** Every such step uses some of it up, no other step adds any, and no step gets the loop stuck. */
  lemma StepEffort(a: Actor, step: Step)
    requires a.state == Destroyed && !Stuck(a) && Enabled(a, step)
    ensures var b := Apply(a, step);
            && b.state == Destroyed && !Stuck(b)
            && if Progress(step) then Effort(b) < Effort(a) else Effort(b) == Effort(a)
  {
    if step.PostEnqueue? { assert a.admitted == (a.admitted - {step.msg}) + {step.msg}; }
  }

  /** Until the exit, progress can be made. */
  lemma CanProgress(a: Actor) returns (step: Step)
    requires a.state == Destroyed && !Stuck(a) && a.loop != Exited
    ensures Enabled(a, step) && Progress(step)
  {
    if a.loop == Waiting && a.inbox == [] {
      var msg :| msg in a.admitted;
      step := PostEnqueue(msg);
    } else {
      step := Towards(a, Message(0, false));
    }
  }

  function ProgressIn(more: seq<Step>): nat {
    if more == [] then 0 else (if Progress(more[0]) then 1 else 0) + ProgressIn(more[1..])
  }

  lemma {:induction false} EffortUsed(a: Actor, more: seq<Step>)
    requires a.state == Destroyed && !Stuck(a) && From(a, more).Some?
    ensures From(a, more).value.state == Destroyed && !Stuck(From(a, more).value)
    ensures Effort(From(a, more).value) + ProgressIn(more) <= Effort(a)
    decreases |more|
  {
    if more != [] {
      StepEffort(a, more[0]);
      EffortUsed(Apply(a, more[0]), more[1..]);
    }
  }

  /** Unless it is stuck, a destroyed player's loop does exit: after so much progress, whatever else happens in
      between, and until then some progress can be made. */
  lemma ExitsInTime(a: Actor, more: seq<Step>)
    requires a.state == Destroyed && !Stuck(a) && From(a, more).Some?
    ensures ProgressIn(more) <= Effort(a)
    ensures ProgressIn(more) == Effort(a) ==> From(a, more).value.loop == Exited
    ensures From(a, more).value.loop != Exited ==> exists step :: Enabled(From(a, more).value, step) && Progress(step)
  {
    EffortUsed(a, more);
    var b := From(a, more).value;
    if b.loop != Exited { var step := CanProgress(b); }
  }

  // ---------- every accepted message is finished ----------

  predicate LoopStep(step: Step) {
    step.LoopCheck? || step.LoopTake? || step.LoopFinish? || step.DrainTake? || step.DrainStop?
  }

  function LoopStepsIn(more: seq<Step>): nat {
    if more == [] then 0 else (if LoopStep(more[0]) then 1 else 0) + LoopStepsIn(more[1..])
  }

  /** A bound on the loop's steps until the `k`-th accepted message is finished. */
  function Left(a: Actor, k: nat): nat {
    if k < |a.finished| then 0
    else
      var ahead := 3 * (k - |a.finished|);
      match a.loop
      case Checking => ahead + 3
      case Waiting => ahead + 2
      case _ => ahead + 1
  }

  lemma StepLeft(a: Actor, step: Step, k: nat)
    requires InOrder(a) && Enabled(a, step) && k < |a.accepted| && (k < |a.finished| || a.loop != Exited)
    ensures var b := Apply(a, step);
            && InOrder(b) && a.accepted <= b.accepted && (k < |b.finished| || b.loop != Exited)
            && Left(b, k) <= Left(a, k)
            && (LoopStep(step) && k >= |a.finished| ==> Left(b, k) < Left(a, k))
  {
    StepInOrder(a, step);
  }

  lemma {:induction false} LeftUsed(a: Actor, more: seq<Step>, k: nat)
    requires InOrder(a) && k < |a.accepted| && (k < |a.finished| || a.loop != Exited) && From(a, more).Some?
    ensures var b := From(a, more).value;
            && InOrder(b) && a.accepted <= b.accepted && (k < |b.finished| || b.loop != Exited)
            && (k < |b.finished| || Left(b, k) + LoopStepsIn(more) <= Left(a, k))
    decreases |more|
  {
    if more != [] {
      StepLeft(a, more[0], k);
      LeftUsed(Apply(a, more[0]), more[1..], k);
      if k < |a.finished| { StaysFinished(a, more, k); }
    }
  }

  lemma {:induction false} StaysFinished(a: Actor, more: seq<Step>, k: nat)
    requires From(a, more).Some? && k < |a.finished|
    ensures k < |From(a, more).value.finished|
    decreases |more|
  {
    if more != [] { StaysFinished(Apply(a, more[0]), more[1..], k); }
  }

  /** While its loop has not exited, a player finishes each accepted message after so many steps of the loop, whatever
      happens in between, and until then the loop can step. */
  lemma FinishedInTime(a: Actor, more: seq<Step>, k: nat)
    requires InOrder(a) && a.loop != Exited && k < |a.accepted| && From(a, more).Some?
    ensures var b := From(a, more).value;
            && (LoopStepsIn(more) >= Left(a, k) ==> k < |b.finished| && b.finished[k] == a.accepted[k])
            && (k < |b.finished| || exists step :: Enabled(b, step) && LoopStep(step))
  {
    LeftUsed(a, more, k);
    var b := From(a, more).value;
    if k >= |b.finished| {
      var step := match b.loop
        case Checking => LoopCheck
        case Waiting => LoopTake
        case Handling(_) => LoopFinish([])
        case _ => DrainTake;
      assert Enabled(b, step) && LoopStep(step);
    }
  }

  // ---------- lifecycle hooks ----------

  /** Offline, resume, offline, ... */
  function Alternation(n: nat): seq<Change> {
    seq(n, i requires 0 <= i < n => Change(i, i % 2 == 0))
  }

  /** The lifecycle changes that take effect alternate, starting with going offline. */
  lemma {:induction false} ChangesAlternate(run: seq<Step>, n: nat)
    requires IsRun(run) && n <= |run|
    ensures var a := After(run, n);
            && a.won == Alternation(|a.won|)
            && (a.state == Active ==> |a.won| % 2 == 0) && (a.state == Offline ==> |a.won| % 2 == 1)
  {
    if n > 0 {
      ChangesAlternate(run, n - 1);
      Unfold(run, n - 1);
    }
  }

  /** Whenever module hooks run, they are those of the oldest change still waiting. */
  ghost predicate OldestFirst(run: seq<Step>, n: nat)
    requires n <= |run|
  {
    forall m | 0 <= m < n && run[m].RunHooks? :: run[m].i == 0
  }

  lemma {:induction false} HookLedger(run: seq<Step>, n: nat)
    requires IsRun(run) && n <= |run| && OldestFirst(run, n)
    ensures After(run, n).ran + After(run, n).pending == After(run, n).won
  {
    if n > 0 {
      HookLedger(run, n - 1);
      Unfold(run, n - 1);
      StepLedger(After(run, n - 1), run[n - 1]);
    }
  }

  lemma StepLedger(a: Actor, step: Step)
    requires Enabled(a, step) && a.ran + a.pending == a.won && (step.RunHooks? ==> step.i == 0)
    ensures Apply(a, step).ran + Apply(a, step).pending == Apply(a, step).won
  {
    if step.RunHooks? { assert a.pending == [a.pending[0]] + a.pending[1..]; }
  }

  /** The hooks run in the order of their changes, each once, exactly when none overtake those of an earlier change. */
  lemma {:induction false} HooksInOrder(run: seq<Step>, n: nat)
    requires IsRun(run) && n <= |run|
    ensures After(run, n).ran == Alternation(|After(run, n).ran|) <==> OldestFirst(run, n)
  {
    if n > 0 {
      HooksInOrder(run, n - 1);
      Unfold(run, n - 1);
      if OldestFirst(run, n - 1) {
        HookLedger(run, n - 1);
        ChangesAlternate(run, n - 1);
      }
      StepHooks(After(run, n - 1), run[n - 1], OldestFirst(run, n - 1));
    }
  }

  /** `so` says whether the hooks have run oldest first so far. */
  lemma StepHooks(a: Actor, step: Step, so: bool)
    requires Enabled(a, step) && (a.ran == Alternation(|a.ran|) <==> so)
    requires so ==> a.ran + a.pending == a.won && a.won == Alternation(|a.won|)
    ensures var b := Apply(a, step);
            b.ran == Alternation(|b.ran|) <==> so && (step.RunHooks? ==> step.i == 0)
  {
    var b := Apply(a, step);
    if step.RunHooks? {
      assert a.ran <= b.ran;
      if b.ran == Alternation(|b.ran|) { PrefixAlternates(a.ran, b.ran); }
      if so {
        assert a.won[|a.ran| + step.i] == a.pending[step.i] && b.ran[|a.ran|] == a.pending[step.i];
        assert b.ran[|a.ran|].n == |a.ran| + step.i;
        if step.i == 0 { PrefixAlternates(b.ran, a.won); }
      }
    } else {
      assert b.ran == a.ran;
    }
  }

  /** The modules see OnOffline and OnResume in turn, OnOffline first. They do not see which change a call is for. */
  ghost predicate SeenInTurn(a: Actor) {
    forall k | 0 <= k < |a.ran| :: a.ran[k].offline == (k % 2 == 0)
  }

  /** The hooks a step runs are of the kind that is due. */
  ghost predicate Due(a: Actor, step: Step) {
    step.RunHooks? && Enabled(a, step) ==> a.pending[step.i].offline == (|a.ran| % 2 == 0)
  }

  lemma StepSeen(a: Actor, step: Step)
    requires Enabled(a, step)
    ensures SeenInTurn(Apply(a, step)) <==> SeenInTurn(a) && Due(a, step)
  {
    var b := Apply(a, step);
    forall k | 0 <= k < |a.ran| ensures b.ran[k] == a.ran[k] {}
    if step.RunHooks? { assert b.ran[|a.ran|] == a.pending[step.i]; }
  }

  ghost predicate DueAt(run: seq<Step>, m: nat)
    requires IsRun(run) && m < |run|
  {
    Due(After(run, m), run[m])
  }

  /** What the modules see alternates exactly when every round of hooks was of the kind due. */
  lemma {:induction false} SeenInTurnExactly(run: seq<Step>, n: nat)
    requires IsRun(run) && n <= |run|
    ensures SeenInTurn(After(run, n)) <==> forall m | 0 <= m < n :: DueAt(run, m)
  {
    if n > 0 {
      SeenInTurnExactly(run, n - 1);
      Unfold(run, n - 1);
      StepSeen(After(run, n - 1), run[n - 1]);
      assert DueAt(run, n - 1) <==> Due(After(run, n - 1), run[n - 1]);
    }
  }

  /** Running the hooks of the oldest change first is enough for that. */
  lemma OldestFirstSeenInTurn(run: seq<Step>, n: nat)
    requires IsRun(run) && n <= |run| && OldestFirst(run, n)
    ensures SeenInTurn(After(run, n))
  {
    HooksInOrder(run, n);
    var ran := After(run, n).ran;
    forall k | 0 <= k < |ran| ensures ran[k].offline == (k % 2 == 0) { assert ran[k] == Alternation(|ran|)[k]; }
  }

  /** It is not necessary: hooks can overtake unseen. */
  lemma OvertakingUnseen()
    ensures exists run: seq<Step> :: IsRun(run) && !OldestFirst(run, |run|) && SeenInTurn(After(run, |run|))
  {
    var run, a := [], START;
    run, a := Next(run, a, GoOffline);
    run, a := Next(run, a, GoResume);
    run, a := Next(run, a, GoOffline);
    run, a := Next(run, a, RunHooks(2));
    assert After(run, |run|) == a && a.ran[0].n == 2;
    HooksInOrder(run, |run|);
  }

  lemma PrefixAlternates(s: seq<Change>, t: seq<Change>)
    requires s <= t && t == Alternation(|t|)
    ensures s == Alternation(|s|)
  {
    forall i | 0 <= i < |s| ensures s[i] == Alternation(|s|)[i] { assert t[i] == s[i]; }
  }

  /** Overtaking is reachable: a slow OnOffline runs its hooks after the OnResume that followed it. */
  lemma HooksCanCross()
    ensures exists run: seq<Step> :: IsRun(run) && After(run, |run|).ran == [Change(1, false), Change(0, true)]
  {
    var run, a := [], START;
    run, a := Next(run, a, GoOffline);
    run, a := Next(run, a, GoResume);
    run, a := Next(run, a, RunHooks(1));
    run, a := Next(run, a, RunHooks(0));
    assert After(run, |run|) == a;
  }
}
