/** A player as an object. Each method is one atomic operation of the interleaved machine, or a run of them. */
module Player {
  import opened Prelude
  import opened Protocol
  import opened PlayerStore
  import Dispatch
  import A = PlayerActor
  import R = Roster

  /** The loop's last words, with nobody interfering: everything still queued fails. */
  function Drained(a: A.Actor): (b: A.Actor)
    requires a.loop == A.Draining
    ensures b.inbox == [] && b.loop == A.Exited
    decreases |a.inbox|
  {
    if a.inbox == [] then A.Apply(a, A.DrainStop) else Drained(A.Apply(a, A.DrainTake))
  }

  /** It fails them all, oldest first. */
  lemma {:induction false} DrainedFinishesAll(a: A.Actor)
    requires a.loop == A.Draining && A.InOrder(a)
    ensures Drained(a).finished == a.finished + a.inbox == Drained(a).accepted == a.accepted
    decreases |a.inbox|
  {
    if a.inbox != [] {
      assert a.inbox == [a.inbox[0]] + a.inbox[1..];
      DrainedFinishesAll(A.Apply(a, A.DrainTake));
    }
  }

  /** A lifecycle change that takes effect and runs its hooks at once leaves none waiting. */
  lemma WholeChange(a: A.Actor, step: A.Step)
    requires (step.GoOffline? && a.state == A.Active) || (step.GoResume? && a.state == A.Offline)
    ensures var b, change := A.Apply(a, step), A.Change(|a.won|, step.GoOffline?);
            && |a.pending| < |b.pending| && b.pending[|a.pending|] == change && b.ran == a.ran && b.inbox == a.inbox
            && b.replies == a.replies && b.nextID == a.nextID
            && b.state == (if step.GoOffline? then A.Offline else A.Active)
            && A.Apply(b, A.RunHooks(|a.pending|))
            == a.(state := b.state, won := a.won + [change], ran := a.ran + [change])
  {}

  /** What a post does while the loop drains. */
  datatype Arrival = Checks(wantsReply: bool) | Enters(msg: A.Message)

  /** The machine got from `a` to `b` by these steps of the draining loop and of posts. */
  ghost predicate DrainRun(a: A.Actor, run: seq<A.Step>, b: A.Actor) {
    && A.From(a, run) == Some(b)
    && forall k | 0 <= k < |run| :: run[k].PostCheck? || run[k].PostEnqueue? || run[k].DrainTake? || run[k].DrainStop?
  }

  lemma ExtendDrain(a: A.Actor, run: seq<A.Step>, b: A.Actor, step: A.Step)
    requires DrainRun(a, run, b) && A.Enabled(b, step)
    requires step.PostCheck? || step.PostEnqueue? || step.DrainTake? || step.DrainStop?
    ensures DrainRun(a, run + [step], A.Apply(b, step))
  {
    A.FromExtend(a, run, b, step);
  }

  /** With posts arriving meanwhile, the loop still exits with everything accepted so far finished, in order. */
  lemma {:induction false} DrainRunFinishesAll(a: A.Actor, run: seq<A.Step>, b: A.Actor)
    requires DrainRun(a, run, b) && A.InOrder(a) && a.loop == A.Draining && b.loop == A.Exited && b.inbox == []
    ensures a.accepted <= b.finished == b.accepted
    decreases |run|
  {
    var c := A.Apply(a, run[0]);
    A.StepInOrder(a, run[0]);
    if c.loop == A.Exited {
      ExitedInOrder(c, run[1..], b);
    } else {
      DrainRunFinishesAll(c, run[1..], b);
    }
  }

  lemma {:induction false} ExitedInOrder(a: A.Actor, run: seq<A.Step>, b: A.Actor)
    requires DrainRun(a, run, b) && A.InOrder(a) && a.loop == A.Exited && b.inbox == []
    ensures a.accepted <= b.finished == b.accepted
    decreases |run|
  {
    if run != [] {
      A.StepInOrder(a, run[0]);
      ExitedInOrder(A.Apply(a, run[0]), run[1..], b);
    }
  }

  class Player {
    const playerID: int
    var sessionID: int
    var contextID: int
    var profile: Profile
    var inbox: seq<A.Message>
    var state: A.PlayerState
    /** Calls of Post so far; each message carries its call's number. */
    var posts: nat
    /** Calls of Post between their two halves. */
    var admitted: set<A.Message>
    /** What went out on the reply channels. */
    var replies: seq<A.Reply>
    /** Calls of a module's hooks, whichever module: true for OnOffline, false for OnResume. */
    var hooks: seq<bool>
    /** The machine's state; its remaining fields are history and the positions of the other threads. */
    ghost var actor: A.Actor

    ghost predicate Valid()
      reads this
    {
      && actor.inbox == inbox && actor.state == state && actor.nextID == posts && actor.admitted == admitted
      && actor.replies == replies
      && |actor.ran| == |hooks| && forall i | 0 <= i < |hooks| :: actor.ran[i].offline == hooks[i]
    }

    /** No lifecycle change is waiting for its hooks. */
    ghost predicate Quiet()
      reads this
    {
      actor.pending == [] && actor.won == actor.ran
    }

    ghost function Record(): R.Player
      reads this
    {
      R.Player(playerID, sessionID, contextID, state, profile, actor.ran)
    }

    constructor (playerID: int, sessionID: int, profile: Profile)
      ensures Valid() && Quiet() && actor == A.START
      ensures Record() == R.NewPlayer(playerID, sessionID, profile)
    {
      this.playerID, this.sessionID, contextID, this.profile := playerID, sessionID, sessionID, profile;
      inbox, state, posts, admitted, replies, hooks, actor := [], A.Active, 0, {}, [], [], A.START;
    }

    // ---------- lifecycle ----------

    /** Compare-and-swap. */
    method Swap(from: A.PlayerState, to: A.PlayerState) returns (won: bool)
      modifies this`state
      ensures won == (old(state) == from) && state == if won then to else old(state)
    {
      won := state == from;
      if won { state := to; }
    }

    method OnOffline()
      requires Valid()
      modifies this
      ensures Valid() && (old(Quiet()) ==> Quiet() && Record() == R.Offline(old(Record())))
      ensures actor == if old(state) == A.Active
                then A.Apply(A.Apply(old(actor), A.GoOffline), A.RunHooks(|old(actor).pending|))
                       else old(actor)
    {
      var won := Swap(A.Active, A.Offline);
      if !won { return; }
      WholeChange(actor, A.GoOffline);
      actor := A.Apply(actor, A.GoOffline);
      RunHooks(true, |old(actor).pending|);
    }

    method OnResume(sessionID: int)
      requires Valid()
      modifies this
      ensures Valid() && (old(Quiet()) ==> Quiet() && Record() == R.Resumed(old(Record()), sessionID))
      ensures actor == if old(state) == A.Offline
                then A.Apply(A.Apply(old(actor), A.GoResume), A.RunHooks(|old(actor).pending|))
                       else old(actor)
    {
      var won := Swap(A.Offline, A.Active);
      if !won { return; }
      WholeChange(actor, A.GoResume);
      actor := A.Apply(actor, A.GoResume);
      this.sessionID, contextID := sessionID, sessionID;
      RunHooks(false, |old(actor).pending|);
    }

    method RunHooks(offline: bool, ghost i: nat)
      requires Valid() && i < |actor.pending| && actor.pending[i].offline == offline
      modifies this`hooks, this`actor
      ensures Valid() && actor == A.Apply(old(actor), A.RunHooks(i))
    {
      actor := A.Apply(actor, A.RunHooks(i));
      hooks := hooks + [offline];
    }

    method Destroy()
      requires Valid()
      modifies this
      ensures Valid() && actor == A.Apply(old(actor), A.GoDestroy)
      ensures Record() == old(Record()).(state := if old(state) == A.Offline then A.Destroyed else old(state))
    {
      var won := Swap(A.Offline, A.Destroyed);
      actor := A.Apply(actor, A.GoDestroy);
    }

    // ---------- messages ----------

    /** The first half of Post: only an active player admits messages. */
    method Admit(wantsReply: bool) returns (err: Option<Dispatch.Error>, msg: A.Message)
      requires Valid()
      modifies this`posts, this`admitted, this`actor
      ensures Valid() && actor == A.Apply(old(actor), A.PostCheck(wantsReply))
      ensures msg == A.Message(old(posts), wantsReply) && (err == None <==> state == A.Active)
      ensures err == None ==> msg in admitted
      ensures err.Some? ==>
                err.value == if state == A.Destroyed then Dispatch.ErrPlayerDestroyed else Dispatch.ErrPlayerClosed
    {
      msg := A.Message(posts, wantsReply);
      posts := posts + 1;
      actor := A.Apply(actor, A.PostCheck(wantsReply));
      if state == A.Destroyed { return Some(Dispatch.ErrPlayerDestroyed), msg; }
      if state != A.Active { return Some(Dispatch.ErrPlayerClosed), msg; }
      admitted := admitted + {msg};
      return None, msg;
    }

    /** The second half: a full inbox refuses, whatever the state is by now. */
    method Enqueue(msg: A.Message) returns (err: Option<Dispatch.Error>)
      requires Valid() && msg in admitted
      modifies this`inbox, this`admitted, this`actor
      ensures Valid() && actor == A.Apply(old(actor), A.PostEnqueue(msg))
      ensures err == if |old(inbox)| < A.INBOX_CAPACITY then None else Some(Dispatch.ErrPlayerBusy)
    {
      actor := A.Apply(actor, A.PostEnqueue(msg));
      admitted := admitted - {msg};
      if |inbox| >= A.INBOX_CAPACITY { return Some(Dispatch.ErrPlayerBusy); }
      inbox := inbox + [msg];
      return None;
    }

    /** Both halves with nothing in between. */
    method Post(wantsReply: bool) returns (err: Option<Dispatch.Error>)
      requires Valid()
      modifies this`inbox, this`posts, this`admitted, this`actor
      ensures Valid() && replies == old(replies) && state == old(state)
      ensures err == if state == A.Destroyed then Some(Dispatch.ErrPlayerDestroyed)
                     else if state == A.Offline then Some(Dispatch.ErrPlayerClosed)
                     else if |old(inbox)| >= A.INBOX_CAPACITY then Some(Dispatch.ErrPlayerBusy) else None
      ensures inbox == if err == None then old(inbox) + [A.Message(old(posts), wantsReply)] else old(inbox)
    {
      var msg;
      err, msg := Admit(wantsReply);
      if err == None { err := Enqueue(msg); }
    }

    /** The loop's look at the state. */
    method LoopCheck() returns (draining: bool)
      requires Valid() && actor.loop == A.Checking
      modifies this`actor
      ensures Valid() && actor == A.Apply(old(actor), A.LoopCheck) && draining == (state == A.Destroyed)
    {
      actor := A.Apply(actor, A.LoopCheck);
      return state == A.Destroyed;
    }

    /** The loop's receive, once something is there. */
    method Take() returns (msg: A.Message)
      requires Valid() && A.Enabled(actor, A.LoopTake)
      modifies this`inbox, this`actor
      ensures Valid() && actor == A.Apply(old(actor), A.LoopTake) && msg == actor.loop.msg
    {
      msg := inbox[0];
      actor := A.Apply(actor, A.LoopTake);
      inbox := inbox[1..];
    }

    /** Tries the modules, whose verdicts on the message are `modules`, and answers once. */
    method Handle(msg: A.Message, modules: seq<Dispatch.Verdict>)
      requires Valid() && actor.loop == A.Handling(msg)
      modifies this`replies, this`actor
      ensures Valid() && actor == A.Apply(old(actor), A.LoopFinish(modules))
    {
      var result := Dispatch.Handle(modules);
      actor := A.Apply(actor, A.LoopFinish(modules));
      if msg.wantsReply { replies := replies + [A.Reply(msg.id, result)]; }
    }

    /** Other threads' posts, as far as they can act: a state check, or the enqueue of a post that passed one. */
    method Interfere(arrivals: seq<Arrival>, ghost a0: A.Actor, ghost run: seq<A.Step>)
      returns (ghost run': seq<A.Step>)
      requires Valid() && actor.loop == A.Draining && DrainRun(a0, run, actor)
      modifies this`inbox, this`posts, this`admitted, this`actor
      ensures Valid() && actor.loop == A.Draining && DrainRun(a0, run', actor)
    {
      run' := run;
      for k := 0 to |arrivals|
        invariant Valid() && actor.loop == A.Draining && DrainRun(a0, run', actor)
      {
        match arrivals[k] {
          case Checks(wantsReply) =>
            ExtendDrain(a0, run', actor, A.PostCheck(wantsReply));
            var err, msg := Admit(wantsReply);
            run' := run' + [A.PostCheck(wantsReply)];
          case Enters(msg) =>
            if msg in admitted {
              ExtendDrain(a0, run', actor, A.PostEnqueue(msg));
              var err := Enqueue(msg);
              run' := run' + [A.PostEnqueue(msg)];
            }
        }
      }
    }

    /** Fails one queued message. */
    method FailOne()
      requires Valid() && actor.loop == A.Draining && inbox != []
      modifies this`inbox, this`replies, this`actor
      ensures Valid() && actor == A.Apply(old(actor), A.DrainTake) && |inbox| == |old(inbox)| - 1
    {
      var msg := inbox[0];
      actor := A.Apply(actor, A.DrainTake);
      inbox := inbox[1..];
      if msg.wantsReply {
        replies := replies + [A.Reply(msg.id, Dispatch.Result(None, false, Some(Dispatch.ErrPlayerDestroyed)))];
      }
    }

    /** The loop's last words: everything queued fails, with posts arriving before each look at the inbox, until a look
        finds it empty. */
    method DrainAndFail(arrivals: seq<seq<Arrival>>) returns (ghost run: seq<A.Step>)
      requires Valid() && actor.loop == A.Draining
      modifies this`inbox, this`replies, this`posts, this`admitted, this`actor
      ensures Valid() && DrainRun(old(actor), run, actor) && actor.loop == A.Exited && inbox == []
      ensures arrivals == [] ==> actor == Drained(old(actor))
    {
      ghost var a0 := actor;
      run := [];
      var k := 0;
      while true
        invariant k <= |arrivals| && Valid() && actor.loop == A.Draining && DrainRun(a0, run, actor)
        invariant arrivals == [] ==> Drained(actor) == Drained(a0)
        decreases |arrivals| - k, |inbox|
      {
        if k < |arrivals| {
          run := Interfere(arrivals[k], a0, run);
          k := k + 1;
        }
        if inbox == [] { break; }
        ExtendDrain(a0, run, actor, A.DrainTake);
        FailOne();
        run := run + [A.DrainTake];
      }
      ExtendDrain(a0, run, actor, A.DrainStop);
      actor := A.Apply(actor, A.DrainStop);
      run := run + [A.DrainStop];
    }
  }

  /** The module behind explicit resume requests. */
  class ResumeModule {
    const p: Player

    constructor (p: Player)
      ensures this.p == p
    {
      this.p := p;
    }

    predicate CanHandle(msgID: int) {
      msgID == MSG_PLAYER_RESUME_REQ
    }

    method Handle(env: Envelope) returns (r: Dispatch.Result)
      requires p.Valid()
      modifies p
      ensures r == Dispatch.Result(None, true, None) && p.Valid()
      ensures old(p.Quiet()) ==> p.Quiet() && p.Record() == R.Resumed(old(p.Record()), env.sessionId)
    {
      p.OnResume(env.sessionId);
      return Dispatch.Result(None, true, None);
    }
  }
}
