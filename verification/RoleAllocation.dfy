/**
 * Role allocation: any number of calls resolving accounts to roles, interleaved one store operation at a time, each
 * operation possibly failing, while other processes save profiles.
 */
module RoleAllocation {
  import opened Prelude
  import opened PlayerStore

  /** What a call does next, or how it ended. `existed` tells a role that was found from one that is new. */
  datatype Stage =
    | Loading
    | Counting
    | SavingRole(roleID: int)
    | SavingProfile(roleID: int)
    | Done(roleID: int, existed: bool)
    | Failed

  datatype Call = Call(account: string, stage: Stage)

  /** `origin` is history: for each role, the account it was first handed to and, when a call of this run did so,
      that call. */
  datatype Origin = Origin(account: string, call: Option<nat>)

  datatype Service = Service(store: Store, calls: seq<Call>, origin: map<int, Origin>)

  datatype Step =
    | Begin(account: string)
    | Advance(call: nat, fault: Fault)
    | OtherSave(profile: Profile, fault: Fault)

  predicate Ended(stage: Stage) {
    stage.Done? || stage.Failed?
  }

  predicate Enabled(v: Service, step: Step) {
    step.Advance? ==> step.call < |v.calls| && !Ended(v.calls[step.call].stage)
  }

  /** One store operation of one call. */
  function NextStore(s: Store, call: Call, fault: Fault): Store {
    match call.stage
    case Counting => NextUID(s, fault)
    case SavingRole(r) => SaveRoleID(s, call.account, r, fault)
    case SavingProfile(r) => SaveProfile(s, NewProfile(r, call.account), fault)
    case _ => s
  }

  function NextStage(s: Store, call: Call, fault: Fault): Stage {
    match call.stage
    case Loading =>
      (match LoadRoleID(s, call.account, fault)
       case Broken => Failed
       case Found(r) => Done(r, true)
       case Missing => Counting)
    case Counting => if fault == Works then SavingRole(s.counter + 1) else Failed
    case SavingRole(r) => if RoleSaved(call.account, r, fault) then SavingProfile(r) else Failed
    case SavingProfile(r) => if ProfileSaved(NewProfile(r, call.account), fault) then Done(r, false) else Failed
    case ended => ended
  }

  function AdvanceCall(v: Service, i: nat, fault: Fault): Service
    requires i < |v.calls|
  {
    var call, store := v.calls[i], NextStore(v.store, v.calls[i], fault);
    Service(store, v.calls[i := call.(stage := NextStage(v.store, call, fault))],
            if store.counter == v.store.counter then v.origin
            else v.origin[store.counter := Origin(call.account, Some(i))])
  }

  function Apply(v: Service, step: Step): Service
    requires Enabled(v, step)
  {
    match step
    case Begin(account) => v.(calls := v.calls + [Call(account, Loading)])
    case Advance(i, fault) => AdvanceCall(v, i, fault)
    case OtherSave(profile, fault) => v.(store := SaveProfile(v.store, profile, fault))
  }

  /** A consistent store: roles are positive, none above the counter, no two accounts share one. */
  ghost predicate Consistent(s: Store) {
    && s.counter >= 0 && "" !in s.accounts && Keyed(s)
    && (forall a | a in s.accounts :: 0 < s.accounts[a] <= s.counter)
    && (forall a, b | a in s.accounts && b in s.accounts && s.accounts[a] == s.accounts[b] :: a == b)
  }

  ghost predicate Fresh(v: Service) {
    && Consistent(v.store) && v.calls == []
    && (forall r | r in v.origin :: 0 < r <= v.store.counter && v.origin[r].call == None)
    && (forall a | a in v.store.accounts ::
          v.store.accounts[a] in v.origin && v.origin[v.store.accounts[a]].account == a)
  }

  /** A service over store `s` before its first call. */
  ghost function Start(s: Store): Service {
    Service(s, [], map r | r in s.accounts.Values :: var a :| a in s.accounts && s.accounts[a] == r; Origin(a, None))
  }

  /** Any consistent store will do. */
  lemma StartFresh(s: Store)
    requires Consistent(s)
    ensures Fresh(Start(s))
  {
    var origin := Start(s).origin;
    forall a | a in s.accounts ensures s.accounts[a] in origin && origin[s.accounts[a]].account == a {}
  }

  function At(v: Service, run: seq<Step>, n: nat): Option<Service>
    requires n <= |run|
  {
    if n == 0 then Some(v)
    else
      match At(v, run, n - 1)
      case None => None
      case Some(u) => if Enabled(u, run[n - 1]) then Some(Apply(u, run[n - 1])) else None
  }

  predicate IsRun(v: Service, run: seq<Step>) {
    At(v, run, |run|).Some?
  }

  function After(v: Service, run: seq<Step>, n: nat): Service
    requires IsRun(v, run) && n <= |run|
  {
    RunPrefix(v, run, n, |run|);
    At(v, run, n).value
  }

  lemma {:induction false} RunPrefix(v: Service, run: seq<Step>, m: nat, n: nat)
    requires m <= n <= |run| && At(v, run, n).Some?
    ensures At(v, run, m).Some?
  {
    if m < n { RunPrefix(v, run, m, n - 1); }
  }

  lemma Unfold(v: Service, run: seq<Step>, n: nat)
    requires IsRun(v, run) && n < |run|
    ensures Enabled(After(v, run, n), run[n]) && After(v, run, n + 1) == Apply(After(v, run, n), run[n])
  {
    RunPrefix(v, run, n + 1, |run|);
  }

  // ---------- who holds which role ----------

  /** The role a call works on or has returned. */
  function RoleOf(stage: Stage): Option<int> {
    match stage
    case SavingRole(r) => Some(r)
    case SavingProfile(r) => Some(r)
    case Done(r, _) => Some(r)
    case _ => None
  }

  ghost predicate AccountOk(v: Service, a: string)
    requires a in v.store.accounts
  {
    a != "" && v.store.accounts[a] in v.origin && v.origin[v.store.accounts[a]].account == a
  }

  /** A call's role was first handed to its own account; a new one, to the call itself. */
  ghost predicate CallOk(v: Service, i: nat)
    requires i < |v.calls|
  {
    var Call(account, stage) := v.calls[i];
    RoleOf(stage).Some? ==>
      var r := RoleOf(stage).value;
      && r in v.origin && v.origin[r].account == account
      && ((stage.Done? && stage.existed) || v.origin[r].call == Some(i))
      && (stage.SavingRole? && account in v.store.accounts ==> v.store.accounts[account] != r)
  }

  ghost predicate OriginOk(v: Service, r: int)
    requires r in v.origin
  {
    0 < r <= v.store.counter && (v.origin[r].call.Some? ==> v.origin[r].call.value < |v.calls|)
  }

  ghost predicate Inv(v: Service) {
    && v.store.counter >= 0 && Keyed(v.store)
    && (forall r | r in v.origin :: OriginOk(v, r))
    && (forall a | a in v.store.accounts :: AccountOk(v, a))
    && (forall i | 0 <= i < |v.calls| :: CallOk(v, i))
  }

  lemma AdvanceInv(v: Service, i: nat, fault: Fault)
    requires Inv(v) && i < |v.calls| && !Ended(v.calls[i].stage)
    ensures Inv(AdvanceCall(v, i, fault))
  {
    var u := AdvanceCall(v, i, fault);
    assert CallOk(v, i);
    forall r | r in u.origin ensures OriginOk(u, r) { assert r in v.origin ==> OriginOk(v, r); }
    forall a | a in u.store.accounts ensures AccountOk(u, a) { assert a in v.store.accounts ==> AccountOk(v, a); }
    forall j | 0 <= j < |u.calls| ensures CallOk(u, j) {
      assert CallOk(v, j);
      if RoleOf(v.calls[j].stage).Some? { assert OriginOk(v, RoleOf(v.calls[j].stage).value); }
    }
  }

  lemma StepInv(v: Service, step: Step)
    requires Inv(v) && Enabled(v, step)
    ensures Inv(Apply(v, step))
  {
    var u := Apply(v, step);
    if step.Advance? {
      AdvanceInv(v, step.call, step.fault);
    } else {
      forall r | r in u.origin ensures OriginOk(u, r) { assert OriginOk(v, r); }
      forall a | a in u.store.accounts ensures AccountOk(u, a) { assert AccountOk(v, a); }
      forall j | 0 <= j < |u.calls| ensures CallOk(u, j) { assert j < |v.calls| ==> CallOk(v, j); }
    }
  }

  lemma {:induction false} RunInv(v: Service, run: seq<Step>, n: nat)
    requires Fresh(v) && IsRun(v, run) && n <= |run|
    ensures Inv(After(v, run, n))
  {
    if n > 0 {
      RunInv(v, run, n - 1);
      Unfold(v, run, n - 1);
      StepInv(After(v, run, n - 1), run[n - 1]);
    }
  }

  /** Account `a` holds role `r`: in the store, or through a call under way or finished. */
  ghost predicate Holds(v: Service, a: string, r: int) {
    || (a in v.store.accounts && v.store.accounts[a] == r)
    || exists i :: 0 <= i < |v.calls| && v.calls[i].account == a && RoleOf(v.calls[i].stage) == Some(r)
  }

  /** At any moment of any run: a role belongs to one account, and was counted before it was used. */
  lemma RolesNeverShared(v: Service, run: seq<Step>, n: nat, a: string, b: string, r: int)
    requires Fresh(v) && IsRun(v, run) && n <= |run|
    requires Holds(After(v, run, n), a, r) && Holds(After(v, run, n), b, r)
    ensures a == b && 0 < r <= After(v, run, n).store.counter
  {
    RunInv(v, run, n);
    var u := After(v, run, n);
    HeldByOrigin(u, a, r);
    HeldByOrigin(u, b, r);
  }

  lemma HeldByOrigin(v: Service, a: string, r: int)
    requires Inv(v) && Holds(v, a, r)
    ensures r in v.origin && v.origin[r].account == a && 0 < r <= v.store.counter
  {
    if a in v.store.accounts && v.store.accounts[a] == r {
      assert AccountOk(v, a);
    } else {
      var i :| 0 <= i < |v.calls| && v.calls[i].account == a && RoleOf(v.calls[i].stage) == Some(r);
      assert CallOk(v, i);
    }
    assert OriginOk(v, r);
  }

  /** Two calls never hand out the same new role, even for one account or for none. */
  lemma NewRolesAreNew(v: Service, run: seq<Step>, n: nat, i: nat, j: nat)
    requires Fresh(v) && IsRun(v, run) && n <= |run| && i < |After(v, run, n).calls| && j < |After(v, run, n).calls|
    requires After(v, run, n).calls[i].stage.Done? && !After(v, run, n).calls[i].stage.existed
    requires After(v, run, n).calls[j].stage == After(v, run, n).calls[i].stage
    ensures i == j
  {
    RunInv(v, run, n);
    var u := After(v, run, n);
    assert CallOk(u, i) && CallOk(u, j);
  }

  /** Whatever the failures, a stored profile names the role it is stored under. */
  lemma ProfilesKeyed(v: Service, run: seq<Step>, n: nat)
    requires Fresh(v) && IsRun(v, run) && n <= |run|
    ensures Keyed(After(v, run, n).store)
  {
    RunInv(v, run, n);
  }

  // ---------- what a returned role leaves in the store ----------

  /** A call past saving its role has left its account with a role, and one that returned a new role has left its
      profile. */
  ghost predicate Recorded(v: Service, i: nat)
    requires i < |v.calls|
  {
    var Call(account, stage) := v.calls[i];
    && (stage.SavingProfile? || stage.Done? ==> account == "" || account in v.store.accounts)
    && (stage.Done? && !stage.existed ==> stage.roleID in v.store.profiles)
  }

  lemma StepRecorded(v: Service, step: Step, i: nat)
    requires Inv(v) && Enabled(v, step) && i < |Apply(v, step).calls| && (i < |v.calls| ==> Recorded(v, i))
    ensures Recorded(Apply(v, step), i)
  {
    if i < |v.calls| {
      assert CallOk(v, i);
      if RoleOf(v.calls[i].stage).Some? { assert OriginOk(v, RoleOf(v.calls[i].stage).value); }
    }
  }

  /** Whenever a call has returned a role, its account has one in the store, and a new role has its profile there,
      whatever failed and whoever saved in between. */
  lemma {:induction false} ReturnedIsRecorded(v: Service, run: seq<Step>, n: nat, i: nat)
    requires Fresh(v) && IsRun(v, run) && n <= |run| && i < |After(v, run, n).calls|
    ensures Recorded(After(v, run, n), i)
  {
    if n > 0 {
      Unfold(v, run, n - 1);
      RunInv(v, run, n - 1);
      if i < |After(v, run, n - 1).calls| { ReturnedIsRecorded(v, run, n - 1, i); }
      StepRecorded(After(v, run, n - 1), run[n - 1], i);
    }
  }

  // ---------- when an account's role is settled ----------

  /** Call `i` looked for the account's role, found none, and may still write one. */
  predicate Misses(v: Service, a: string, i: nat)
    requires i < |v.calls|
  {
    v.calls[i].account == a && (v.calls[i].stage.Counting? || v.calls[i].stage.SavingRole?)
  }

  predicate Settled(v: Service, a: string) {
    a in v.store.accounts && forall i | 0 <= i < |v.calls| :: !Misses(v, a, i)
  }

  /** From `m` on, the account's role stays, and calls begun since return it. */
  ghost predicate Keeps(v: Service, u: Service, a: string) {
    && Settled(u, a) && a in v.store.accounts && u.store.accounts[a] == v.store.accounts[a]
    && |v.calls| <= |u.calls|
    && (forall i | |v.calls| <= i < |u.calls| :: Later(v, u, a, i))
  }

  ghost predicate Later(v: Service, u: Service, a: string, i: nat)
    requires i < |u.calls| && a in v.store.accounts
  {
    u.calls[i].account == a && !u.calls[i].stage.Loading? && !u.calls[i].stage.Failed? ==>
      u.calls[i].stage == Done(v.store.accounts[a], true)
  }

  lemma StepKeeps(v: Service, u: Service, a: string, step: Step)
    requires Inv(u) && Keeps(v, u, a) && Enabled(u, step)
    ensures Keeps(v, Apply(u, step), a)
  {
    var w := Apply(u, step);
    assert AccountOk(u, a);
    if step.Advance? {
      assert !Misses(u, a, step.call);
      assert step.call >= |v.calls| ==> Later(v, u, a, step.call);
    }
    forall i | 0 <= i < |w.calls| ensures !Misses(w, a, i) { assert i < |u.calls| ==> !Misses(u, a, i); }
    forall i | |v.calls| <= i < |w.calls| ensures Later(v, w, a, i) { assert i < |u.calls| ==> Later(v, u, a, i); }
  }

  /** A settled account keeps its role for ever, and every call begun since that succeeds returns it. */
  lemma {:induction false} SettledStays(v: Service, run: seq<Step>, m: nat, n: nat, a: string)
    requires Fresh(v) && IsRun(v, run) && m <= n <= |run| && Settled(After(v, run, m), a)
    ensures Keeps(After(v, run, m), After(v, run, n), a)
  {
    if m < n {
      SettledStays(v, run, m, n - 1, a);
      Unfold(v, run, n - 1);
      RunInv(v, run, n - 1);
      StepKeeps(After(v, run, m), After(v, run, n - 1), a, run[n - 1]);
    }
  }

  /** A continuation from `u`. */
  predicate Continues(u: Service, more: seq<Step>, w: Service) {
    At(u, more, |more|) == Some(w)
  }

  /** The account's role is final exactly when no call that missed it can still write: otherwise one or two more
      operations of such a call replace it. */
  lemma FinalExactlyWhenSettled(v: Service, run: seq<Step>, a: string)
    requires Fresh(v) && IsRun(v, run) && a in After(v, run, |run|).store.accounts
    ensures Settled(After(v, run, |run|), a)
            <==> forall more, w | Continues(After(v, run, |run|), more, w) ::
                   a in w.store.accounts && w.store.accounts[a] == After(v, run, |run|).store.accounts[a]
  {
    var u := After(v, run, |run|);
    RunInv(v, run, |run|);
    if Settled(u, a) {
      forall more, w | Continues(u, more, w)
        ensures a in w.store.accounts && w.store.accounts[a] == u.store.accounts[a]
      {
        ContinueKeeps(u, more, |more|, a);
      }
    } else {
      var i :| 0 <= i < |u.calls| && Misses(u, a, i);
      var more, w := Overwrite(u, a, i);
    }
  }

  lemma {:induction false} ContinueKeeps(u: Service, more: seq<Step>, n: nat, a: string)
    requires Inv(u) && Settled(u, a) && n <= |more| && At(u, more, n).Some?
    ensures Inv(At(u, more, n).value) && Keeps(u, At(u, more, n).value, a)
  {
    if n > 0 {
      ContinueKeeps(u, more, n - 1, a);
      StepInv(At(u, more, n - 1).value, more[n - 1]);
      StepKeeps(u, At(u, more, n - 1).value, a, more[n - 1]);
    }
  }

  lemma Overwrite(u: Service, a: string, i: nat) returns (more: seq<Step>, w: Service)
    requires Inv(u) && a in u.store.accounts && i < |u.calls| && Misses(u, a, i)
    ensures Continues(u, more, w) && a in w.store.accounts && w.store.accounts[a] != u.store.accounts[a]
  {
    assert AccountOk(u, a) && CallOk(u, i) && OriginOk(u, u.store.accounts[a]);
    var step := Advance(i, Works);
    var u' := Apply(u, step);
    if u.calls[i].stage.SavingRole? {
      assert OriginOk(u, u.calls[i].stage.roleID);
      more, w := [step], u';
      assert At(u, more, 0) == Some(u);
    } else {
      more, w := [step, step], Apply(u', step);
      assert At(u, more, 0) == Some(u);
      assert At(u, more, 1) == Some(u');
    }
  }

  // ---------- calls one at a time ----------

  predicate Busy(v: Service, a: string, i: nat)
    requires i < |v.calls|
  {
    v.calls[i].account == a && !Ended(v.calls[i].stage)
  }

  /** Calls for account `a` do not overlap. */
  ghost predicate OneAtATime(v: Service, a: string) {
    forall i, j | 0 <= i < j < |v.calls| :: !(Busy(v, a, i) && Busy(v, a, j))
  }

  /** Every successful call so far returned what the store now says; nobody writes over it. */
  ghost predicate Agreed(v: Service, a: string) {
    forall i | 0 <= i < |v.calls| :: AgreedCall(v, a, i)
  }

  ghost predicate AgreedCall(v: Service, a: string, i: nat)
    requires i < |v.calls|
  {
    v.calls[i].account == a ==>
      && (Misses(v, a, i) ==> a !in v.store.accounts)
      && (v.calls[i].stage.SavingProfile? || v.calls[i].stage.Done? ==>
            a in v.store.accounts && v.store.accounts[a] == v.calls[i].stage.roleID)
  }

  lemma StepAgrees(v: Service, a: string, step: Step)
    requires Inv(v) && Agreed(v, a) && a != "" && OneAtATime(v, a) && Enabled(v, step)
    ensures Agreed(Apply(v, step), a)
  {
    var u := Apply(v, step);
    if step.Advance? { assert AgreedCall(v, a, step.call) && CallOk(v, step.call); }
    forall i | 0 <= i < |u.calls| ensures AgreedCall(u, a, i) {
      if i < |v.calls| {
        assert AgreedCall(v, a, i);
        if step.Advance? && i != step.call {
          assert !(Busy(v, a, i) && Busy(v, a, step.call)) by {
            var j, k := if i < step.call then i else step.call, if i < step.call then step.call else i;
            assert !(Busy(v, a, j) && Busy(v, a, k));
          }
        }
      }
    }
  }

  /** If the calls for a non-empty account never overlap, all that succeed return the same role, whatever fails. */
  lemma SequentialCallsAgree(v: Service, run: seq<Step>, n: nat, a: string, i: nat, j: nat)
    requires Fresh(v) && IsRun(v, run) && n <= |run| && a != ""
    requires forall m | 0 <= m < n :: OneAtATime(After(v, run, m), a)
    requires i < |After(v, run, n).calls| && j < |After(v, run, n).calls|
    requires var u := After(v, run, n);
             u.calls[i].account == a && u.calls[j].account == a && u.calls[i].stage.Done? && u.calls[j].stage.Done?
    ensures After(v, run, n).calls[i].stage.roleID == After(v, run, n).calls[j].stage.roleID
  {
    RunAgrees(v, run, n, a);
    assert AgreedCall(After(v, run, n), a, i) && AgreedCall(After(v, run, n), a, j);
  }

  lemma {:induction false} RunAgrees(v: Service, run: seq<Step>, n: nat, a: string)
    requires Fresh(v) && IsRun(v, run) && n <= |run| && a != ""
    requires forall m | 0 <= m < n :: OneAtATime(After(v, run, m), a)
    ensures Agreed(After(v, run, n), a)
  {
    if n > 0 {
      RunAgrees(v, run, n - 1, a);
      RunInv(v, run, n - 1);
      Unfold(v, run, n - 1);
      StepAgrees(After(v, run, n - 1), a, run[n - 1]);
    }
  }

  lemma {:induction false} AtPrefix(v: Service, run: seq<Step>, step: Step, n: nat)
    requires n <= |run|
    ensures At(v, run + [step], n) == At(v, run, n)
  {
    if n > 0 { AtPrefix(v, run, step, n - 1); }
  }

  lemma Next(v: Service, run: seq<Step>, u: Service, step: Step) returns (run': seq<Step>, u': Service)
    requires Continues(v, run, u) && Enabled(u, step)
    ensures u' == Apply(u, step) && Continues(v, run', u')
  {
    run', u' := run + [step], Apply(u, step);
    AtPrefix(v, run, step, |run|);
  }

  // ---------- when an account's answer is final ----------

  /** The call has returned `r`, or can return nothing else now that the store says `r`. */
  predicate Bound(call: Call, r: int) {
    match call.stage
    case Loading => true
    case Failed => true
    case Done(role, _) => role == r
    case SavingProfile(role) => role == r
    case _ => false
  }

  ghost predicate BoundCall(v: Service, a: string, r: int, i: nat)
    requires i < |v.calls|
  {
    v.calls[i].account == a ==> Bound(v.calls[i], r)
  }

  /** The account's role is stored, and every call for it is bound to it. */
  ghost predicate Converged(v: Service, a: string, r: int) {
    && a in v.store.accounts && v.store.accounts[a] == r
    && forall i | 0 <= i < |v.calls| :: BoundCall(v, a, r, i)
  }

  /** Every call for the account that has succeeded returned `r`. */
  ghost predicate ReturnsOnly(v: Service, a: string, r: int) {
    forall i | 0 <= i < |v.calls| :: v.calls[i].account == a && v.calls[i].stage.Done? ==> v.calls[i].stage.roleID == r
  }

  lemma StepConverged(v: Service, a: string, r: int, step: Step)
    requires a != "" && Converged(v, a, r) && Enabled(v, step)
    ensures Converged(Apply(v, step), a, r)
  {
    var u := Apply(v, step);
    if step.Advance? { assert BoundCall(v, a, r, step.call); }
    forall i | 0 <= i < |u.calls| ensures BoundCall(u, a, r, i) { assert i < |v.calls| ==> BoundCall(v, a, r, i); }
  }

  lemma {:induction false} ContinueConverged(u: Service, a: string, r: int, more: seq<Step>, n: nat)
    requires a != "" && Converged(u, a, r) && n <= |more| && At(u, more, n).Some?
    ensures Converged(At(u, more, n).value, a, r)
  {
    if n > 0 {
      ContinueConverged(u, a, r, more, n - 1);
      StepConverged(At(u, more, n - 1).value, a, r, more[n - 1]);
    }
  }

  /** Call `i` of account `a` has returned another role than `r`. */
  ghost predicate Strays(w: Service, a: string, r: int, i: nat) {
    i < |w.calls| && w.calls[i].account == a && w.calls[i].stage.Done? && w.calls[i].stage.roleID != r
  }

  /** A call on its way to another role than `r` gets there, if the store works. */
  lemma RunToDone(u: Service, more: seq<Step>, w: Service, a: string, r: int, i: nat)
    returns (more': seq<Step>, w': Service)
    requires Continues(u, more, w) && i < |w.calls| && w.calls[i].account == a
    requires match w.calls[i].stage
             case Counting => w.store.counter + 1 > r && w.store.counter >= 0
             case SavingRole(role) => role != r && role != 0
             case SavingProfile(role) => role != r && role != 0
             case Done(role, _) => role != r
             case _ => false
    ensures Continues(u, more', w') && Strays(w', a, r, i)
  {
    more', w' := more, w;
    if w'.calls[i].stage.Counting? { more', w' := Next(u, more', w', Advance(i, Works)); }
    if w'.calls[i].stage.SavingRole? { more', w' := Next(u, more', w', Advance(i, Works)); }
    if w'.calls[i].stage.SavingProfile? { more', w' := Next(u, more', w', Advance(i, Works)); }
  }

  lemma Diverge(u: Service, a: string, r: int) returns (more: seq<Step>, w: Service, i: nat)
    requires Inv(u) && a != "" && r <= u.store.counter && !Converged(u, a, r)
    ensures Continues(u, more, w) && Strays(w, a, r, i)
  {
    more, w := [], u;
    if a !in u.store.accounts || u.store.accounts[a] != r {
      i := |u.calls|;
      more, w := Next(u, more, w, Begin(a));
      more, w := Next(u, more, w, Advance(i, Works));
    } else {
      i :| 0 <= i < |u.calls| && !BoundCall(u, a, r, i);
      assert CallOk(u, i);
      if RoleOf(u.calls[i].stage).Some? { assert OriginOk(u, RoleOf(u.calls[i].stage).value); }
    }
    more, w := RunToDone(u, more, w, a, r, i);
  }

  /** Once a call for a non-empty account has returned `r`, no call for it will ever return another role if and only if
      the store says `r` and no call is on its way to another role. */
  lemma AnswersFinalExactly(v: Service, run: seq<Step>, a: string, r: int, j: nat)
    requires Fresh(v) && IsRun(v, run) && a != "" && j < |After(v, run, |run|).calls|
    requires var call := After(v, run, |run|).calls[j]; call.account == a && call.stage.Done? && call.stage.roleID == r
    ensures Converged(After(v, run, |run|), a, r)
            <==> forall more, w | Continues(After(v, run, |run|), more, w) :: ReturnsOnly(w, a, r)
  {
    var u := After(v, run, |run|);
    RunInv(v, run, |run|);
    assert CallOk(u, j) && OriginOk(u, r);
    if Converged(u, a, r) {
      forall more, w | Continues(u, more, w) ensures ReturnsOnly(w, a, r) {
        ContinueConverged(u, a, r, more, |more|);
        forall i | 0 <= i < |w.calls| && w.calls[i].account == a && w.calls[i].stage.Done?
          ensures w.calls[i].stage.roleID == r
        {
          assert BoundCall(w, a, r, i);
        }
      }
    } else {
      var more, w, i := Diverge(u, a, r);
      assert !ReturnsOnly(w, a, r);
    }
  }

  /** Overlapping calls for one account can both succeed with different roles. */
  lemma OverlappingCallsDisagree()
    ensures exists v, run :: && Fresh(v) && IsRun(v, run)
                             && var u := After(v, run, |run|);
                             u.calls == [Call("a", Done(1, false)), Call("a", Done(2, false))]
  {
    var v := Service(Store(map[], map[], 0), [], map[]);
    var run, u := [], v;
    run, u := Next(v, run, u, Begin("a"));
    run, u := Next(v, run, u, Begin("a"));
    for k := 0 to 2
      invariant Continues(v, run, u) && |u.calls| == 2 && u.store.counter == 0 && u.store.accounts == map[]
      invariant forall i | 0 <= i < 2 :: u.calls[i] == Call("a", if i < k then Counting else Loading)
    {
      run, u := Next(v, run, u, Advance(k, Works));
    }
    for k := 0 to 2
      invariant Continues(v, run, u) && |u.calls| == 2 && u.store.counter == k
      invariant forall i | 0 <= i < 2 :: u.calls[i] == Call("a", if i < k then SavingRole(i + 1) else Counting)
    {
      run, u := Next(v, run, u, Advance(k, Works));
    }
    for k := 0 to 2
      invariant Continues(v, run, u) && |u.calls| == 2
      invariant forall i | 0 <= i < 2 ::
                  u.calls[i] == Call("a", if i < k then Done(i + 1, false) else SavingRole(i + 1))
    {
      run, u := Next(v, run, u, Advance(k, Works));
      run, u := Next(v, run, u, Advance(k, Works));
    }
    assert Fresh(v) && IsRun(v, run) && After(v, run, |run|) == u;
    assert u.calls == [Call("a", Done(1, false)), Call("a", Done(2, false))];
  }
}
