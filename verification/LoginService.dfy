/** The store and the login service as objects; a whole ResolveRoleID call is a run of the interleaved machine. */
module LoginService {
  import opened Prelude
  import P = PlayerStore
  import R = RoleAllocation
  import Token

  class RedisStore {
    var accounts: map<string, int>
    var profiles: map<int, P.Profile>
    var counter: int

    ghost function View(): P.Store
      reads this
    {
      P.Store(accounts, profiles, counter)
    }

    constructor ()
      ensures View() == P.Store(map[], map[], 0)
    {
      accounts, profiles, counter := map[], map[], 0;
    }

    method LoadRoleID(account: string, fault: P.Fault) returns (r: P.Lookup<int>)
      ensures r == P.LoadRoleID(View(), account, fault)
    {
      if account == "" { return P.Missing; }
      if fault != P.Works { return P.Broken; }
      if account in accounts { return P.Found(accounts[account]); }
      return P.Missing;
    }

    method SaveRoleID(account: string, roleID: int, fault: P.Fault) returns (ok: bool)
      modifies this
      ensures View() == P.SaveRoleID(old(View()), account, roleID, fault)
      ensures ok == P.RoleSaved(account, roleID, fault)
    {
      if account == "" || roleID == 0 { return true; }
      if fault != P.FailsBefore { accounts := accounts[account := roleID]; }
      return fault == P.Works;
    }

    method LoadProfile(roleID: int, fault: P.Fault) returns (r: P.Lookup<P.Profile>)
      ensures r == P.LoadProfile(View(), roleID, fault)
    {
      if roleID == 0 { return P.Missing; }
      if fault != P.Works { return P.Broken; }
      if roleID in profiles { return P.Found(profiles[roleID]); }
      return P.Missing;
    }

    method SaveProfile(profile: P.Profile, fault: P.Fault) returns (ok: bool)
      modifies this
      ensures View() == P.SaveProfile(old(View()), profile, fault)
      ensures ok == P.ProfileSaved(profile, fault)
    {
      if profile.roleID == 0 { return true; }
      if fault != P.FailsBefore { profiles := profiles[profile.roleID := profile]; }
      return fault == P.Works;
    }

    method NextUID(fault: P.Fault) returns (uid: int, ok: bool)
      modifies this
      ensures View() == P.NextUID(old(View()), fault)
      ensures ok == (fault == P.Works) && (ok ==> uid == counter)
    {
      if fault == P.FailsBefore { return 0, false; }
      counter := counter + 1;
      return counter, fault == P.Works;
    }
  }

  /** One call running alone: each operation takes the next fault. */
  function Alone(s: P.Store, call: R.Call, faults: seq<P.Fault>): (P.Store, R.Stage)
    decreases |faults|
  {
    if faults == [] || R.Ended(call.stage) then (s, call.stage)
    else Alone(R.NextStore(s, call, faults[0]), call.(stage := R.NextStage(s, call, faults[0])), faults[1..])
  }

  /** What the caller gets. */
  function Outcome(stage: R.Stage): (int, bool, bool) {
    if stage.Done? then (stage.roleID, stage.existed, true) else (0, false, false)
  }

  class LoginService {
    const uidGen: RedisStore?
    const store: RedisStore?

    constructor (uidGen: RedisStore?, store: RedisStore?)
      ensures this.uidGen == uidGen && this.store == store
    {
      this.uidGen, this.store := uidGen, store;
    }

    /** Without a generator the service hands out role 0. */
    method NextUID(fault: P.Fault) returns (uid: int, ok: bool)
      modifies uidGen
      ensures uidGen == null ==> uid == 0 && ok
      ensures uidGen != null ==> uidGen.View() == P.NextUID(old(uidGen.View()), fault)
      ensures uidGen != null ==> ok == (fault == P.Works) && (ok ==> uid == uidGen.counter)
    {
      if uidGen == null { return 0, true; }
      uid, ok := uidGen.NextUID(fault);
    }

    /** The roles of the store and the counter of the generator, which may be one object or two. */
    ghost function View(): P.Store
      requires store != null && uidGen != null
      reads uidGen, store
    {
      P.Store(store.accounts, store.profiles, uidGen.counter)
    }

    /** With a store and a generator the call does what the machine's call does; without a store it only draws an ID;
        without a generator nothing is stored and the role is 0. */
    method ResolveRoleID(account: string, faults: seq<P.Fault>) returns (roleID: int, existed: bool, ok: bool)
      requires |faults| == 4
      modifies uidGen, store
      ensures store != null && uidGen != null ==>
                && View() == Alone(old(View()), R.Call(account, R.Loading), faults).0
                && (roleID, existed, ok) == Outcome(Alone(old(View()), R.Call(account, R.Loading), faults).1)
      ensures store != null && uidGen != null && store != uidGen ==>
                store.counter == old(store.counter) && uidGen.accounts == old(uidGen.accounts)
                && uidGen.profiles == old(uidGen.profiles)
      ensures store == null && uidGen != null ==>
                && uidGen.View() == P.NextUID(old(uidGen.View()), faults[1])
                && !existed && ok == (faults[1] == P.Works) && (ok ==> roleID == uidGen.counter)
      ensures store != null && uidGen == null ==>
                && store.View() == old(store.View())
                && (ok && roleID != 0 ==> account in store.accounts && store.accounts[account] == roleID && existed)
                && (ok <==> account == "" || faults[0] == P.Works)
    {
      if store == null {
        roleID, ok := NextUID(faults[1]);
        return roleID, false, ok;
      }
      ghost var s0 := P.Store(store.accounts, store.profiles, if uidGen == null then 0 else uidGen.counter);
      var found := store.LoadRoleID(account, faults[0]);
      if found.Broken? { return 0, false, false; }
      if found.Found? { return found.value, true, true; }
      roleID, ok := NextUID(faults[1]);
      AloneUnfolds(s0, account, roleID, faults);
      if !ok { return 0, false, false; }
      var profile := P.NewProfile(roleID, account);
      ok := store.SaveRoleID(account, roleID, faults[2]);
      if !ok { return 0, false, false; }
      ok := store.SaveProfile(profile, faults[3]);
      if !ok { return 0, false, false; }
      return roleID, false, true;
    }
  }

  /** The call's three writes, once its load found nothing. */
  lemma AloneUnfolds(s: P.Store, account: string, r: int, faults: seq<P.Fault>)
    requires |faults| == 4 && P.LoadRoleID(s, account, faults[0]).Missing?
    ensures var all := Alone(s, R.Call(account, R.Loading), faults);
            var s1 := P.NextUID(s, faults[1]);
            var s2 := P.SaveRoleID(s1, account, r, faults[2]);
            && (faults[1] != P.Works ==> all == (s1, R.Failed))
            && (faults[1] == P.Works && r == s.counter + 1 ==>
                  all == if P.RoleSaved(account, r, faults[2])
                         then (P.SaveProfile(s2, P.NewProfile(r, account), faults[3]),
                               if P.ProfileSaved(P.NewProfile(r, account), faults[3])
                               then R.Done(r, false) else R.Failed)
                         else (s2, R.Failed))
  {
    var c1, f1 := R.Call(account, R.Counting), faults[1..];
    assert Alone(s, R.Call(account, R.Loading), faults) == Alone(s, c1, f1);
    var s1, f2 := P.NextUID(s, faults[1]), f1[1..];
    assert f1[0] == faults[1] && f2[0] == faults[2] && f2[1..][0] == faults[3];
    assert Alone(s, c1, f1) == Alone(s1, c1.(stage := R.NextStage(s, c1, faults[1])), f2);
    if faults[1] == P.Works && r == s.counter + 1 {
      var c2 := R.Call(account, R.SavingRole(r));
      assert Alone(s1, c2, f2)
          == Alone(P.SaveRoleID(s1, account, r, faults[2]), c2.(stage := R.NextStage(s1, c2, faults[2])), f2[1..]);
      var s2, c3 := P.SaveRoleID(s1, account, r, faults[2]), R.Call(account, R.SavingProfile(r));
      assert f2[1..][1..] == [];
      var s3 := P.SaveProfile(s2, P.NewProfile(r, account), faults[3]);
      assert Alone(s2, c3, f2[1..]) == Alone(s3, c3.(stage := R.NextStage(s2, c3, faults[3])), []);
    }
  }

  /** A new role of a new account, on a store that had none for it. */
  function Resolved(s: P.Store, account: string, r: int, accountWritten: bool, profileWritten: bool): P.Store {
    P.Store(if accountWritten && account != "" then s.accounts[account := r] else s.accounts,
            if profileWritten then s.profiles[r := P.Profile(r, account, "Player-" + Token.Decimal(r), 1, 0, 100, 100)]
            else s.profiles, r)
  }

  /** Whether an operation took effect, with or without an error. */
  predicate Effective(fault: P.Fault) {
    fault != P.FailsBefore
  }

  /** What a call comes to that is alone, by what its four operations come to: a known account gets its role and
      nothing is written; otherwise the next role is counted, written and given a profile, as far as the first
      failure. */
  lemma ResolvesExactly(s: P.Store, account: string, load: P.Fault, count: P.Fault, save: P.Fault, profile: P.Fault)
    requires s.counter >= 0
    ensures var r, named := s.counter + 1, account != "";
            Alone(s, R.Call(account, R.Loading), [load, count, save, profile])
            == if named && load != P.Works then (s, R.Failed)
               else if named && account in s.accounts then (s, R.Done(s.accounts[account], true))
               else if count != P.Works then (if Effective(count) then s.(counter := r) else s, R.Failed)
               else if named && save != P.Works then (Resolved(s, account, r, Effective(save), false), R.Failed)
               else (Resolved(s, account, r, true, Effective(profile)),
                     if profile == P.Works then R.Done(r, false) else R.Failed)
  {
    var faults, r := [load, count, save, profile], s.counter + 1;
    var call := R.Call(account, R.Loading);
    if P.LoadRoleID(s, account, load).Missing? {
      AloneUnfolds(s, account, r, faults);
    } else {
      assert Alone(s, call, faults) == (s, R.NextStage(s, call, load));
    }
  }

  /** Resolving a named account again, whatever happens after the load, returns the same role and writes nothing. */
  lemma ResolvesTwice(s: P.Store, account: string, faults: seq<P.Fault>)
    requires s.counter >= 0 && account != "" && account !in s.accounts && |faults| == 4 && faults[0] == P.Works
    ensures var (s1, stage1) := Alone(s, R.Call(account, R.Loading), [P.Works, P.Works, P.Works, P.Works]);
            && stage1 == R.Done(s.counter + 1, false)
            && Alone(s1, R.Call(account, R.Loading), faults) == (s1, R.Done(s.counter + 1, true))
  {
    ResolvesExactly(s, account, P.Works, P.Works, P.Works, P.Works);
    var (s1, stage1) := Alone(s, R.Call(account, R.Loading), [P.Works, P.Works, P.Works, P.Works]);
    assert faults == [faults[0], faults[1], faults[2], faults[3]];
    ResolvesExactly(s1, account, faults[0], faults[1], faults[2], faults[3]);
  }

  /** The machine's steps of call `i` alone. */
  function Steps(i: nat, faults: seq<P.Fault>): seq<R.Step> {
    if faults == [] then [] else [R.Advance(i, faults[0])] + Steps(i, faults[1..])
  }

  /** Running call `i` of the machine with nothing in between does to the store what the call alone does. */
  lemma {:induction false} AloneIsRun(v: R.Service, i: nat, faults: seq<P.Fault>) returns (w: R.Service, n: nat)
    requires i < |v.calls|
    decreases |faults|
    ensures n <= |faults| && |w.calls| == |v.calls|
    ensures R.At(v, Steps(i, faults[..n]), |Steps(i, faults[..n])|) == Option.Some(w)
    ensures (w.store, w.calls[i].stage) == Alone(v.store, v.calls[i], faults)
    ensures w.calls[i].account == v.calls[i].account
    ensures forall j | 0 <= j < |v.calls| && j != i :: w.calls[j] == v.calls[j]
  {
    if faults == [] || R.Ended(v.calls[i].stage) {
      w, n := v, 0;
    } else {
      var step := R.Advance(i, faults[0]);
      var m;
      w, m := AloneIsRun(R.Apply(v, step), i, faults[1..]);
      n := m + 1;
      assert faults[..n][1..] == faults[1..][..m];
      var more := Steps(i, faults[1..][..m]);
      assert Steps(i, faults[..n]) == [step] + more;
      Prepend(v, step, more, |more|);
    }
  }

  lemma {:induction false} Prepend(v: R.Service, step: R.Step, more: seq<R.Step>, n: nat)
    requires n <= |more| && R.Enabled(v, step)
    ensures R.At(v, [step] + more, n + 1) == R.At(R.Apply(v, step), more, n)
  {
    if n > 0 { Prepend(v, step, more, n - 1); }
    else { assert R.At(v, [step] + more, 0) == Option.Some(v); }
  }
}
