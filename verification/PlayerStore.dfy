/** The shared store of account roles and player profiles, with operations that can fail one at a time. */
module PlayerStore {
  import opened Prelude
  import Token

  datatype Profile = Profile(
    roleID: int, accountID: string, nickName: string, level: int, exp: int, gold: int, stamina: int)

  function NewProfile(roleID: int, accountID: string): Profile {
    Profile(roleID, accountID, "Player-" + Token.Decimal(roleID), 1, 0, 100, 100)
  }

  /** `counter` is the last role ID handed out. */
  datatype Store = Store(accounts: map<string, int>, profiles: map<int, Profile>, counter: int)

  /** How one store operation ends: well, or with an error that came before or after its effect. */
  datatype Fault = Works | FailsBefore | FailsAfter

  /** What a read finds. */
  datatype Lookup<+T> = Broken | Missing | Found(value: T)

  function LoadRoleID(s: Store, account: string, fault: Fault): Lookup<int> {
    if account == "" then Missing
    else if fault != Works then Broken
    else if account in s.accounts then Found(s.accounts[account])
    else Missing
  }

  function SaveRoleID(s: Store, account: string, roleID: int, fault: Fault): Store {
    if account == "" || roleID == 0 || fault == FailsBefore then s
    else s.(accounts := s.accounts[account := roleID])
  }

  /** Whether saving a role reports success: a skipped write always does. */
  predicate RoleSaved(account: string, roleID: int, fault: Fault) {
    account == "" || roleID == 0 || fault == Works
  }

  function LoadProfile(s: Store, roleID: int, fault: Fault): Lookup<Profile> {
    if roleID == 0 then Missing
    else if fault != Works then Broken
    else if roleID in s.profiles then Found(s.profiles[roleID])
    else Missing
  }

  function SaveProfile(s: Store, profile: Profile, fault: Fault): Store {
    if profile.roleID == 0 || fault == FailsBefore then s
    else s.(profiles := s.profiles[profile.roleID := profile])
  }

  predicate ProfileSaved(profile: Profile, fault: Fault) {
    profile.roleID == 0 || fault == Works
  }

  function NextUID(s: Store, fault: Fault): Store {
    if fault == FailsBefore then s else s.(counter := s.counter + 1)
  }

  /** Every profile is stored under its own role. */
  ghost predicate Keyed(s: Store) {
    forall r | r in s.profiles :: s.profiles[r].roleID == r
  }
}
