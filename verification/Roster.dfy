/**
 * The game process's players: who plays on which session, as the manager's two maps record it. Envelopes are handled
 * one at a time, each to its end.
 */
module Roster {
  import opened Prelude
  import opened Protocol
  import opened PlayerStore
  import A = PlayerActor
  import Dispatch
  import Token

  /** `contextID` is the session ID the modules see; `hooks` the lifecycle changes whose module hooks have run. */
  datatype Player = Player(
    playerID: int, sessionID: int, contextID: int, state: A.PlayerState, profile: Profile, hooks: seq<A.Change>)

  datatype Roster = Roster(players: map<int, Player>, sessions: map<int, int>, store: Store)

  // ---------- one player ----------

  function NewPlayer(playerID: int, sessionID: int, profile: Profile): Player {
    Player(playerID, sessionID, sessionID, A.Active, profile, [])
  }

  function Offline(p: Player): Player {
    if p.state == A.Active then p.(state := A.Offline, hooks := p.hooks + [A.Change(|p.hooks|, true)]) else p
  }

  function Resumed(p: Player, sessionID: int): Player {
    if p.state == A.Offline
    then
      p.(state := A.Active, sessionID := sessionID, contextID := sessionID,
         hooks := p.hooks + [A.Change(|p.hooks|, false)])
    else p
  }

  // ---------- the manager ----------

  /** Whether the player is there to be attached, or can be made. */
  predicate Obtains(r: Roster, playerID: int, load: Fault, save: Fault) {
    playerID in r.players
    || match LoadProfile(r.store, playerID, load)
       case Broken => false
       case Found(_) => true
       case Missing => ProfileSaved(NewProfile(playerID, ""), save)
  }

  function GetOrCreate(r: Roster, sessionID: int, playerID: int, load: Fault, save: Fault): Roster {
    if playerID in r.players then Rejoin(r, sessionID, playerID)
    else match LoadProfile(r.store, playerID, load)
      case Broken => r
      case Found(profile) => Register(r, NewPlayer(playerID, sessionID, profile))
      case Missing =>
        var profile := NewProfile(playerID, "");
        var s := r.(store := SaveProfile(r.store, profile, save));
        if ProfileSaved(profile, save) then Register(s, NewPlayer(playerID, sessionID, profile)) else s
  }

  function Rejoin(r: Roster, sessionID: int, playerID: int): Roster
    requires playerID in r.players
  {
    var p := r.players[playerID];
    r.(players := r.players[playerID := Resumed(p.(sessionID := sessionID), sessionID)],
       sessions := r.sessions[sessionID := p.playerID])
  }

  function Register(r: Roster, p: Player): Roster {
    r.(players := r.players[p.playerID := p], sessions := r.sessions[p.sessionID := p.playerID])
  }

  function MarkOffline(r: Roster, playerID: int, save: Fault): Roster {
    if playerID !in r.players then r
    else
      var p := r.players[playerID];
      Roster(r.players[playerID := Offline(p)], r.sessions - {p.sessionID}, SaveProfile(r.store, p.profile, save))
  }

  function DestroyPlayer(r: Roster, playerID: int): Roster {
    r.(players := r.players - {playerID})
  }

  /** The player a session stands for; an unknown session stands for player 0. */
  function GetBySessionID(r: Roster, sessionID: int): Option<Player> {
    var playerID := if sessionID in r.sessions then r.sessions[sessionID] else 0;
    if playerID in r.players then Some(r.players[playerID]) else None
  }

  /** Saves the players of `order` one after the other; every error is ignored. */
  function SaveEach(r: Roster, order: seq<int>, faults: map<int, Fault>): Roster {
    if order == [] then r
    else
      var s, last := SaveEach(r, order[..|order| - 1], faults), order[|order| - 1];
      if last in r.players then s.(store := SaveProfile(s.store, r.players[last].profile, FaultOf(faults, last))) else s
  }

  function FaultOf(faults: map<int, Fault>, playerID: int): Fault {
    if playerID in faults then faults[playerID] else Works
  }

  // ---------- one envelope ----------

  function Resolve(r: Roster, env: Envelope): int {
    if env.playerId == 0 && env.sessionId != 0 && GetBySessionID(r, env.sessionId).Some?
    then GetBySessionID(r, env.sessionId).value.playerID
    else env.playerId
  }

  datatype Act = Ignore | Leave(playerID: int) | Attach(sessionID: int, playerID: int, explicit: bool)

  function ActOf(r: Roster, env: Envelope): Act {
    var playerID := Resolve(r, env);
    if env.msgId == MSG_PLAYER_OFFLINE_NOTIFY then if playerID != 0 then Leave(playerID) else Ignore
    else if env.msgId == MSG_PLAYER_RESUME_REQ then
      if playerID == 0 then Ignore else Attach(env.sessionId, playerID, true)
    else Attach(env.sessionId, playerID, false)
  }

  /** The resume module's answer to an explicit resume request. */
  function HandleResume(r: Roster, playerID: int, sessionID: int): Roster
    requires playerID in r.players
  {
    r.(players := r.players[playerID := Resumed(r.players[playerID], sessionID)])
  }

  /** `dispatched` says whether the request reached its module: the inbox may be full or the reply late. */
  function OnEnvelope(r: Roster, env: Envelope, load: Fault, save: Fault, dispatched: bool): Roster {
    match ActOf(r, env)
    case Ignore => r
    case Leave(playerID) => MarkOffline(r, playerID, save)
    case Attach(sessionID, playerID, explicit) => OnAttach(r, sessionID, playerID, load, save, explicit && dispatched)
  }

  /** What is written back for the envelope: a business message's answer, if there is one. */
  function Reply(r: Roster, env: Envelope, load: Fault, save: Fault, fate: Dispatch.Fate): Option<Envelope> {
    match ActOf(r, env)
    case Attach(_, playerID, explicit) =>
      var outcome := Dispatch.OutcomeOf(fate);
      if !explicit && Obtains(r, playerID, load, save) && outcome.Answered? then outcome.envelope else None
    case _ => None
  }

  /** The player is obtained; `handled` says whether the resume module then works on it. */
  function OnAttach(r: Roster, sessionID: int, playerID: int, load: Fault, save: Fault, handled: bool): Roster {
    var s := GetOrCreate(r, sessionID, playerID, load, save);
    if handled && Obtains(r, playerID, load, save) && playerID in s.players
    then HandleResume(s, playerID, sessionID) else s
  }

  datatype Step =
    | Receive(env: Envelope, load: Fault, save: Fault, dispatched: bool)
    | Persist(order: seq<int>, faults: map<int, Fault>)
    | Destroy(playerID: int)
    | Others(store: Store)

  /** Other processes leave the store well keyed. */
  ghost predicate Enabled(step: Step) {
    step.Others? ==> Keyed(step.store)
  }

  function Apply(r: Roster, step: Step): Roster {
    match step
    case Receive(env, load, save, dispatched) => OnEnvelope(r, env, load, save, dispatched)
    case Persist(order, faults) => SaveEach(r, order, faults)
    case Destroy(playerID) => DestroyPlayer(r, playerID)
    case Others(store) => r.(store := store)
  }

  function After(r: Roster, run: seq<Step>, n: nat): Roster
    requires n <= |run|
  {
    if n == 0 then r else Apply(After(r, run, n - 1), run[n - 1])
  }

  ghost predicate IsRun(r: Roster, run: seq<Step>) {
    && r.players == map[] && r.sessions == map[] && Keyed(r.store)
    && forall n | 0 <= n < |run| :: Enabled(run[n])
  }

  // ---------- what always holds ----------

  /** A registered player has its own ID and role, is not destroyed, and its hooks alternated, OnOffline first. */
  ghost predicate PlayerOk(p: Player, playerID: int) {
    && p.playerID == playerID == p.profile.roleID
    && p.state != A.Destroyed
    && p.hooks == A.Alternation(|p.hooks|)
    && (p.state == A.Active <==> |p.hooks| % 2 == 0)
  }

  ghost predicate Sound(r: Roster) {
    Keyed(r.store) && forall id | id in r.players :: PlayerOk(r.players[id], id)
  }

  lemma HooksGrow(p: Player, playerID: int, sessionID: int)
    requires PlayerOk(p, playerID)
    ensures PlayerOk(Offline(p), playerID) && PlayerOk(Resumed(p.(sessionID := sessionID), sessionID), playerID)
    ensures PlayerOk(Resumed(p, sessionID), playerID)
  {}

  lemma AttachSound(r: Roster, sessionID: int, playerID: int, load: Fault, save: Fault)
    requires Sound(r)
    ensures Sound(GetOrCreate(r, sessionID, playerID, load, save))
    ensures Obtains(r, playerID, load, save) ==> playerID in GetOrCreate(r, sessionID, playerID, load, save).players
  {
    if playerID in r.players {
      HooksGrow(r.players[playerID], playerID, sessionID);
    }
  }

  lemma {:induction false} SaveEachKeepsPlayers(r: Roster, order: seq<int>, faults: map<int, Fault>)
    ensures SaveEach(r, order, faults).players == r.players && SaveEach(r, order, faults).sessions == r.sessions
    ensures Keyed(r.store) ==> Keyed(SaveEach(r, order, faults).store)
  {
    if order != [] { SaveEachKeepsPlayers(r, order[..|order| - 1], faults); }
  }

  lemma StepSound(r: Roster, step: Step)
    requires Sound(r) && Enabled(step)
    ensures Sound(Apply(r, step))
  {
    match step
    case Receive(env, load, save, dispatched) =>
      match ActOf(r, env) {
        case Ignore =>
        case Leave(playerID) =>
          if playerID in r.players { HooksGrow(r.players[playerID], playerID, 0); }
        case Attach(sessionID, playerID, explicit) =>
          AttachSound(r, sessionID, playerID, load, save);
          var s := GetOrCreate(r, sessionID, playerID, load, save);
          if playerID in s.players { HooksGrow(s.players[playerID], playerID, sessionID); }
      }
    case Persist(order, faults) => SaveEachKeepsPlayers(r, order, faults);
    case Destroy(_) =>
    case Others(_) =>
  }

  /** Whatever arrives and whatever fails. */
  lemma {:induction false} AlwaysSound(r: Roster, run: seq<Step>, n: nat)
    requires IsRun(r, run) && n <= |run|
    ensures Sound(After(r, run, n))
  {
    if n > 0 {
      AlwaysSound(r, run, n - 1);
      StepSound(After(r, run, n - 1), run[n - 1]);
    }
  }

  // ---------- the session index ----------

  /** An active player can be found by its session. */
  ghost predicate Findable(r: Roster, id: int)
    requires id in r.players
  {
    var p := r.players[id];
    p.state == A.Active ==> p.sessionID in r.sessions && r.sessions[p.sessionID] == id
  }

  ghost predicate Indexed(r: Roster) {
    forall id | id in r.players :: Findable(r, id)
  }

  /** The player a step works for and the index entry it writes or deletes, if any. */
  function Touches(r: Roster, step: Step): Option<(int, int)> {
    if !step.Receive? then None
    else match ActOf(r, step.env)
      case Ignore => None
      case Leave(playerID) => if playerID in r.players then Some((playerID, r.players[playerID].sessionID)) else None
      case Attach(sessionID, playerID, _) =>
        if Obtains(r, playerID, step.load, step.save) then Some((playerID, sessionID)) else None
  }

  /** No other active player is on the session. */
  ghost predicate NoneElseOn(r: Roster, playerID: int, sessionID: int) {
    forall id | id in r.players && id != playerID && r.players[id].state == A.Active ::
      r.players[id].sessionID != sessionID
  }

  /** That entry belongs to no other active player. */
  ghost predicate Guard(r: Roster, step: Step) {
    Touches(r, step).Some? ==>
      var (playerID, sessionID) := Touches(r, step).value;
      NoneElseOn(r, playerID, sessionID)
  }

  /** What an attach that succeeds leaves: the player is active on the session, and found by it. */
  lemma AttachEndsActive(r: Roster, sessionID: int, playerID: int, load: Fault, save: Fault)
    requires Sound(r) && Obtains(r, playerID, load, save)
    ensures var s := GetOrCreate(r, sessionID, playerID, load, save);
            && playerID in s.players
            && s.players[playerID].state == A.Active && s.players[playerID].sessionID == sessionID
            && s.sessions == r.sessions[sessionID := playerID]
            && s.players == r.players[playerID := s.players[playerID]]
            && HandleResume(s, playerID, sessionID) == s
            && GetOrCreate(s, sessionID, playerID, load, save) == s
  {
    var s := GetOrCreate(r, sessionID, playerID, load, save);
    assert playerID in r.players ==> PlayerOk(r.players[playerID], playerID);
    assert s.players == s.players[playerID := s.players[playerID]];
    assert s.sessions == s.sessions[sessionID := playerID];
  }

  lemma AttachChanges(r: Roster, env: Envelope, load: Fault, save: Fault, dispatched: bool)
    requires Sound(r) && ActOf(r, env).Attach? && Obtains(r, ActOf(r, env).playerID, load, save)
    ensures var Attach(sessionID, playerID, _) := ActOf(r, env);
            OnEnvelope(r, env, load, save, dispatched) == GetOrCreate(r, sessionID, playerID, load, save)
  {
    AttachEndsActive(r, ActOf(r, env).sessionID, ActOf(r, env).playerID, load, save);
  }

  /** A step keeps the index right exactly when it leaves other active players' entries alone. */
  lemma StepIndexedExactly(r: Roster, step: Step)
    requires Sound(r) && Indexed(r) && Enabled(step)
    ensures Indexed(Apply(r, step)) <==> Guard(r, step)
  {
    if step.Persist? { SaveEachKeepsPlayers(r, step.order, step.faults); }
    var s := Apply(r, step);
    if Touches(r, step).Some? {
      var (playerID, sessionID) := Touches(r, step).value;
      if ActOf(r, step.env).Attach? {
        AttachChanges(r, step.env, step.load, step.save, step.dispatched);
        AttachEndsActive(r, sessionID, playerID, step.load, step.save);
        IndexExactly(r, s, playerID, sessionID, Some(playerID));
      } else {
        assert PlayerOk(r.players[playerID], playerID);
        IndexExactly(r, s, playerID, sessionID, None);
      }
    } else {
      assert s.players.Keys <= r.players.Keys && s.sessions == r.sessions;
      forall id | id in s.players ensures Findable(s, id) { assert Findable(r, id); }
    }
  }

  lemma IndexExactly(r: Roster, s: Roster, playerID: int, sessionID: int, entry: Option<int>)
    requires Indexed(r) && (entry == None || entry == Some(playerID))
    requires s.sessions == if entry == None then r.sessions - {sessionID} else r.sessions[sessionID := playerID]
    requires playerID in s.players && s.players == r.players[playerID := s.players[playerID]]
    requires s.players[playerID].sessionID == sessionID && (s.players[playerID].state == A.Active <==> entry.Some?)
    ensures Indexed(s)
            <==> NoneElseOn(r, playerID, sessionID)
  {
    forall id | id in r.players && id != playerID
      ensures Findable(s, id) <==> (r.players[id].state == A.Active ==> r.players[id].sessionID != sessionID)
    {
      assert Findable(r, id);
    }
    assert Findable(s, playerID);
  }

  ghost predicate GuardAt(r: Roster, run: seq<Step>, n: nat)
    requires n < |run|
  {
    Guard(After(r, run, n), run[n])
  }

  lemma RunStepIndexed(r: Roster, run: seq<Step>, n: nat)
    requires IsRun(r, run) && n < |run| && Indexed(After(r, run, n))
    ensures Indexed(After(r, run, n + 1)) <==> GuardAt(r, run, n)
  {
    AlwaysSound(r, run, n);
    StepIndexedExactly(After(r, run, n), run[n]);
  }

  ghost predicate IndexedUpTo(r: Roster, run: seq<Step>, n: nat)
    requires n <= |run|
  {
    forall m | 0 <= m <= n :: Indexed(After(r, run, m))
  }

  /** Over a whole run: the index is right at every moment exactly when every step so far respected the guard. */
  lemma {:induction false} IndexedExactly(r: Roster, run: seq<Step>, n: nat)
    requires IsRun(r, run) && n <= |run|
    ensures IndexedUpTo(r, run, n) <==> forall m | 0 <= m < n :: GuardAt(r, run, m)
  {
    if n == 0 {
      assert Indexed(After(r, run, 0));
    } else {
      IndexedExactly(r, run, n - 1);
      assert IndexedUpTo(r, run, n) <==> IndexedUpTo(r, run, n - 1) && Indexed(After(r, run, n));
      if IndexedUpTo(r, run, n - 1) { RunStepIndexed(r, run, n - 1); }
    }
  }

  /** Each session is used by one player: `owner` names it. */
  ghost predicate Respects(r: Roster, owner: int -> int, step: Step) {
    step.Receive? && ActOf(r, step.env).Attach? ==> owner(ActOf(r, step.env).sessionID) == ActOf(r, step.env).playerID
  }

  ghost predicate Owned(r: Roster, owner: int -> int) {
    forall id | id in r.players :: owner(r.players[id].sessionID) == id
  }

  lemma StepOwned(r: Roster, owner: int -> int, step: Step)
    requires Sound(r) && Owned(r, owner) && Respects(r, owner, step)
    ensures Owned(Apply(r, step), owner) && Guard(r, step)
  {
    if step.Persist? { SaveEachKeepsPlayers(r, step.order, step.faults); }
    if step.Receive? && ActOf(r, step.env).Attach? {
      var Attach(sessionID, playerID, _) := ActOf(r, step.env);
      if Obtains(r, playerID, step.load, step.save) {
        AttachChanges(r, step.env, step.load, step.save, step.dispatched);
        AttachEndsActive(r, sessionID, playerID, step.load, step.save);
      }
    }
  }

  ghost predicate RespectsAt(r: Roster, owner: int -> int, run: seq<Step>, n: nat)
    requires n < |run|
  {
    Respects(After(r, run, n), owner, run[n])
  }

  lemma {:induction false} OwnedRuns(r: Roster, owner: int -> int, run: seq<Step>, n: nat)
    requires IsRun(r, run) && n <= |run| && forall m | 0 <= m < n :: RespectsAt(r, owner, run, m)
    ensures Owned(After(r, run, n), owner)
    ensures forall m | 0 <= m < n :: GuardAt(r, run, m)
  {
    if n > 0 {
      OwnedRuns(r, owner, run, n - 1);
      AlwaysSound(r, run, n - 1);
      assert RespectsAt(r, owner, run, n - 1);
      StepOwned(After(r, run, n - 1), owner, run[n - 1]);
      assert GuardAt(r, run, n - 1);
    }
  }

  /** With one player per session the index is always right, and no two players are on one session. */
  lemma OwnedSessionsIndexed(r: Roster, owner: int -> int, run: seq<Step>, n: nat)
    requires IsRun(r, run) && n <= |run| && forall m | 0 <= m < n :: RespectsAt(r, owner, run, m)
    ensures Indexed(After(r, run, n))
    ensures var s := After(r, run, n);
            forall a, b | a in s.players && b in s.players && s.players[a].sessionID == s.players[b].sessionID :: a == b
  {
    OwnedRuns(r, owner, run, n);
    IndexedExactly(r, run, n);
  }

  /** An envelope without a player ID reaches the active player on its session. */
  lemma EnvelopeFindsPlayer(r: Roster, env: Envelope, id: int)
    requires Sound(r) && Indexed(r) && id in r.players && r.players[id].state == A.Active
    requires env.playerId == 0 && env.sessionId != 0 && env.sessionId == r.players[id].sessionID
    ensures Resolve(r, env) == id
  {
    assert Findable(r, id) && PlayerOk(r.players[id], id);
  }

  /** Without one player per session: the second player takes the first one's index entry, and marking it offline
      drops the entry altogether. */
  lemma SharedSessionLosesPlayer(store: Store)
    requires Keyed(store)
    ensures exists run :: && IsRun(Roster(map[], map[], store), run)
                       && var s := After(Roster(map[], map[], store), run, |run|);
                       && 1 in s.players && s.players[1].state == A.Active && s.players[1].sessionID == 5
                       && 5 !in s.sessions
  {
    var r := Roster(map[], map[], store);
    var hello := (id: int) => Receive(Envelope(MSG_GAME_BEGIN, 5, id, []), Works, Works, true);
    var bye := Receive(Envelope(MSG_PLAYER_OFFLINE_NOTIFY, 5, 2, []), Works, Works, true);
    var run := [hello(1), hello(2), bye];
    assert IsRun(r, run) && After(r, run, 0) == r;
    var s1 := GetOrCreate(r, 5, 1, Works, Works);
    assert After(r, run, 1) == s1;
    assert s1.players.Keys == {1} && s1.players[1].sessionID == 5 && s1.players[1].state == A.Active;
    SecondArrival(s1);
    assert After(r, run, 3) == MarkOffline(After(r, run, 2), 2, Works);
  }

  lemma SecondArrival(r: Roster)
    requires r.players.Keys == {1}
    ensures var s := GetOrCreate(r, 5, 2, Works, Works);
            && s.players.Keys == {1, 2} && s.players[1] == r.players[1] && s.players[2].sessionID == 5
  {}

  // ---------- answers ----------

  /** An envelope is answered exactly if it is a business message, the player it resolves to is there afterwards, and
      the module that decided on it answered with that envelope and without error. */
  lemma ReplyExactly(
      r: Roster, env: Envelope, load: Fault, save: Fault, dispatched: bool, fate: Dispatch.Fate, e: Envelope)
    requires Sound(r)
    ensures Reply(r, env, load, save, fate) == Some(e)
            <==> && env.msgId != MSG_PLAYER_OFFLINE_NOTIFY && env.msgId != MSG_PLAYER_RESUME_REQ
                 && Resolve(r, env) in OnEnvelope(r, env, load, save, dispatched).players
                 && fate.Delivered? && var n := Dispatch.Ending(fate.modules);
                    n < |fate.modules|
                    && fate.modules[n] == Dispatch.Takes(Dispatch.Returns(Dispatch.Result(Some(e), true, None)))
  {
    Dispatch.EnvelopeExactly(fate, e);
    ObtainedExactly(r, env.sessionId, Resolve(r, env), load, save);
  }

  /** A player is there after an attach exactly if it was obtained. */
  lemma ObtainedExactly(r: Roster, sessionID: int, playerID: int, load: Fault, save: Fault)
    ensures playerID in GetOrCreate(r, sessionID, playerID, load, save).players <==> Obtains(r, playerID, load, save)
  {}

  // ---------- profiles ----------

  /** Where the profile of an attached player comes from, and what the attach writes to the store: a player who is
      there keeps it, a stored one is loaded, a new one is made and saved; a failed load changes nothing, and a failed
      save makes no player. */
  lemma ProfileOnAttach(r: Roster, sessionID: int, id: int, load: Fault, save: Fault)
    requires Sound(r) && id != 0
    ensures var s, made := GetOrCreate(r, sessionID, id, load, save),
                           Profile(id, "", "Player-" + Token.Decimal(id), 1, 0, 100, 100);
            if id in r.players then
              id in s.players && s.players[id].profile == r.players[id].profile && s.store == r.store
            else if load != Works then s == r
            else if id in r.store.profiles then
              id in s.players && s.players[id].profile == r.store.profiles[id] && s.store == r.store
            else
              && (id in s.players <==> save == Works) && (id in s.players ==> s.players[id].profile == made)
              && (save != Works ==> s.players == r.players && s.sessions == r.sessions)
              && s.store == r.store.(profiles := if save == FailsBefore then r.store.profiles
                                                 else r.store.profiles[id := made])
  {}

  /** A destroyed player is forgotten: an envelope on its session that names no player finds nobody, nobody else is
      affected, and when the player comes back it is a new one. */
  lemma DestroyForgets(r: Roster, id: int, env: Envelope, load: Fault, save: Fault)
    requires Sound(r) && Indexed(r) && id in r.players && r.players[id].state == A.Active
    requires env.playerId == 0 && env.sessionId != 0 && env.sessionId == r.players[id].sessionID
    ensures var s := DestroyPlayer(r, id);
            && Resolve(r, env) == id && Resolve(s, env) == 0
            && s.players.Keys == r.players.Keys - {id}
            && (forall other | other in s.players :: s.players[other] == r.players[other])
            && var t := GetOrCreate(s, env.sessionId, id, load, save);
               id in t.players ==> t.players[id].hooks == [] && t.players[id].state == A.Active
  {
    EnvelopeFindsPlayer(r, env, id);
  }

  // ---------- what repeating and undoing does ----------

  /** A repeated offline notification adds nothing but a second attempt to save. */
  lemma MarkOfflineTwice(r: Roster, playerID: int, f: Fault, g: Fault)
    ensures MarkOffline(MarkOffline(r, playerID, f), playerID, g)
         == MarkOffline(r, playerID, if f == FailsBefore then g else f)
  {
    if playerID in r.players {
      var p := r.players[playerID];
      assert r.players[playerID := Offline(p)][playerID := Offline(p)] == r.players[playerID := Offline(p)];
      assert r.sessions - {p.sessionID} - {p.sessionID} == r.sessions - {p.sessionID};
      if p.profile.roleID != 0 {
        var saved := r.store.profiles[p.profile.roleID := p.profile];
        assert saved[p.profile.roleID := p.profile] == saved;
      }
    }
  }

  /** A player who went offline and was saved comes back with the same profile: by resuming, or after being
      destroyed. */
  lemma ProfileSurvives(r: Roster, id: int, sessionID: int, save: Fault, load: Fault, again: Fault)
    requires Sound(r) && id in r.players && id != 0 && save != FailsBefore && load == Works
    ensures var left := MarkOffline(r, id, save);
            var resumed := GetOrCreate(left, sessionID, id, load, again);
            var reborn := GetOrCreate(DestroyPlayer(left, id), sessionID, id, load, again);
            && id in resumed.players && resumed.players[id].profile == r.players[id].profile
            && id in reborn.players && reborn.players[id].profile == r.players[id].profile
            && resumed.players[id].state == reborn.players[id].state == A.Active
  {
    assert PlayerOk(r.players[id], id);
  }

  /** The periodic save: each listed player's profile is stored unless its operation failed, nothing else changes. */
  lemma {:induction false} SaveEachExact(r: Roster, order: seq<int>, faults: map<int, Fault>, id: int)
    requires Sound(r)
    ensures var s := SaveEach(r, order, faults).store;
            && s.accounts == r.store.accounts && s.counter == r.store.counter
            && if id in order && id in r.players && id != 0 && FaultOf(faults, id) != FailsBefore
               then id in s.profiles && s.profiles[id] == r.players[id].profile
               else && (id in s.profiles <==> id in r.store.profiles)
                    && (id in s.profiles ==> s.profiles[id] == r.store.profiles[id])
  {
    if order != [] {
      var init, last := order[..|order| - 1], order[|order| - 1];
      SaveEachExact(r, init, faults, id);
      assert order == init + [last];
      assert last in r.players ==> PlayerOk(r.players[last], last);
    }
  }

  // ---------- the session the modules see ----------

  /** Every player's modules see the session the player is on. */
  ghost predicate ContextRight(r: Roster) {
    forall id | id in r.players :: r.players[id].contextID == r.players[id].sessionID
  }

  /** The step attaches a player who is still active to another session than the one it is on. */
  predicate Switches(r: Roster, step: Step) {
    step.Receive? &&
    match ActOf(r, step.env)
    case Attach(sessionID, playerID, _) =>
      && playerID in r.players
      && r.players[playerID].state == A.Active && r.players[playerID].sessionID != sessionID
    case _ => false
  }

  lemma StepContextExactly(r: Roster, step: Step)
    requires Sound(r) && ContextRight(r)
    ensures ContextRight(Apply(r, step)) <==> !Switches(r, step)
  {
    if step.Persist? { SaveEachKeepsPlayers(r, step.order, step.faults); }
    if step.Receive? && ActOf(r, step.env).Attach? {
      var Attach(sessionID, playerID, _) := ActOf(r, step.env);
      if Obtains(r, playerID, step.load, step.save) {
        AttachChanges(r, step.env, step.load, step.save, step.dispatched);
        AttachEndsActive(r, sessionID, playerID, step.load, step.save);
        ContextFollowsExactly(r, sessionID, playerID, step.load, step.save);
      }
    }
  }

  ghost predicate ContextRightUpTo(r: Roster, run: seq<Step>, n: nat)
    requires n <= |run|
  {
    forall m | 0 <= m <= n :: ContextRight(After(r, run, m))
  }

  predicate SwitchesAt(r: Roster, run: seq<Step>, n: nat)
    requires n < |run|
  {
    Switches(After(r, run, n), run[n])
  }

  lemma RunStepContext(r: Roster, run: seq<Step>, n: nat)
    requires IsRun(r, run) && n < |run| && ContextRight(After(r, run, n))
    ensures ContextRight(After(r, run, n + 1)) <==> !SwitchesAt(r, run, n)
  {
    AlwaysSound(r, run, n);
    StepContextExactly(After(r, run, n), run[n]);
  }

  /** Over a whole run: the modules see the right session at every moment exactly when no step moved a player who was
      still active to another session. */
  lemma {:induction false} ContextExactly(r: Roster, run: seq<Step>, n: nat)
    requires IsRun(r, run) && n <= |run|
    ensures ContextRightUpTo(r, run, n) <==> forall m | 0 <= m < n :: !SwitchesAt(r, run, m)
  {
    if n == 0 {
      assert ContextRight(After(r, run, 0));
    } else {
      ContextExactly(r, run, n - 1);
      assert ContextRightUpTo(r, run, n) <==> ContextRightUpTo(r, run, n - 1) && ContextRight(After(r, run, n));
      if ContextRightUpTo(r, run, n - 1) { RunStepContext(r, run, n - 1); }
    }
  }

  /** A lag is reachable: two messages of one player, on two sessions. */
  lemma ContextCanLag(store: Store)
    requires Keyed(store)
    ensures exists run ::
              IsRun(Roster(map[], map[], store), run) && !ContextRight(After(Roster(map[], map[], store), run, |run|))
  {
    var r := Roster(map[], map[], store);
    var first := Receive(Envelope(MSG_GAME_BEGIN, 5, 1, []), Works, Works, true);
    var second := Receive(Envelope(MSG_GAME_BEGIN, 6, 1, []), Works, Works, true);
    var run := [first, second];
    assert IsRun(r, run) && After(r, run, 0) == r;
    AttachEndsActive(r, 5, 1, Works, Works);
    assert After(r, run, 1) == GetOrCreate(r, 5, 1, Works, Works);
    assert SwitchesAt(r, run, 1);
    if ContextRight(After(r, run, 1)) { RunStepContext(r, run, 1); }
    assert After(r, run, 1).players.Keys == {1};
    ContextFollowsExactly(r, 5, 1, Works, Works);
  }

  /** After one attach the modules see the player's session unless the player was active and they saw another one. */
  lemma ContextFollowsExactly(r: Roster, sessionID: int, playerID: int, load: Fault, save: Fault)
    requires Sound(r) && Obtains(r, playerID, load, save)
    ensures var s := GetOrCreate(r, sessionID, playerID, load, save);
            playerID in s.players
            && (s.players[playerID].contextID == s.players[playerID].sessionID
                <==> (playerID in r.players && r.players[playerID].state == A.Active ==>
                        r.players[playerID].contextID == sessionID))
  {
    assert playerID in r.players ==> PlayerOk(r.players[playerID], playerID);
  }
}
