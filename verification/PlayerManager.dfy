/** The player manager and the game server's envelope handling as objects, doing what the roster machine does. */
module PlayerManager {
  import opened Prelude
  import opened Protocol
  import P = PlayerStore
  import R = Roster
  import Dispatch
  import opened Player
  import opened LoginService

  class PlayerManager {
    var players: map<int, Player>
    var sessions: map<int, int>
    const store: RedisStore

    /** The players are distinct objects, each between lifecycle changes. */
    ghost predicate Valid()
      reads this, players.Values
    {
      && (forall id | id in players :: players[id].Valid() && players[id].Quiet())
      && (forall a, b | a in players && b in players && players[a] == players[b] :: a == b)
    }

    /** `p` is no other player. */
    ghost predicate Others(p: Player, playerID: int)
      reads this
    {
      forall id | id in players && id != playerID :: players[id] != p
    }

    ghost function View(): R.Roster
      reads this, store, players.Values
    {
      R.Roster(map id | id in players :: players[id].Record(), sessions, store.View())
    }

    /** Only the player under `playerID` was written, or put there. */
    twostate lemma PlayerWritten(playerID: int, new p: Player)
      requires old(Valid()) && players == old(players)[playerID := p]
      requires p.Valid() && p.Quiet()
      requires forall id | id in old(players) && id != playerID :: unchanged(old(players)[id]) && old(players)[id] != p
      ensures Valid() && View().players == old(View()).players[playerID := p.Record()]
    {
      forall id | id in players && id != playerID
        ensures players[id].Valid() && players[id].Quiet() && players[id].Record() == old(players[id].Record())
      {
        assert unchanged(old(players)[id]);
      }
    }

    /** Only the player under `playerID` was written, and it is gone. */
    twostate lemma PlayerRemoved(playerID: int)
      requires old(Valid()) && players == old(players) - {playerID}
      requires forall id | id in players :: unchanged(old(players)[id])
      ensures Valid() && View().players == old(View()).players - {playerID}
    {
      forall id | id in players
        ensures players[id].Valid() && players[id].Quiet() && players[id].Record() == old(players[id].Record())
      {
        assert unchanged(old(players)[id]);
      }
    }

    constructor (store: RedisStore)
      ensures this.store == store && Valid() && View() == R.Roster(map[], map[], store.View())
    {
      this.store, players, sessions := store, map[], map[];
    }

    method GetOrCreate(sessionID: int, playerID: int, load: P.Fault, save: P.Fault) returns (p: Player?)
      requires Valid()
      modifies this, store, players.Values
      ensures Valid() && View() == R.GetOrCreate(old(View()), sessionID, playerID, load, save)
      ensures p != null <==> R.Obtains(old(View()), playerID, load, save)
      ensures p != null ==> playerID in players && players[playerID] == p
      ensures fresh(players.Values - old(players.Values))
    {
      if playerID in players {
        p := Rejoin(sessionID, playerID);
        return;
      }
      var found := store.LoadProfile(playerID, load);
      if found.Broken? { return null; }
      if found.Found? {
        p := Enrol(sessionID, playerID, found.value);
        return;
      }
      var profile := P.NewProfile(playerID, "");
      var ok := SaveProfile(profile, save);
      if !ok { return null; }
      p := Enrol(sessionID, playerID, profile);
    }

    method SaveProfile(profile: P.Profile, save: P.Fault) returns (ok: bool)
      requires Valid()
      modifies store
      ensures Valid() && View() == old(View()).(store := P.SaveProfile(old(View()).store, profile, save))
      ensures ok == P.ProfileSaved(profile, save)
    {
      ghost var v := View();
      ok := store.SaveProfile(profile, save);
      assert View().players == v.players;
    }

    /** A known player moves to the session. */
    method Rejoin(sessionID: int, playerID: int) returns (p: Player)
      requires Valid() && playerID in players
      modifies this`sessions, players[playerID]
      ensures Valid() && View() == R.Rejoin(old(View()), sessionID, playerID) && p == players[playerID]
    {
      p := players[playerID];
      assert Others(p, playerID);
      p.sessionID := sessionID;
      p.OnResume(sessionID);
      sessions := sessions[sessionID := p.playerID];
      assert players == old(players)[playerID := p];
      PlayerWritten(playerID, p);
    }

    /** A player not known yet starts on the session. */
    method Enrol(sessionID: int, playerID: int, profile: P.Profile) returns (p: Player)
      requires Valid() && playerID !in players
      modifies this
      ensures Valid() && View() == R.Register(old(View()), R.NewPlayer(playerID, sessionID, profile))
      ensures fresh(p) && players == old(players)[playerID := p]
    {
      p := new Player(playerID, sessionID, profile);
      players := players[playerID := p];
      sessions := sessions[sessionID := playerID];
      PlayerWritten(playerID, p);
    }

    /** The player's resume module handles the request. */
    method ResumeExplicitly(p: Player, playerID: int, env: Envelope)
      requires Valid() && playerID in players && players[playerID] == p && env.msgId == MSG_PLAYER_RESUME_REQ
      modifies p
      ensures Valid() && View() == R.HandleResume(old(View()), playerID, env.sessionId)
    {
      assert Others(p, playerID);
      var m := new ResumeModule(p);
      if m.CanHandle(env.msgId) { var r := m.Handle(env); }
      assert players == old(players)[playerID := p];
      PlayerWritten(playerID, p);
    }

    method MarkOffline(playerID: int, save: P.Fault)
      requires Valid()
      modifies this, store, players.Values
      ensures Valid() && View() == R.MarkOffline(old(View()), playerID, save) && players == old(players)
    {
      ghost var v := View();
      if playerID !in players { return; }
      var p := players[playerID];
      assert Others(p, playerID);
      var ok := store.SaveProfile(p.profile, save);
      p.OnOffline();
      sessions := sessions - {p.sessionID};
      assert players == old(players)[playerID := p];
      PlayerWritten(playerID, p);
    }

    /** The player is forgotten first; destroying it then takes effect only if it is offline. */
    method DestroyPlayer(playerID: int)
      requires Valid()
      modifies this, players.Values
      ensures Valid() && View() == R.DestroyPlayer(old(View()), playerID)
      ensures playerID in old(players) ==>
                old(players)[playerID].state == if old(players[playerID].state) == R.A.Offline then R.A.Destroyed
                                                else old(players[playerID].state)
    {
      ghost var v := View();
      if playerID in players {
        var p := players[playerID];
        assert Others(p, playerID);
        players := players - {playerID};
        p.Destroy();
        PlayerRemoved(playerID);
      } else {
        assert players == players - {playerID};
        assert View().players == v.players - {playerID};
      }
    }

    method GetBySessionID(sessionID: int) returns (p: Player?)
      ensures p == null <==> R.GetBySessionID(View(), sessionID) == None
      ensures p != null ==> R.GetBySessionID(View(), sessionID) == Some(p.Record()) && p in players.Values
    {
      var playerID := if sessionID in sessions then sessions[sessionID] else 0;
      return if playerID in players then players[playerID] else null;
    }

    /** Saves the players in some order, each once. */
    method SaveAll(faults: map<int, P.Fault>) returns (ghost order: seq<int>)
      requires Valid()
      modifies store
      ensures Valid() && View() == R.SaveEach(old(View()), order, faults)
      ensures forall id :: id in order <==> id in players
      ensures |order| == |players|
    {
      ghost var v := View();
      order := [];
      var snapshot := players.Keys;
      while snapshot != {}
        invariant snapshot <= players.Keys
        invariant View() == R.SaveEach(v, order, faults)
        invariant forall id :: id in order <==> id in players && id !in snapshot
        invariant |order| + |snapshot| == |players|
        decreases snapshot
      {
        var id := Pick(snapshot);
        SaveNext(id, faults, v, order);
        order := order + [id];
        snapshot := snapshot - {id};
      }
    }

    method SaveNext(id: int, faults: map<int, P.Fault>, ghost v: R.Roster, ghost order: seq<int>)
      requires Valid() && id in players && View() == R.SaveEach(v, order, faults)
      modifies store
      ensures Valid() && View() == R.SaveEach(v, order + [id], faults)
    {
      ghost var before := View();
      var ok := store.SaveProfile(players[id].profile, R.FaultOf(faults, id));
      R.SaveEachKeepsPlayers(v, order, faults);
      assert (order + [id])[..|order|] == order;
      assert View().players == before.players;
    }
  }

  class Server {
    const players: PlayerManager

    constructor (players: PlayerManager)
      ensures this.players == players
    {
      this.players := players;
    }

    /** One round of a connection's read loop: which player the envelope is for, and what becomes of it. `dispatched`
        says whether a resume request reached its module, `fate` how the dispatch of a business message goes. */
    method HandleEnvelope(env: Envelope, load: P.Fault, save: P.Fault, dispatched: bool, fate: Dispatch.Fate)
      returns (reply: Option<Envelope>)
      requires players.Valid()
      modifies players, players.store, players.players.Values
      ensures players.Valid()
      ensures players.View() == R.OnEnvelope(old(players.View()), env, load, save, dispatched)
      ensures reply == R.Reply(old(players.View()), env, load, save, fate)
    {
      var playerID := Resolve(env);
      if env.msgId == MSG_PLAYER_OFFLINE_NOTIFY {
        if playerID != 0 { players.MarkOffline(playerID, save); }
        return None;
      }
      if env.msgId == MSG_PLAYER_RESUME_REQ {
        if playerID != 0 { var got := OnAttach(env, playerID, load, save, dispatched); }
        return None;
      }
      var got := OnAttach(env, playerID, load, save, false);
      if !got { return None; }
      var outcome := Dispatch.Dispatch(fate);
      return if outcome.Answered? then outcome.envelope else None;
    }

    method Resolve(env: Envelope) returns (playerID: int)
      ensures playerID == R.Resolve(players.View(), env)
    {
      playerID := env.playerId;
      if playerID == 0 && env.sessionId != 0 {
        var p := players.GetBySessionID(env.sessionId);
        if p != null { playerID := p.playerID; }
      }
    }

    /** Gets the player for the envelope; `handled` says whether its resume module then works on it. */
    method OnAttach(env: Envelope, playerID: int, load: P.Fault, save: P.Fault, handled: bool) returns (got: bool)
      requires players.Valid() && (handled ==> env.msgId == MSG_PLAYER_RESUME_REQ)
      modifies players, players.store, players.players.Values
      ensures players.Valid()
      ensures players.View() == R.OnAttach(old(players.View()), env.sessionId, playerID, load, save, handled)
      ensures got == R.Obtains(old(players.View()), playerID, load, save)
    {
      var p := players.GetOrCreate(env.sessionId, playerID, load, save);
      if p != null && handled {
        assert playerID in players.View().players;
        players.ResumeExplicitly(p, playerID, env);
      }
      return p != null;
    }
  }
}
