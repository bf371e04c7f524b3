/** The service's network side as an object, doing what the index machine does. */
module NetServer {
  import opened Prelude
  import opened Protocol
  import G = GateIndex

  class GateConn {
    var sent: seq<Envelope>
    var closed: bool

    ghost function Value(): G.Link
      reads this
    {
      G.Link(sent, closed)
    }

    constructor ()
      ensures Value() == G.Link([], false)
    {
      sent, closed := [], false;
    }

    /** `works` is the socket's answer. */
    method WriteEnvelope(env: Envelope, works: bool) returns (ok: bool)
      modifies this`sent
      ensures ok == (!closed && works) && sent == if ok then old(sent) + [env] else old(sent)
    {
      ok := !closed && works;
      if ok { sent := sent + [env]; }
    }
  }

  datatype ReplyResult = Sent | NoGateConnection | WriteFailed

  class NetServer {
    var gateConns: map<int, GateConn>
    var sessionGate: map<int, int>
    var nextGateID: int
    /** Whether there is a game router, and what was handed to it and to the service's own modules. */
    const gameReady: bool
    var toGame: seq<Envelope>
    var toService: seq<Envelope>

    ghost predicate Valid()
      reads this
    {
      && (forall g | g in gateConns :: 0 < g <= nextGateID) && nextGateID >= 0
      && (forall a, b | a in gateConns && b in gateConns && gateConns[a] == gateConns[b] :: a == b)
      && (forall s | s in sessionGate :: sessionGate[s] in gateConns)
    }

    ghost function View(): G.Service
      reads this, gateConns.Values
    {
      G.Service(map g | g in gateConns :: gateConns[g].Value(), sessionGate, nextGateID)
    }

    constructor (gameReady: bool)
      ensures Valid() && View() == G.START && toGame == toService == []
    {
      gateConns, sessionGate, nextGateID := map[], map[], 0;
      this.gameReady, toGame, toService := gameReady, [], [];
      new;
      assert View().gateConns == map[];
    }

    method Accept() returns (gateID: int)
      requires Valid()
      modifies this
      ensures Valid() && View() == G.Apply(old(View()), G.Accept) && gateID == nextGateID
    {
      nextGateID := nextGateID + 1;
      gateID := nextGateID;
      var bc := new GateConn();
      gateConns := gateConns[gateID := bc];
      assert View().gateConns == old(View()).gateConns[gateID := G.Link([], false)];
    }

    /** The reader notes where the session's envelopes come from before it passes the envelope on. */
    method Deliver(gateID: int, env: Envelope)
      requires Valid() && G.Enabled(View(), G.Deliver(gateID, env))
      modifies this`sessionGate, this`toGame, this`toService
      ensures Valid() && View() == G.Apply(old(View()), G.Deliver(gateID, env))
      ensures toGame == old(toGame)
                        + (if gameReady && GetRoute(env.msgId) == Option.Some(TargetGame) then [env] else [])
      ensures toService == old(toService) + (if GetRoute(env.msgId) == Option.Some(TargetGame) then [] else [env])
    {
      if env.sessionId != 0 { sessionGate := sessionGate[env.sessionId := gateID]; }
      DispatchEnvelope(env);
    }

    /** Messages with a game route go to the game router, all others to the service's modules. */
    method DispatchEnvelope(env: Envelope)
      modifies this`toGame, this`toService
      ensures toGame == old(toGame)
                        + (if gameReady && GetRoute(env.msgId) == Option.Some(TargetGame) then [env] else [])
      ensures toService == old(toService) + (if GetRoute(env.msgId) == Option.Some(TargetGame) then [] else [env])
    {
      if GetRoute(env.msgId) == Option.Some(TargetGame) {
        if gameReady { toGame := toGame + [env]; }
      } else {
        toService := toService + [env];
      }
    }

    method Close(gateID: int)
      requires Valid() && G.Enabled(View(), G.Close(gateID))
      modifies gateConns[gateID]
      ensures Valid() && View() == G.Apply(old(View()), G.Close(gateID))
    {
      var conn := gateConns[gateID];
      conn.closed := true;
      assert forall g | g in gateConns && g != gateID :: gateConns[g] != conn;
      assert View().gateConns == G.CloseLink(old(View()), gateID).gateConns;
    }

    method Cleanup(gateID: int)
      requires Valid() && G.Enabled(View(), G.Cleanup(gateID))
      modifies this
      ensures Valid() && View() == G.Apply(old(View()), G.Cleanup(gateID))
    {
      ghost var v := View();
      gateConns := gateConns - {gateID};
      assert View().gateConns == v.gateConns - {gateID};
      DropEntries(gateID);
    }

    /** The loop over the index. */
    method DropEntries(gateID: int)
      modifies this`sessionGate
      ensures sessionGate == map s | s in old(sessionGate) && old(sessionGate)[s] != gateID :: old(sessionGate)[s]
    {
      ghost var before := sessionGate;
      var todo := sessionGate.Keys;
      while todo != {}
        invariant todo <= before.Keys && todo <= sessionGate.Keys <= before.Keys
        invariant forall s | s in sessionGate :: sessionGate[s] == before[s]
        invariant forall s | s in before && s !in todo :: s in sessionGate <==> before[s] != gateID
        decreases todo
      {
        var sid := Pick(todo);
        if sessionGate[sid] == gateID { sessionGate := sessionGate - {sid}; }
        todo := todo - {sid};
      }
      ghost var after := map s | s in before && before[s] != gateID :: before[s];
      assert forall s :: s in sessionGate <==> s in before && before[s] != gateID;
      assert forall s | s in after :: after[s] == sessionGate[s];
      assert sessionGate.Keys == after.Keys;
    }

    method ReplyToGate(sessionID: int, msgID: int, data: seq<byte>, works: bool) returns (err: ReplyResult)
      requires Valid()
      modifies gateConns.Values
      ensures Valid() && View() == G.ReplyToGate(old(View()), sessionID, msgID, data, works)
      ensures err == NoGateConnection <==> !G.FindTarget(old(View()), sessionID).On?
    {
      if sessionID !in sessionGate { return NoGateConnection; }
      var gateID := sessionGate[sessionID];
      if gateID !in gateConns { return NoGateConnection; }
      var conn := gateConns[gateID];
      var ok := conn.WriteEnvelope(Envelope(msgID, sessionID, 0, data), works);
      assert forall g | g in gateConns && g != gateID :: gateConns[g] != conn;
      assert View().gateConns == G.ReplyToGate(old(View()), sessionID, msgID, data, works).gateConns;
      return if ok then Sent else WriteFailed;
    }
  }
}
