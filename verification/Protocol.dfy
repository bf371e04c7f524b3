/** Message identifiers, the envelope, and the message routing table. */
module Protocol {
  import opened Prelude

  const MSG_RESUME_REQ := 1
  const MSG_HEARTBEAT_REQ := 10
  const MSG_HEARTBEAT_RSP := 11
  const MSG_SERVICE_PONG := 32
  const MSG_LOGIN_BEGIN := 1000
  const MSG_LOGIN_REQ := 1001
  const MSG_LOGIN_RSP := 1002
  const MSG_LOGIN_END := 2000
  const MSG_CHAT_BEGIN := 2000
  const MSG_CHAT_END := 3000
  const MSG_GAME_BEGIN := 3000
  const MSG_PLAYER_RESUME_REQ := 3005
  const MSG_PLAYER_OFFLINE_NOTIFY := 3006
  const MSG_GAME_END := 4000

  datatype Envelope = Envelope(msgId: int, sessionId: int, playerId: int, payload: seq<byte>)

  datatype Target = TargetService | TargetGame

  function GetRoute(msgId: int): Option<Target> {
    if MSG_LOGIN_BEGIN <= msgId < MSG_LOGIN_END then Some(TargetService)
    else if MSG_CHAT_BEGIN <= msgId < MSG_CHAT_END then Some(TargetService)
    else if MSG_GAME_BEGIN <= msgId < MSG_GAME_END then Some(TargetGame)
    else None
  }
}
