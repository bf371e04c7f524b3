# Game server protocol model

A Dafny model of the three-process game server: the gate that holds client connections and sessions, the service that
routes messages and allocates roles, and the game process that runs the players. Each component is given twice. A
machine over values has one step for every atomic action, and carries the answers of the environment (clock readings,
random bytes, decoded payloads, map iteration order, failures) inside its steps; theorems are about all its runs.
Classes with the fields of the source then do the same in place: each method's postcondition states the whole new
state as the machine's function of the old one.

| files | component |
|---|---|
| `GateModel`, `GateInvariant`, `GateSteps`, `GateRuns`, `GateSweeps`, `GateCounterexamples` | the gate machine, what every step keeps, and safety over runs |
| `GateTable`, `GateEffects`, `GateClients` | each step as one row of a table; what steps do to clients and service; what clients hear over runs |
| `Gate` | connections, sessions, the session manager and the gate as objects |
| `LoginLimit`, `Token` | the login limiter over time; resume tokens |
| `Wire`, `WireParts` | the protobuf encoding of an envelope, and which beginnings of it decode |
| `Framing`, `Streams` | length-prefixed frames as bytes, and their readers and writers on a stream broken off and cut anywhere |
| `Dispatch`, `PlayerActor`, `Player` | the module loop; a player's inbox, loop and lifecycle under every interleaving; the player object |
| `Roster`, `PlayerManager` | the game process's two maps and its envelope handling |
| `PlayerStore`, `RoleAllocation`, `LoginService` | the store with fallible operations; concurrent role allocation |
| `GateGame` | the gate and the game process together |
| `GateIndex`, `NetServer` | the service's session-to-gate index |
| `RemotePool`, `RemoteClient` | the gate's pool of connections to the service |

`dafny verify dfyconfig.toml` checks everything.

## Assumptions

- A gate handler call is one step: handlers do not interleave within a call, and a call reads the clock once. The clock
  never goes back.
- `Close` only marks a connection; its read loop may still deliver envelopes that were buffered, and ends in a separate
  step.
- A player's steps are finer: the state check and the enqueue of a post, the loop's state check, its receive and its
  handling, each compare-and-swap and each call of a module's hook are separate. The hooks are
  those of one module, whichever: what is shown holds for each, and the calls on the others change nothing there.
- Role allocation interleaves at single store operations, each of which may fail before or after its effect. In the pool
  every attempt of a send and every round of a writer is a step.
- In the game process envelopes are handled one at a time, each dispatch ending before the next envelope.
- Integers are mathematical; the 32-bit wrap-around of a connection's busy counter, the truncated remainder of the pool
  index and the widths of envelope fields are written out.

## Where the code does not keep a promise

- One connected login per player fails in two ways: a displaced session can be resumed, because resuming never consults
  the player index, and a GC pass deletes a player's index entry even when another session owns it, so that a later
  login disconnects nobody. The exact condition is `GateRuns.OneLoginExactly`; `GateRuns.IndexedExactly` is the exact
  condition for the index, which is enough for it but not necessary. The runs are in `GateCounterexamples`.
- A resume is meant to replace a connection that is still open. Closing that one ends its read loop, which takes the
  session offline although it is on the new connection by then (`GateClients.ResumeUndone`): the client keeps an open
  connection on which nothing is answered and no resume is accepted (`GateClients.ResumeStrands`). The exact condition
  for this never to happen is `GateClients.StrandedExactly`.
- The comment in `Destroy` says the loop exits by itself. A loop that waits on an empty inbox does not. When it can is
  `PlayerActor.ExitsExactly`, and that it then does is `PlayerActor.ExitsInTime`.
- A post that passed its state check in time can be left without an answer; which messages are is
  `PlayerActor.AnsweredExactly`.
- Two overlapping first logins of one account can return different roles (`RoleAllocation.OverlappingCallsDisagree`);
  the exact condition for the stored role to be final is `RoleAllocation.FinalExactlyWhenSettled`, for the returned one
  `RoleAllocation.AnswersFinalExactly`.
- Overlapping sends of one session can be reordered by a retry (`RemotePool.OverlappingSendsReorder`); the
  exact condition for order is `RemotePool.OrderedExactly`; `RemotePool.OrderExactly` is that for order with no waiting
  offer overtaken.
- Hooks of two lifecycle changes can run in the wrong order (`PlayerActor.HooksCanCross`); the exact condition
  for their order is `PlayerActor.HooksInOrder`; what a module can tell of it is `PlayerActor.SeenInTurnExactly`.
- A player who is still active and arrives on a new session keeps the old session ID in the context its modules see
  (`Roster.ContextCanLag`); the exact condition for the right one is `Roster.ContextExactly`.
- A login that displaces the same player's session tells the game process that the player went offline, and the game
  does not look at the session: the player who has just logged in is inactive there until its next message
  (`GateGame.LoginDeactivates`); the exact condition is `GateGame.LoginKeepsActiveExactly`.
- A client told to stop in the middle of a body takes the part for the whole (`Framing.StopForgesEnvelope`);
  exactly when it does not is `Framing.StopsCleanExactly`.

## Model

| member | source | states |
|---|---|---|
| `GateRuns.OneLoginPerPlayer` | Server/internal/gate/service_handler.go:41-53 | In every run whose resumes are of the session the player index holds, and whose GC passes collect no session of a player logged in on another one, no two connected sessions are authenticated for one player |
| `GateRuns.OneLoginExactly` | Server/internal/gate/service_handler.go:41-53 | The property itself, both ways: at every moment of a run no two connected sessions are authenticated for one player, if and only if every resume found nobody else logged in for its player, and every login of a connected session found nobody else but the session the index holds; both can be read off the state before the step |
| `GateRuns.IndexedExactly` | Server/internal/gate/session_manager.go:67-101 | A stronger, inductive property, both ways: at every moment every connected, authenticated session is its player's index entry, if and only if every resume and every GC pass so far respected its guard; the guards can be read off the state before the step |
| `GateCounterexamples.ResumeGuardNeeded` | Server/internal/gate/resume.go:34-93 | For every configuration a run without GC in which resuming a displaced session gives one player two connected logins |
| `GateCounterexamples.CollectGuardNeeded` | Server/internal/gate/session_manager.go:81-84 | For every configuration a run without resumes in which GC deletes the index entry of another session and the next login leaves two connected logins |
| `GateCounterexamples.IndexBreaksFirst` | Server/internal/gate/session_manager.go:81-84 | A run after which the index misses a logged-in session while every player still has one login: the index condition is sufficient, not exact |
| `GateRuns.RunInvariant` | Server/internal/gate/handler.go:16-194 | After every run: sessions are keyed by their ID, which is at most the counter; never Init; registered exactly when not Closed; Online or Authing means connected and without player; Offline or Closed means no connection; a connection a session holds carries that session's ID |
| `GateSteps.StepShaped` | Server/internal/gate/handler.go:16-194 | Every enabled step keeps the invariant and consists of at most one act (create, resume, bind, collect) between changes that only count, refresh times, or take sessions offline |
| `GateRuns.IdentifiedExactly` | Server/internal/gate/service_handler.go:35-53 | Every authenticated session has a non-zero player at every moment of a run if and only if no accepted login response named player 0 |
| `GateCounterexamples.NonZeroPlayerNeeded` | Server/internal/gate/service_handler.go:35-53 | A login response naming player 0 reaches an authenticated session without a player |
| `GateRuns.AttachedAtMostOnce` | Server/internal/gate/resume.go:14-93 | A connection gets a session ID at most once in a run and keeps it; no other session ever holds it; once its session has let it go it is never held again |
| `GateRuns.ClosedForGood` | Server/internal/gate/session_manager.go:74-86 | A collected session never changes again and is never registered again |
| `GateRuns.IndexIsLastBinder` | Server/internal/gate/session_manager.go:91-101 | Whenever the player index has an entry for P it is the session that most recently bound P, through rebinds, kicks, resumes and GC |
| `GateRuns.LoginTakesOver` | Server/internal/gate/service_handler.go:41-53 | Right after a login response the index holds that session, and any other previous holder has no connection: the one it had is closed |
| `GateRuns.BoundSurvives` | Server/internal/gate/service_handler.go:52-53 | After the whole step of a login response the session is authenticated for the player named, whatever becomes of the reply |
| `GateRuns.GracePeriod` | Server/internal/gate/session_manager.go:67-89 | A session is unregistered only by a GC pass, and only if it was Offline at every step taken within the GC timeout before it |
| `GateRuns.StepUnregisters` | Server/internal/gate/session_manager.go:74-86 | A step that unregisters a session is a GC pass, and the session is Offline and expired |
| `GateRuns.OfflineSince` | Server/internal/gate/conn.go:202-204 | A session that is Offline has been so at every step since its last-seen time: each entry to Offline refreshes it |
| `GateRuns.OfflineIsSignalled` | Server/internal/gate/gate.go:182-199 | A step that takes a player-bound live session offline offers the service pool a notice with that session and its current player |
| `GateSteps.GCExact` | Server/internal/gate/session_manager.go:67-89 | A GC pass, in any order of visits, closes exactly the Offline and expired sessions visited; no other session or field changes |
| `GateSweeps.HeartbeatSweepExact` | Server/internal/gate/heartbeat.go:58-95 | In any order the sweep takes offline exactly the Online connected sessions idle beyond T (TCP) or T + T/2 (WebSocket), changes nothing else, and offers no message |
| `GateSweeps.AuthingSweepExact` | Server/internal/gate/auth_timeout.go:12-31 | In any order the sweep takes offline exactly the Authing sessions past the login timeout, changes nothing else, and offers no message |
| `GateTable.StepExactly` | Server/internal/gate/handler.go:16-194 | Every step of every kind, from any state that satisfies the invariant, leaves exactly the state of a table with one flat row for each thing the gate can do, read off the state before the step: sessions, connections and their queues, index, offers and configuration |
| `GateEffects.LetGoClosedExactly` | Server/internal/gate/gate.go:182-193 | A connection that its session lets go of in a step is closed by the end of it, whatever the step (kick, takeover, resume elsewhere, sweep, unknown-message limit); only the end of a read loop leaves it as it was |
| `GateEffects.KickCloses` | Server/internal/gate/gate.go:139-146 | Kicking a connected session closes its connection and leaves the session offline without one |
| `GateEffects.ResumeAnswered` | Server/internal/gate/resume.go:71-101 | A resume queues exactly the positive answer for the new connection, nothing for any other, and offers the game exactly one resume notice if the session has a player and there is a pool, otherwise nothing |
| `GateEffects.ResumeRefused` | Server/internal/gate/resume.go:13-69 | A refused resume closes its connection, changes no session and offers nothing; the client is told which of two reasons exactly if the connection has no session and the request decodes |
| `GateEffects.FirstLoginOffered` | Server/internal/gate/handler.go:42-63 | The first login on a connection is never refused by the limiter: exactly one login request goes out in the new session's name, and the client is queued exactly the session's ID and token |
| `GateEffects.ServiceAnswered` | Server/internal/gate/service_handler.go:11-27 | Anything but a pong for a registered, connected session is queued once, on that session's connection, stamped with the player the session has after the step; no other queue changes |
| `GateEffects.UnansweredReachesNobody` | Server/internal/gate/gate.go:95-99 | A pong, and anything for a session without connection, changes no queue |
| `GateEffects.HeartbeatAnswered` | Server/internal/gate/heartbeat.go:12-28 | A heartbeat past the login request is answered on the connection the session holds, which may not be the one it came on, and refreshes session and connection; nothing else is queued or offered |
| `GateEffects.MessageOffered` | Server/internal/gate/handler.go:177-183 | A routed message past the login request is offered exactly once, stamped with the player of the session it names, and queues nothing |
| `GateEffects.OnlyLoginOffered` | Server/internal/gate/handler.go:73-147 | What a session that is unregistered, offline or not yet logging in gets through to the service is its login request while Online, and that makes it Authing from then on |
| `GateEffects.UnknownCounted` | Server/internal/gate/handler.go:159-175 | An unknown message past the login request is counted, and takes the session offline if and only if the limit is on and reached |
| `GateEffects.SilentGoesExactly` | Server/internal/gate/heartbeat.go:58-95 | A heartbeat sweep that is on takes a session offline, its connection closed, if and only if it is Online and was heard of longer ago than the timeout (half as long again on a WebSocket); it changes no other session and offers nothing |
| `GateEffects.WaitingGoesExactly` | Server/internal/gate/auth_timeout.go:12-31 | A login sweep takes a session offline, its connection closed, if and only if it is Authing for longer than the login timeout; it changes no other session and offers nothing |
| `GateEffects.HeardSurvives` | Server/internal/gate/conn.go:176-179 | Whatever a client sends keeps the session on its connection from every heartbeat sweep within the timeout |
| `GateEffects.FifthLossCloses` | Server/internal/gate/conn.go:145-161 | A client that does not read keeps in order the messages that fit and loses the rest, which are counted; its connection is closed if and only if at least five are lost |
| `GateClients.OwnConversation` | Server/internal/gate/gate.go:95-137 | In every run everything a connection is ever told, written or waiting, is: refusals without a session, then at most one greeting by its session, then only messages of that same session |
| `GateClients.StepSays` | Server/internal/gate/conn.go:129-161 | In each step what a connection has been told stays, in order, and grows by at most one message that fits its session |
| `GateClients.LetGoHearsNothing` | Server/internal/gate/gate.go:95-107 | A connection that its session has let go of is never held again and gets no further message, whatever happens; what was waiting is still written |
| `GateClients.StrandedExactly` | Server/internal/gate/conn.go:196-214 | At every moment of a run every open, read connection that has a session is the one its session holds, if and only if no read loop ended while another open connection had its session |
| `GateClients.ResumeUndone` | Server/internal/gate/resume.go:71-84 | Whenever a resume takes a session from a connection that is still read, the end of that read loop, which the resume brings about, takes the session offline and strands the new connection |
| `GateClients.ResumeStrands` | Server/internal/gate/conn.go:196-214 | A run in which a client that reconnects early is left so |
| `Gate.Gate.OnEnvelope` | Server/internal/gate/handler.go:16-194 | The whole new heap state of the gate after one client envelope is what the machine computes from the old one |
| `Gate.Gate.OnLoginReq` | Server/internal/gate/handler.go:94-131 | Rate limit, duplicate login, entry to Authing: the machine's new state |
| `Gate.Gate.RouteClient` | Server/internal/gate/handler.go:136-193 | Permission check, heartbeat, unknown message and routing: the machine's new state |
| `Gate.Gate.CountUnknown` | Server/internal/gate/handler.go:160-175 | Counts the unknown message and takes the session offline at the limit, if there is one |
| `Gate.Gate.FirstLogin` | Server/internal/gate/handler.go:42-63 | Creates the session, counts the attempt, and forwards the login if the limit allows it |
| `Gate.Gate.CreateSessionForConn` | Server/internal/gate/session.go:39-76 | A fresh ID, token and session, attached to the connection, registered, and announced to the client |
| `Gate.Gate.HandleResume` | Server/internal/gate/resume.go:13-45 | Refuses bound connections, undecodable requests, unknown sessions and wrong tokens |
| `Gate.Gate.ResumeKnown` | Server/internal/gate/resume.go:47-69 | Refuses Authing and Closed sessions, rebinds all others |
| `Gate.Gate.Rebind` | Server/internal/gate/resume.go:71-110 | Closes the old connection, moves the session to the new one, answers, notifies the game, clears the kick limit |
| `Gate.Gate.OnServiceEnvelope` | Server/internal/gate/service_handler.go:11-27 | Pong ignored, login response handled, everything but the pong forwarded to the client |
| `Gate.Gate.OnLoginRsp` | Server/internal/gate/service_handler.go:29-63 | Binds, kicks the previous holder, authenticates, clears the kick limit |
| `Gate.Gate.TakeOver` | Server/internal/gate/service_handler.go:40-50 | Binds the player and kicks a different previous holder |
| `Gate.SessionManager.BindPlayer` | Server/internal/gate/session_manager.go:91-101 | Sets the session's player and the index entry, returns the previous holder |
| `Gate.SessionManager.Snapshot` | Server/internal/gate/session_manager.go:56-65 | Lists every registered session exactly once |
| `Gate.SessionManager.CollectOne` | Server/internal/gate/session_manager.go:74-86 | One visit of the GC loop: closes, unregisters, and deletes the player's entry without an ownership check |
| `Gate.Gate.GC` | Server/internal/gate/session_manager.go:67-89 | The loop over the registered sessions: the machine's GC pass in the order visited |
| `Gate.Gate.CheckHeartbeat` | Server/internal/gate/heartbeat.go:58-95 | The sweep loop: the machine's sweep in the order visited |
| `Gate.Gate.CheckAuthingTimeout` | Server/internal/gate/auth_timeout.go:12-31 | The sweep loop: the machine's sweep in the order visited |
| `Gate.Gate.OnHeartbeat` | Server/internal/gate/heartbeat.go:12-38 | Refreshes the session and its connection, answers the client |
| `Gate.Gate.OnConnClose` | Server/internal/gate/conn.go:196-214 | The read loop's end takes the session offline whichever connection it holds, and notifies the game |
| `Gate.Gate.OnSessionOffline` | Server/internal/gate/gate.go:182-206 | Closes the connection, detaches, refreshes last-seen, notifies if the session was live |
| `Gate.Gate.Kick` | Server/internal/gate/gate.go:139-146 | Takes a connected session offline, otherwise nothing |
| `Gate.Gate.Reply` | Server/internal/gate/gate.go:95-108 | Queues the message on the session's connection, stamped with its player |
| `Gate.Gate.UpdateConfig` | Server/internal/gate/gate.go:153-176 | Positive settings replace the current ones, others are ignored; the connection options always replace them |
| `Gate.Gate.SendToService` | Server/internal/gate/sender.go:9-30 | Stamps the session's player and offers the envelope to the pool, if there is one |
| `Gate.Gate.Notify` | Server/internal/gate/notify.go:28-45 | Tells the game server about a session that has a player |
| `Gate.Gate.NotifyResume` | Server/internal/gate/notify.go:9-26 | Tells the game server about a resumed session that has a player |
| `Gate.Conn.Send` | Server/internal/gate/conn.go:145-161 | Queues, or counts a busy send and closes the connection on the fifth |
| `Gate.Conn.WriteNext` | Server/internal/gate/conn.go:129-143 | The writer takes the oldest message; a failed write closes the connection |
| `Gate.Conn.Close` | Server/internal/gate/conn.go:186-191 | Only marks the connection closed |
| `Gate.Session.AllowLogin` | Server/internal/gate/login_limit.go:5-16 | Counts one attempt as the machine does, and says whether it is within the limit |
| `Gate.Gate.Accepted` | Server/internal/gate/conn.go:89-107 | A new connection, attached to nothing |
| `Gate.Gate.Received` | Server/internal/gate/conn.go:168-181 | Any data marks the connection alive before the envelope is handled |
| `LoginLimit.AcceptedInInterval` | Server/internal/gate/login_limit.go:5-16 | Within any interval as long as the window at most 2L - 1 attempts are accepted, at any non-decreasing times |
| `LoginLimit.AcceptedFromStart` | Server/internal/gate/login_limit.go:5-16 | Over a span T from the first attempt at most L (T div W + 1) attempts are accepted |
| `LoginLimit.OpeningsApart` | Server/internal/gate/login_limit.go:10-13 | Two windows start more than W apart |
| `LoginLimit.AcceptedByWindows` | Server/internal/gate/login_limit.go:14-15 | Among any attempts, at most L are accepted for each window they touch |
| `LoginLimit.AcceptedExactly` | Server/internal/gate/login_limit.go:10-15 | An attempt is accepted if and only if fewer than L attempts came before it in its window |
| `LoginLimit.OpensExactly` | Server/internal/gate/login_limit.go:10-13 | The first attempt opens a window, and a later one exactly if it comes more than W after the attempt that opened the last |
| `LoginLimit.WindowOf` | Server/internal/gate/login_limit.go:10-13 | Every attempt is in such a window |
| `Token.MintedTokenAccepted` | Server/internal/gate/auth.go:17-39 | For any keyed hash: a token minted with a working random source splits into exactly its two parts, and verification for its session accepts a string if and only if it is that token |
| `Token.FallbackTokenRejected` | Server/internal/gate/auth.go:19-21 | A session whose token is the fallback one accepts no token at all |
| `Token.SplitAtOneDot` | Server/internal/gate/auth.go:28-31 | Splitting at a separator that occurs once gives the two sides |
| `Wire.RoundTrip` | Server/internal/protocol/proto/internal.proto:7-12 | Every envelope with values in range, negative ones and omitted defaults included, is decoded from its own encoding |
| `Wire.EmptyBody` | Client/client_base.py:199-201 | The encoding is empty if and only if all four fields are default, so a message ID makes it non-empty |
| `Wire.VarintRoundTrip` | Server/internal/protocol/proto/internal.proto:8-10 | A base-128 varint is read back, leaving the bytes behind it |
| `Framing.FramesReadBack` | Server/internal/transport/envelope.go:33-69 | The frames of any envelopes that fit the limit are read back as exactly those envelopes, and then the stream is at its end |
| `Streams.Exchange` | Server/internal/transport/envelope.go:33-69 | Written by a sender on one connection and cut into chunks of any sizes, the envelopes are read back exactly, with nothing left over; if the connection breaks after some bytes, exactly the envelopes that got through whole are read |
| `Framing.BrokenFramesReadBack` | Server/internal/transport/envelope.go:33-53 | A stream that breaks off inside the frames yields the longest prefix of envelopes whose frames are whole, and nothing else |
| `Streams.CutsAreAll` | Server/internal/transport/envelope.go:34-46 | Every way of cutting a stream is one of the cuts considered |
| `Framing.ClientStopped` | Client/client_base.py:191-237 | A client told to stop after k bytes has handed on the envelopes whose frames were whole, and then only what it makes of the part of one frame |
| `Framing.StopsCleanExactly` | Client/client_base.py:191-237 | It has handed on nothing else if and only if it had at most a header of the next frame, or stopped inside one of the four fields of the body; stopped at the end of a field, it has handed on that envelope with the later fields default, which differs from the one sent |
| `WireParts.PartDecodes` | Server/internal/protocol/proto/internal.proto:7-12 | The first j bytes of an encoding decode if and only if j is 0 or the end of one of the four fields, and then to the envelope with the later fields default |
| `Framing.StopForgesEnvelope` | Client/client_base.py:230-237 | That can be an envelope nobody sent: a body cut off by the stop decodes without its session |
| `Streams.StopReached` | Client/client_base.py:191-237 | Two chunks and three looks at the flag make the receive loop hand on such an envelope |
| `Streams.HandedOnBytes` | Client/client_base.py:191-237 | For any chunks and any number of looks at the flag, what the loop hands on is what the whole stream says, or what the bytes say that it had read when it stopped |
| `Framing.OversizedRefused` | Server/internal/transport/envelope.go:39-42 | A length above the limit is refused with exactly its four bytes consumed |
| `Framing.ClientReceives` | Client/client_base.py:191-205 | The client hands on exactly the envelopes before the first all-default one |
| `Framing.ClientReceivesAll` | Client/client_base.py:191-205 | If every envelope has a message ID the client hands on all of them |
| `Streams.Stream.ReadFull` | Server/internal/transport/envelope.go:34-46 | The filling loop takes the stream's next n bytes, or reports how the stream ended |
| `Streams.Stream.ReadEnvelope` | Server/internal/transport/envelope.go:33-53 | One read yields what the specification on the remaining bytes says and leaves the rest |
| `Streams.Stream.RecvExact` | Client/client_base.py:230-237 | The accumulating loop is the specified read, chunk by chunk and look by look |
| `Streams.ReadExactBytes` | Client/client_base.py:230-237 | That read takes the next n bytes, fewer only when told to stop, and nothing at the end of the stream |
| `Streams.Stream.RecvLoop` | Client/client_base.py:191-211 | The client's loop, told to stop after any number of looks at its flag, receives what the specification on the whole stream says, or on the bytes read by then |
| `Streams.Transport.WriteEnvelope` | Server/internal/transport/envelope.go:55-69 | Appends the big-endian length and the encoding as two writes; if the connection breaks, their first bytes, and reports it |
| `Streams.Transport.WriteAll` | Server/internal/transport/envelope.go:55-69 | A sender that stops at the first failed write puts the frames out, or their first bytes |
| `Streams.Transport.SetMaxEnvelopeSize` | Server/internal/transport/envelope.go:17-23 | Zero restores the default limit |
| `Dispatch.Handle` | Server/internal/game/player_module/player.go:235-273 | The module loop with both recovery points computes the verdict of a recursive specification: the first decisive module, otherwise the last error and envelope |
| `Dispatch.FirstHandlerWins` | Server/internal/game/player_module/player.go:249-270 | The first module that handles the message decides, whatever the ones after it would do, and even if ones before it failed or panicked |
| `Dispatch.UnknownExactly` | Server/internal/game/player_module/player.go:172-181 | The caller gets "unknown message" exactly when no module decided and the last one that took the message, if any, left no error or that error, or when the deciding module handled it with that error |
| `Dispatch.LastErrorIs` | Server/internal/game/player_module/player.go:254-267 | Without a deciding module the error is that of the last module that took the message, a panic included |
| `Dispatch.AnsweredExactly` | Server/internal/game/player_module/player.go:172-181 | The caller gets an answer exactly when the deciding module handled the message without error |
| `Dispatch.Dispatch` | Server/internal/game/player_module/player.go:155-185 | The caller returns what its reply channel, or the inbox, says |
| `Dispatch.EnvelopeExactly` | Server/internal/game/player_module/player.go:155-185 | It returns an envelope if and only if the message reached the modules and the deciding one handled it with that envelope and without error |
| `PlayerActor.AlwaysConserved` | Server/internal/game/player_module/player.go:130-145 | Under every interleaving: accepted messages are the finished ones, the one being handled and the queued ones, in order of acceptance; replies go out one for each finished message that wants one, in that order; no two calls are confused |
| `PlayerActor.ExactlyOneReply` | Server/internal/game/player_module/player.go:218-273 | A finished call with a reply channel got exactly one reply, every other call none, whatever modules do |
| `PlayerActor.ReplyNeverBlocks` | Server/internal/game/player_module/player.go:242-252 | When a result is sent, nothing has been sent on that channel before, so its capacity of one suffices |
| `PlayerActor.FinishedInOrder` | Server/internal/game/player_module/player.go:205-216 | The finished messages are the oldest accepted ones, in order |
| `PlayerActor.RepliesExplained` | Server/internal/game/player_module/player.go:218-273 | Every reply sent in a run is for the call being handled or drained at that step, and is the verdict of the modules on it, or the error that the player is destroyed |
| `PlayerActor.PostAcceptedExactly` | Server/internal/game/player_module/player.go:130-145 | A post made in one go is accepted, at the end of the inbox, if and only if the player is active and fewer than 64 messages wait |
| `PlayerActor.FinishedInTime` | Server/internal/game/player_module/player.go:205-216 | While the loop has not exited, each accepted message is finished after a number of loop steps fixed beforehand, whatever happens in between, and until then the loop can step |
| `PlayerActor.ExitFindsNothing` | Server/internal/game/player_module/player.go:205-233 | When the loop exits, everything accepted before its last look at the inbox is finished |
| `PlayerActor.AnsweredExactly` | Server/internal/game/player_module/player.go:130-145 | For every message that enters the inbox of a player whose loop exits: it is left unfinished and without reply if and only if the loop had exited when it entered; otherwise it is finished, with exactly one reply if it wants one |
| `PlayerActor.UnansweredCameLate` | Server/internal/game/player_module/player.go:130-145 | One half of that, for any moment at which the message has been accepted |
| `PlayerActor.LatePostIsLost` | Server/internal/game/player_module/player.go:130-145 | The losing case is reachable: a post passes its state check in time and never gets a reply |
| `PlayerActor.ExitsExactly` | Server/internal/game/player_module/player.go:205-216 | From any state with the player destroyed, some continuation takes the loop to its exit if and only if the loop is not waiting on an empty inbox with no post under way |
| `PlayerActor.ExitsInTime` | Server/internal/game/player_module/player.go:205-233 | Not only some: from such a state every continuation makes at most a fixed amount of progress, by loop steps and posts that reach the inbox, and has exited once it made all of it; until then progress can be made |
| `PlayerActor.IdleDestroyedNeverExits` | Server/internal/game/player_module/player.go:116-126 | In a run, that state is never left |
| `PlayerActor.IdleDestroyedReachable` | Server/internal/game/player_module/player.go:116-126 | A run of three steps reaches it |
| `PlayerActor.ChangesAlternate` | Server/internal/game/player_module/player.go:82-113 | Lifecycle changes that take effect alternate, going offline first |
| `PlayerActor.HooksInOrder` | Server/internal/game/player_module/player.go:82-113 | The hooks run in the order of the lifecycle changes, each once, if and only if no hooks overtake those of an earlier change |
| `PlayerActor.SeenInTurnExactly` | Server/internal/game/player_module/player.go:82-113 | What the modules can see, OnOffline and OnResume calls, alternates with OnOffline first if and only if every hook called was of the kind then due |
| `PlayerActor.OldestFirstSeenInTurn` | Server/internal/game/player_module/player.go:82-113 | It does when no hooks overtake |
| `PlayerActor.OvertakingUnseen` | Server/internal/game/player_module/player.go:82-113 | It can although hooks overtake |
| `PlayerActor.HooksCanCross` | Server/internal/game/player_module/player.go:82-113 | Overtaking is reachable: OnOffline hooks after those of the OnResume that followed |
| `Player.DrainedFinishesAll` | Server/internal/game/player_module/player.go:218-233 | Draining finishes every queued message in order and accepts nothing |
| `Player.DrainRunFinishesAll` | Server/internal/game/player_module/player.go:218-233 | With posts arriving during the drain, everything accepted up to the exit is finished, in order |
| `Player.Player.OnOffline` | Server/internal/game/player_module/player.go:100-113 | Compare-and-swap and hooks: two steps of the machine if the player was active, otherwise nothing |
| `Player.Player.OnResume` | Server/internal/game/player_module/player.go:82-98 | Compare-and-swap, session and hooks: only from offline, otherwise nothing, not even the session |
| `Player.Player.Destroy` | Server/internal/game/player_module/player.go:116-126 | Only an offline player is destroyed |
| `Player.Player.Admit` | Server/internal/game/player_module/player.go:130-136 | Post's state check as one atomic step, with its two errors |
| `Player.Player.Enqueue` | Server/internal/game/player_module/player.go:138-144 | Post's enqueue as one atomic step: only capacity counts, not the state |
| `Player.Player.Post` | Server/internal/game/player_module/player.go:130-145 | Without interference: the error and the inbox by state and room |
| `Player.Player.LoopCheck` | Server/internal/game/player_module/player.go:206-211 | The loop's state check |
| `Player.Player.Take` | Server/internal/game/player_module/player.go:213-213 | The loop's receive takes the oldest message |
| `Player.Player.Handle` | Server/internal/game/player_module/player.go:235-273 | Runs the module loop and sends exactly one result if one is wanted |
| `Player.Player.DrainAndFail` | Server/internal/game/player_module/player.go:218-233 | With any posts arriving between its rounds the loop is a run of the machine that ends exited with an empty inbox; without arrivals it ends in the drained state of the specification |
| `Player.ResumeModule.Handle` | Server/internal/game/player_module/modules/resume/resume.go:39-43 | An explicit resume calls OnResume with the envelope's session and counts as handled |
| `Roster.AlwaysSound` | Server/internal/game/player_module/player_manager.go:34-94 | After any envelopes, saves, destructions and failures: every player is keyed by its ID, which is its profile's role; none is Destroyed; its hooks alternated, OnOffline first |
| `Roster.IndexedExactly` | Server/internal/game/player_module/player_manager.go:34-82 | Every active player is found by its session at every moment of a run if and only if no step wrote or deleted the index entry of another active player's session |
| `Roster.StepIndexedExactly` | Server/internal/game/player_module/player_manager.go:34-82 | The same for one step from any sound state: the guard can be checked before the call |
| `Roster.OwnedSessionsIndexed` | Server/internal/game/server.go:74-166 | If each session is used by one player only, the index is always right and no two players share a session |
| `Roster.SharedSessionLosesPlayer` | Server/internal/game/player_module/player_manager.go:68-82 | Two players on one session: marking the second offline leaves the first active and not findable |
| `Roster.AttachEndsActive` | Server/internal/game/player_module/player_manager.go:34-66 | A successful GetOrCreate ends with the player active on the session and found by it, all others as before; an explicit resume after it changes nothing, nor does repeating it |
| `Roster.EnvelopeFindsPlayer` | Server/internal/game/server.go:84-90 | An envelope without player ID is for the active player on its session |
| `Roster.ReplyExactly` | Server/internal/game/server.go:84-164 | The game writes an envelope back if and only if it was neither an offline notice nor a resume request, the player it resolves to is there afterwards, and the module that decided on it handled it with that envelope and without error |
| `Roster.ProfileOnAttach` | Server/internal/game/player_module/player_manager.go:34-66 | Where the profile comes from and what is stored: a live player keeps it, a stored one is loaded, a new one is made with the starting values and saved; a failed load changes nothing and a failed save makes no player |
| `Roster.DestroyForgets` | Server/internal/game/player_module/player_manager.go:85-94 | After a player is destroyed, an envelope on its session that names no player finds nobody, all others stay, and it comes back as a new player |
| `Roster.MarkOfflineTwice` | Server/internal/game/player_module/player_manager.go:68-82 | Marking offline twice equals once, but for a second attempt to save |
| `Roster.ProfileSurvives` | Server/internal/game/player_module/player_manager.go:34-94 | A player marked offline and saved comes back with the same profile, by resuming or after being destroyed |
| `Roster.SaveEachExact` | Server/internal/game/player_module/player_manager.go:104-114 | The periodic save stores exactly the live profiles whose operations do not fail, and changes nothing else |
| `Roster.ContextExactly` | Server/internal/game/player_module/player_manager.go:38-45 | Over runs: the modules of every player see the session the player is on, at every moment, if and only if no step moved a player who was still active to another session |
| `Roster.StepContextExactly` | Server/internal/game/player_module/player_manager.go:38-45 | The same for one step from any sound state |
| `Roster.ContextCanLag` | Server/internal/game/player_module/player_manager.go:38-45 | Two messages of one player on two sessions make the modules see the wrong one |
| `Roster.ContextFollowsExactly` | Server/internal/game/player_module/player_manager.go:38-45 | After one attach, from any sound state: the modules see the player's session unless the player was active and they saw another one |
| `PlayerManager.PlayerManager.GetOrCreate` | Server/internal/game/player_module/player_manager.go:34-66 | The maps, the player and the store become what the roster specification says, with every failure; the result is null exactly on failure |
| `PlayerManager.PlayerManager.MarkOffline` | Server/internal/game/player_module/player_manager.go:68-82 | Saves, goes offline, and deletes the entry of the player's session |
| `PlayerManager.PlayerManager.DestroyPlayer` | Server/internal/game/player_module/player_manager.go:85-94 | Forgets the player; only an offline one becomes Destroyed |
| `PlayerManager.PlayerManager.GetBySessionID` | Server/internal/game/player_module/player_manager.go:96-102 | The player of the session's entry; an unknown session stands for player 0 |
| `PlayerManager.PlayerManager.SaveAll` | Server/internal/game/player_module/player_manager.go:104-114 | Saves every player once, in the map's order, ignoring errors |
| `PlayerManager.Server.HandleEnvelope` | Server/internal/game/server.go:78-166 | Player resolution and the offline, resume and normal branches: the roster's new state, and the answer written back for a business message whose dispatch succeeds |
| `GateGame.ActiveExactly` | Server/internal/game/server.go:84-142 | With the gate's offers delivered in order, a player is active in the game process if and only if the last envelope about it was no offline notice |
| `GateGame.LoginKeepsActiveExactly` | Server/internal/gate/service_handler.go:40-53 | A login leaves a player who was active in the game active there if and only if it does not displace a connected session of that same player |
| `GateGame.LoginOffers` | Server/internal/gate/service_handler.go:40-53 | What a login offers the game: a notice about the displaced session, with the player that session has |
| `GateGame.LoginDeactivates` | Server/internal/game/player_module/player_manager.go:68-82 | A reachable run in which a login at the gate makes the player who logs in inactive in the game |
| `GateGame.PlayingTellsActive` | Server/internal/game/server.go:119-142 | The player's next message to the game makes it active again |
| `GateGame.ResumeTellsActive` | Server/internal/gate/resume.go:96-101 | With a pool, a resume of a player's session makes the player active in the game |
| `RoleAllocation.RolesNeverShared` | Server/internal/service/modules/login/service.go:29-53 | At any moment of any interleaving with any failures: a role that an account holds in the store, or through a call under way or finished, is held by no other account, and is positive and at most the counter |
| `RoleAllocation.StartFresh` | Server/internal/player_db/store_redis.go:30-68 | The runs may start from any store whose roles are positive, at most the counter, and not shared |
| `RoleAllocation.NewRolesAreNew` | Server/internal/service/modules/login/service.go:41-52 | Two calls never return the same new role, even for one account or for none |
| `RoleAllocation.ProfilesKeyed` | Server/internal/player_db/store_redis.go:99-115 | Every stored profile has the role it is stored under, whatever fails and whoever else saves |
| `RoleAllocation.FinalExactlyWhenSettled` | Server/internal/service/modules/login/service.go:34-52 | A stored role is kept by every continuation if and only if no call that found none can still write one |
| `RoleAllocation.SettledStays` | Server/internal/service/modules/login/service.go:34-40 | Once settled, the role stays, and every call begun since that gets past its load returns it |
| `RoleAllocation.AnswersFinalExactly` | Server/internal/service/modules/login/service.go:29-53 | Once a call for a non-empty account has returned r: no call for it ever returns another role, in any continuation, if and only if the store says r and every call of the account is loading, has failed, has returned r or is saving the profile of r |
| `RoleAllocation.SequentialCallsAgree` | Server/internal/service/modules/login/service.go:29-53 | If the calls of a non-empty account never overlap, all that succeed return the same role, whatever fails |
| `RoleAllocation.OverlappingCallsDisagree` | Server/internal/service/modules/login/service.go:29-53 | Overlapping calls of one account can both succeed with different roles |
| `RoleAllocation.ReturnedIsRecorded` | Server/internal/service/modules/login/service.go:41-52 | At every moment of any interleaving with any failures: a call that has returned a role has left its account with one, and a call that returned a new role has left that role's profile |
| `LoginService.LoginService.ResolveRoleID` | Server/internal/service/modules/login/service.go:29-53 | The method with its early returns leaves the store and returns what one call of the machine does, whether store and generator are one object or two; also without store or without generator |
| `LoginService.LoginService.NextUID` | Server/internal/service/modules/login/service.go:22-27 | Without a generator, role 0 |
| `LoginService.AloneIsRun` | Server/internal/service/modules/login/service.go:29-53 | One call alone is a run of the interleaved machine that touches no other call |
| `LoginService.ResolvesExactly` | Server/internal/service/modules/login/service.go:29-53 | The result and the whole store after a call that is alone, by how its four operations end |
| `LoginService.ResolvesTwice` | Server/internal/service/modules/login/service.go:29-53 | Resolving a new named account and then again, whatever fails after the second load, returns the same role and writes nothing |
| `LoginService.RedisStore.LoadRoleID` | Server/internal/player_db/store_redis.go:30-54 | The empty account is never found and costs no operation |
| `LoginService.RedisStore.SaveRoleID` | Server/internal/player_db/store_redis.go:56-68 | Nothing is written for the empty account or role 0; a failure may come before or after the write |
| `LoginService.RedisStore.LoadProfile` | Server/internal/player_db/store_redis.go:73-97 | Role 0 is never found |
| `LoginService.RedisStore.SaveProfile` | Server/internal/player_db/store_redis.go:99-115 | The profile is stored under its own role, and not at all under role 0 |
| `LoginService.RedisStore.NextUID` | Server/internal/db/redis_tools/redis_dao.go:35-37 | The counter is raised by one; on success the new value is returned |
| `GateIndex.IndexIsHistory` | Server/internal/service/netserver.go:92-126 | For every non-zero session at every moment: the entry is the gate connection that last delivered an envelope of it if that one is still registered, and absent otherwise; every entry names a registered connection |
| `GateIndex.NilConnUnreachable` | Server/internal/service/netserver.go:236-241 | A reply never finds an entry without a connection |
| `GateIndex.ReplyReachesLastDeliverer` | Server/internal/service/netserver.go:228-248 | A reply is written to the last deliverer of the session if it is registered and open, and changes nothing else |
| `GateIndex.SessionZeroUnanswered` | Server/internal/service/netserver.go:112-116 | Session 0 never has an entry |
| `GateIndex.CleanedForGood` | Server/internal/service/netserver.go:92-104 | After its cleanup a gate connection, its ID and every entry for it are gone for the rest of the run |
| `GateIndex.ClosedStaysSilent` | Server/internal/service/netserver.go:93-94 | Nothing is written to a gate connection after its reader closed it |
| `GateIndex.ArrivesNew` | Server/internal/service/netserver.go:75-87 | A connecting gate is registered under an ID no gate had before, and no session is answered on it yet |
| `NetServer.NetServer.Accept` | Server/internal/service/netserver.go:75-80 | A new connection under a new gate ID |
| `NetServer.NetServer.Deliver` | Server/internal/service/netserver.go:107-117 | Records where the session's envelope came from, unless the session is 0, and hands it to the game router or to the service's modules by its route |
| `NetServer.NetServer.Close` | Server/internal/service/netserver.go:93-94 | The connection is closed first, while still registered |
| `NetServer.NetServer.Cleanup` | Server/internal/service/netserver.go:96-103 | Unregisters the gate and deletes exactly its entries, by a loop over the map |
| `NetServer.NetServer.ReplyToGate` | Server/internal/service/netserver.go:228-248 | Writes to the indexed connection; the error says whether there was one |
| `RemotePool.IndexInRange` | Server/internal/gate/remote.go:75-78 | With the source's truncated remainder the index is in range for every session, negative ones too, and is the remainder of the session's absolute value |
| `RemotePool.Conservation` | Server/internal/gate/remote.go:88-149 | At every moment of every run each offer is in exactly one of: still trying, refused, in its own connection's queue once, or taken by its writer once; the totals add up, and the drop count is the number dropped |
| `RemotePool.RefusedExactly` | Server/internal/gate/remote.go:88-110 | At every moment of every run: an offer is refused if and only if it was tried one time more than there are retries and never found room (or at once, without connections or attempts), is queued or beyond if and only if an attempt found room, and otherwise still tries |
| `RemotePool.OrderedExactly` | Server/internal/gate/remote.go:71-110 | The offers of a session are in order at every moment of a run if and only if each that entered the queue was younger than all that had entered before |
| `RemotePool.OvertakenInOrder` | Server/internal/gate/remote.go:88-110 | A run in which a waiting offer is overtaken and then refused: the offers are in order at every moment, and the stronger condition fails |
| `RemotePool.OrderExactly` | Server/internal/gate/remote.go:71-110 | The stronger property: A session's offers stay in order, and no waiting one is overtaken, at every moment of a run if and only if the offer entering the queue was always the oldest the session was still trying |
| `RemotePool.SequentialSendsOrdered` | Server/internal/gate/remote.go:71-110 | If a session's sends never overlap, its envelopes reach the writer in the order of the calls, whatever the retries |
| `RemotePool.OverlappingSendsReorder` | Server/internal/gate/remote.go:88-110 | With overlapping sends a retry can be overtaken |
| `RemoteClient.RemoteClientPool.Send` | Server/internal/gate/remote.go:71-110 | The call with its retry loop, with any calls, attempts and writer rounds of other threads during its sleeps, is a run of the machine: it ends with the envelope entered once in its connection's queue, or refused after every attempt |
| `RemoteClient.RemoteClientPool.Attempt` | Server/internal/gate/remote.go:90-104 | One select on the session's connection: enters the queue and ends the call, or counts a busy send and ends it if it was the last attempt, or counts the attempt |
| `RemoteClient.RemoteClientPool.Write` | Server/internal/gate/remote.go:121-146 | One round of the writer: drops and counts without a connection, otherwise attempts one write |
| `RemoteClient.RemoteClientPool.Sleep` | Server/internal/gate/remote.go:106-106 | While a call sleeps any other thread may act: writers, calls that begin, and attempts of other calls; its own state stays |

## Left out

- Sockets, TLS, the WebSocket upgrade and its JSON mode, dialing, deadlines, keep-alive and heartbeat goroutines: a connection is a queue, a closed flag and a last-seen time.
- Logging, metrics and trace IDs, including the counters kept only for metrics.
- Tickers and configuration loading: when a sweep or a GC pass happens is arbitrary.
- Data races on session fields and on the pool's plain counters: the steps named above are atomic.
- Overflow of 64-bit IDs, times and role counters.
- Protobuf groups (wire types 3 and 4) in unknown fields: the decoder of the model refuses them. No envelope written by either side contains one.
- The payloads of login, resume and business messages: their decoding is an input of the step.
- The strength of the keyed hash: it is an arbitrary function.
- `Gate.Gate.GC`: the loop runs in the gate's class, because the machine's state is the gate's; each visit is the session manager's.
- `Player.Player.DrainAndFail`: of the other threads only posts act between its rounds; a destroyed player's lifecycle calls change nothing but which hooks have run.
- `PlayerActor.ReplyNeverBlocks`: the five-second timeout of a caller waiting for its reply is not modelled; it leaves the channel's single slot to the player.
- `LoginLimit.AcceptedInInterval`: the limit and the window stay the same over the attempts counted; what a change of configuration in between does to the bound is not stated.
- `LoginService.RedisStore.LoadRoleID`: a stored value that does not parse as a number is not modelled apart; it shows as a read that fails.
- `LoginService.RedisStore.LoadProfile`: nor is a stored profile that does not decode.
- `Streams.Transport.WriteEnvelope`: encoding never fails; it cannot for an envelope whose fields are in range.
- `GateRuns.OfflineIsSignalled`: a notice is offered to the pool; what the pool does with it is stated in `RemotePool`. Without a pool nothing is sent.
- `PlayerManager.Server.HandleEnvelope`: what the modules make of a business message is an input; only the resume module is modelled. No module of the program changes a profile.
- The service's player route cache: it only ever holds the one game router.
- The message route table beyond `GetRoute`, handler registration and its duplicate check, reconnect backoff.
- Functions nothing calls: the gate's `NewSession`, `onResume`, the session manager's `Remove`, the service's `enqueueEnvelope`, `attachPlayer`.
- A bound on unknown messages for each session: the first login or resume switches the limit off for all.
