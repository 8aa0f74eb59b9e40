# Live-support chat backend: a Dafny model of the session handoff

The backend keeps chat sessions for users. Each session is either answered by
the AI assistant ("system" mode, assigned to the sentinel agent `"System"`)
or by a human agent ("human" mode, assigned to that agent's id). This project
models the Go handlers that move sessions between these two states. It covers:

- starting a session, cleaning up duplicates and resuming;
- an agent taking over, being assigned or transferred a session;
- ending a session and the stale-session sweep;
- what happens when an agent's socket opens or closes;
- routing each chat frame over the websocket registry;
- the assistant chat and send endpoints, the per-session message log, and
  user registration and login.

The modules follow the source files:

| module | file | models |
|---|---|---|
| `Types` | types.dfy | records, the error replies, 24-hex-digit object ids and their parsing |
| `Store` | store.dfy | the store as a `Db` class with one field per collection, query filters, unordered cursors (`SelectSessions` and the `Lists` predicate), the duplicate-session cleanup shared by two files |
| `Sorting` | sorting.dfy | the exchange sort the handlers run on the slices they gather |
| `Connections` | connections.dfy | the socket registry as a `Registry` class with its two maps; outgoing frames |
| `WebSocket` | websocket.dfy | backend/websocket/handler.go |
| `SessionHandlers` | sessions.dfy | backend/handlers/session.go |
| `AgentHandlers` | agents.dfy | backend/handlers/agent.go |
| `Chat` | chat.dfy | backend/handlers/chat.go |
| `Send` | send.dfy | backend/handlers/send.go |
| `Users` | users.dfy | backend/handlers/user.go |

Handlers are methods on a `Db` (and a `Registry` where they write to sockets). Each names in its `modifies` clause the collections it writes. It returns the reply as a `Result` and the frames it writes as a `seq<Outgoing>`.

The parts of the environment become parameters:

- the clock is `now`, in seconds; a handler that reads the clock again once the assistant has answered also takes that second reading, `replyAt`;
- the assistant call is `ask`, where `None` is a failed call;
- bcrypt is `matches`;
- the id the store generates for an insert is `newId`.

A `FindOne` that several documents satisfy is a nondeterministic choice (`:|`). A cursor over sessions yields the matching sessions in an order the model leaves open. A cursor over messages is taken to yield them in store (insertion) order: `Store.MessagesOf`, the history `TransferToAgent` returns, `Send.SessionMessages` and the tie-break of the lastMessage tag all rely on that. When ids are parsed with the error dropped, the result is the all-zero id (`ParseOrZero`).

The store invariant `Db.Valid` says:

- a system-mode session is assigned to `"System"`;
- a human-mode session is assigned to a non-empty agent id;
- user emails are unique.

Every handler that writes sessions or users requires it and ensures it again. The others (`AgentStatus`, `AgentLogin`, `SessionMessage`, `HandleChat`, `SendToAssistant`) write only agents, messages, chats or sends, which the invariant does not mention.

## Model

| member | source | states |
|---|---|---|
| Types.ParseObjectId | backend/handlers/send.go:96-100 | an id parses exactly when it is 24 hex digits of either case; the parsed id is its lower-case form |
| Types.ParseCanonical | backend/handlers/session.go:229 | the hex text an id is reported as parses back to the same id |
| Store.SelectSessions | backend/websocket/handler.go:126-143 | the cursor loop yields every session the filter selects exactly once, each with its stored value |
| Store.ListsSameElements | backend/handlers/session.go:389-397 | a reordering with the same elements and length is still a complete, duplicate-free listing |
| Store.PermutedLists | backend/handlers/session.go:389-397 | a permutation of a listing is a listing of the same sessions |
| Store.MessagesOf | backend/handlers/send.go:134-147 | the messages of a session are exactly the stored messages with that session id, in store order |
| Store.SetAgentStatus | backend/handlers/session.go:490 | the update sets that agent's status and no other agent's; an unknown id changes nothing |
| Store.HandedTo | backend/handlers/session.go:280-288 | the handed-over session stays the same user's, and is active, human-mode and assigned to the agent |
| Store.LatestOf | backend/handlers/session.go:58-64 | the running maximum starts at the zero time: it names a session no other one is later than, or none when every one is at or before the zero time |
| Store.DeleteSessions | backend/handlers/session.go:66-71 | exactly the doomed sessions are deleted |
| Store.CleanupUserSessions | backend/handlers/session.go:37-73 | only the user's open sessions are deleted; nothing is deleted with at most one of them; at most one remains and, when some session is later than the zero time, it is a latest; otherwise only a session with the zero id can remain, since the others are compared against the zero session |
| Sorting.SortByKey | backend/handlers/session.go:389-397 | the result is sorted by the key and is a permutation of the input |
| Sorting.SmallestFirst | backend/handlers/agent.go:355-360 | one pass of the inner loop puts a smallest key of the rest at position i, keeps the sorted prefix and permutes the array |
| Connections.Registry.constructor | backend/websocket/handler.go:21-22 | both registries start empty |
| Connections.Registry.ConnectUser | backend/websocket/handler.go:99-100 | a new user connection replaces the earlier one under that id |
| Connections.Registry.ConnectAgent | backend/websocket/handler.go:120-121 | a new agent connection replaces the earlier one under that id |
| Connections.Registry.DisconnectUser | backend/websocket/handler.go:147-150 | closing removes the user's entry |
| Connections.Registry.DisconnectAgent | backend/websocket/handler.go:151-153 | closing removes the agent's entry |
| Connections.NotifyUsers | backend/websocket/handler.go:127-143 | at most one frame per listed session, all with the given frame, each to a listed session's connected user; one per session when all users are connected |
| Connections.NotifyUsersCounts | backend/websocket/handler.go:127-143 | each connection gets the frame exactly as many times as listed sessions have their user connected there, whatever the other users' connections |
| WebSocket.RouteFor | backend/websocket/handler.go:235-310 | the assistant is asked exactly in system mode; the agent gets the frame exactly in human mode from the user; the user gets it in human mode or when the user sent it |
| WebSocket.SystemModeDeliveries | backend/websocket/handler.go:235-282 | in system mode every frame goes to the session's user: the echo of the user's own frame, then the reply when there is one |
| WebSocket.HumanModeDeliveries | backend/websocket/handler.go:283-310 | in human mode a user's frame goes to the agent and back to the user, and anyone else's goes to the user only |
| WebSocket.HandleMessage | backend/websocket/handler.go:200-312 | a bad frame or unknown session changes nothing; otherwise lastActivity is refreshed and the frame is stored, both stamped with the first clock reading; a system-mode reply is stored as "system" stamped with the reading taken after the assistant answered (lines 228 and 264); the frames are routed |
| WebSocket.NotifySessionEnded | backend/websocket/handler.go:314-340 | at most one completed notice, sent exactly when the id parses, the session exists and its user is connected |
| WebSocket.Connect | backend/websocket/handler.go:77-144 | a user triggers the cleanup, is registered and gets the named session's state; an agent is registered and the users of its active sessions are told |
| WebSocket.FallBackToSystem | backend/websocket/handler.go:162-166 | every human-mode session of the agent goes back to the assistant, active; no other session changes; well-formedness is kept |
| WebSocket.Disconnect | backend/websocket/handler.go:146-188 | both entries are removed; the agent becomes available; its sessions fall back; users of the assistant's sessions are told |
| SessionHandlers.Recent | backend/handlers/session.go:20-35 | a session survives the sweep exactly when idle for at most thirty minutes, unchanged |
| SessionHandlers.RecentIdempotent | backend/handlers/session.go:24-28 | a second sweep at the same instant deletes nothing, and the sweep keeps the store well formed |
| SessionHandlers.CleanupOldSessions | backend/handlers/session.go:20-35 | the store after the sweep is the recent sessions |
| SessionHandlers.NewSession | backend/handlers/session.go:184-209 | a new session is active, stamped now, human-mode for the requested agent or system-mode for "System" |
| SessionHandlers.OpenAfterRefresh | backend/handlers/session.go:118-124 | refreshing an open session of the user keeps the user's open sessions the same set |
| SessionHandlers.Resumed | backend/handlers/session.go:108-181 | system mode is continued; human mode is continued when the agent is available and otherwise handed back to the assistant; the result is the same user's, active, stamped now, well formed |
| SessionHandlers.CreateSession | backend/handlers/session.go:184-214 | the requested agent is set busy, the insert clashes or adds exactly the new id to the user's open sessions |
| SessionHandlers.StartSession | backend/handlers/session.go:75-234 | empty user refused; after the cleanup the one open resumable session is resumed, or a new one created; the reply names an open session, the only one unless a human session assigned to "System" remains; the info handler then reports the reply's mode and agent for it |
| SessionHandlers.TransferToAgent | backend/handlers/session.go:236-349 | refusals in the source's order change nothing; otherwise the session is handed over, the agent is busy, its user is told, and its messages are returned in store order |
| SessionHandlers.EndSession | backend/handlers/session.go:439-501 | refusals change nothing; otherwise the session is completed, a real agent is made available, the user is told |
| SessionHandlers.EndedIsClosed | backend/handlers/session.go:476-482 | an ended session is no longer among its user's open sessions, and nothing else leaves |
| SessionHandlers.GetSessionInfo | backend/handlers/session.go:403-437 | mode and agent of the named session, after the missing, malformed and unknown id errors |
| SessionHandlers.InfoOfStored | backend/handlers/session.go:415-436 | whatever session is stored under an id is what the info handler reports for any spelling of it |
| SessionHandlers.InfoAfterHandover | backend/handlers/session.go:280-288 | once a transfer hands a session to an agent, its info is human mode with that agent |
| SessionHandlers.InfoAfterFallBack | backend/websocket/handler.go:162-166 | once an agent's socket closes, each session it held in human mode reports system mode with "System", and every other id reports what it did before |
| SessionHandlers.GetUserActiveSession | backend/handlers/session.go:503-548 | some open session of the user, or none exactly when the user has none |
| SessionHandlers.LatestTextUnique | backend/handlers/session.go:609-616 | the lastMessage tag is a function of the session's messages |
| SessionHandlers.LastMessageText | backend/handlers/session.go:609-616 | the tag is the text of the first latest message later than the zero time, or empty |
| SessionHandlers.SystemTurnShowsReply | backend/websocket/handler.go:224-265 | after a system-mode turn whose reply is stamped later than the question, the session's lastMessage tag is the reply |
| SessionHandlers.UserSessionsFilter | backend/handlers/session.go:570-581 | the status filter when one is given, otherwise the last thirty days |
| SessionHandlers.GetUserSessions | backend/handlers/session.go:550-647 | empty user refused; otherwise every selected session once, newest first, each tagged with its latest message |
| SessionHandlers.GetAgentSessions | backend/handlers/session.go:351-401 | every human-mode session of the agent once, newest first |
| AgentHandlers.AgentStatus | backend/handlers/agent.go:35-75 | empty fields and malformed ids are refused unchanged; otherwise that agent's status becomes the given text |
| AgentHandlers.AgentLogin | backend/handlers/agent.go:134-186 | failures change nothing and share one error; success names an agent with that email whose hash matches and makes it available; success is certain when every such agent matches |
| AgentHandlers.SortedHistory | backend/handlers/agent.go:343-362 | the history is the session's messages, sorted by timestamp |
| AgentHandlers.Takeover | backend/handlers/agent.go:188-393 | the refusal order; "not available" exactly when no session qualifies; otherwise a system-mode active session is handed over, the agent is busy, the user and agent are told, the history is sorted |
| AgentHandlers.Assign | backend/handlers/agent.go:395-533 | the refusal order, including an inactive session; otherwise hand-over, busy agent, and sorted history sent to the agent |
| AgentHandlers.HandedToLeavesPool | backend/handlers/agent.go:265-275 | a session handed to an agent leaves the assistant's pool and is on that agent's list |
| AgentHandlers.PoolOnEveryAgentList | backend/handlers/agent.go:554-559 | in a well-formed store each of the assistant's active sessions is on every agent's list |
| AgentHandlers.GetAgentActiveSessions | backend/handlers/agent.go:535-612 | after the stale sweep, every session on the agent's list once |
| AgentHandlers.GetAISessions | backend/handlers/agent.go:614-676 | every system-mode active session once |
| Chat.LinePrefixes | backend/handlers/chat.go:66-73 | each known sender has its fixed prefix, and any other sender contributes nothing |
| Chat.PromptEndsWithCue | backend/handlers/chat.go:75-77 | every prompt is the history's lines followed by the cue "Assistant:" |
| Chat.LinesAppend | backend/handlers/chat.go:64-74 | the lines of a concatenation are the lines of each part in order |
| Chat.LinesSnoc | backend/handlers/chat.go:65-74 | appending an entry appends its line |
| Chat.KnownOnly | backend/handlers/chat.go:66-73 | the entries of known senders are exactly those of the history |
| Chat.UnknownSendersIgnored | backend/handlers/chat.go:66-73 | dropping entries of unknown senders does not change the prompt |
| Chat.LineInPlace | backend/handlers/chat.go:64-74 | each entry's line appears where the entry stands |
| Chat.AssembleHistory | backend/handlers/chat.go:50-57 | the history copies the conversation in order, stamped now |
| Chat.WritePrompt | backend/handlers/chat.go:64-77 | the builder loop writes exactly the prompt |
| Chat.HandleChat | backend/handlers/chat.go:32-106 | undecodable and empty requests and failed calls store nothing; otherwise one record with the conversation and the "ai" reply is stored, the reply and the record stamped with the clock reading taken after the assistant answered |
| Send.Accepted | backend/handlers/send.go:87-106 | a message is accepted exactly when every field is present and the id is hex, and it carries those fields |
| Send.SessionMessage | backend/handlers/send.go:82-114 | an accepted message is appended; a refused one changes nothing |
| Send.SavedMessageListed | backend/handlers/send.go:107 | a saved message ends its session's listing and leaves other listings alone |
| Send.SessionMessages | backend/handlers/send.go:116-150 | missing and malformed ids are refused; otherwise the listing is the session's messages in store order |
| Send.SaveThenList | backend/handlers/send.go:96-107 | what is saved is listed next under either spelling of the id |
| Send.SendResponseAsWritten | backend/handlers/send.go:75-79 | the response as written replies only for a string id |
| Send.SendResponse | backend/handlers/send.go:75-79 | the corrected response always replies, and its id parses back to the stored record's id |
| Send.Exchange | backend/handlers/send.go:43-66 | the stored record holds the user's message stamped before the assistant is asked, then the reply, which with the record's lastActivity is stamped after it answered |
| Send.SendToAssistant | backend/handlers/send.go:31-80 | bad body or failed call stores nothing; a taken id fails; otherwise the exchange is stored and the reply carries its id |
| Send.ReplyNamesRecord | backend/handlers/send.go:68-79 | the id in the reply names the record just stored and no other |
| Users.FindUser | backend/handlers/user.go:46 | the first user with that email, or none exactly when nobody has it |
| Users.Register | backend/handlers/user.go:19-61 | bad body and taken email change nothing; otherwise the user is appended and emails stay unique |
| Users.Login | backend/handlers/user.go:62-107 | bad body refused; "not found" exactly when no user has the email; success only with that user's password |
| Users.LoginExact | backend/handlers/user.go:91-101 | with unique emails, success exactly for a stored email and password pair, and "wrong password" exactly for a stored email with another password |
| Users.FindUserAppend | backend/handlers/user.go:46-52 | a newly registered email is found at the end |
| Users.RegisterThenLogin | backend/handlers/user.go:52-101 | a registered user logs in with that password and with no other |

## Left out

- HTTP routing, CORS headers, method checks, JSON encoding and status codes are not modelled. Replies are `Result` values without status codes.
- A body that fails to decode reaches a handler that then refuses empty fields as those empty fields, which gives the same `InvalidRequest` reply. `AgentLogin`, `HandleChat`, `SendToAssistant`, `SessionMessage`, `Register` and `Login` take an `Option` for the decode failure.
- Logging and the message texts of errors are not modelled.
- Concurrency is not modelled: each handler runs atomically. Two requests interleaving between a read and a write are not covered. Neither is the unguarded concurrent access to the socket maps.
- Store failures other than an id clash on insert are not modelled: failed reads, updates, deletes and cursor decodes.
- ChatHandler ignores the insert error, and so does the model.
- Updates whose error the source only logs are modelled as succeeding.
- `Store.LatestOf`, `SessionHandlers.LastMessageText`, `SessionHandlers.GetUserSessions`, `SessionHandlers.GetAgentSessions` and `AgentHandlers.SortedHistory`: the source compares `time.Time` values. The model compares integer seconds, so sub-second order is not captured. Two stamps within one second tie in the model. `SystemTurnShowsReply` therefore needs the reply's second to be later than the question's.
- Clock readings with no assistant call between them are modelled as one reading. These are backend/websocket/handler.go:222 and 228 (the session update lies between them), backend/handlers/send.go:58 and 65, and backend/handlers/chat.go:88 and 93.
- `Chat.AssembleHistory`: the source reads the clock once per turn at backend/handlers/chat.go:55. The model stamps every turn with the one reading `now`. No modelled query reads these stamps.
- GetAgentSessionsHandler formats lastActivity as RFC 3339 text and compares the strings. `SessionHandlers.GetAgentSessions` compares the seconds instead. The two agree when every time carries the same zone offset.
- `SessionHandlers.UserSessionsFilter`: `AddDate(0, 0, -30)` is modelled as exactly 30 × 86400 seconds, so daylight-saving shifts are not captured.
- `AgentHandlers.AgentLogin`: bcrypt is the `matches` parameter. The model does not capture its salt, cost or timing.
- The assistant (`AskGemini`, in backend/utils/gemini.go) is the `ask` parameter. The model does not capture its prompt transport, its errors or its latency.
- The user-name lookups (`users` FindOne by email) in the takeover, assign, transfer and listing handlers only add a display name to replies. They are not modelled.
- AgentRegisterHandler (backend/handlers/agent.go:77-132) is not part of this model.
- The Broadcast* functions of the websocket package are not part of this model, for example the `BroadcastNewSession` call at backend/handlers/session.go:225.
- The read loop of HandleWebSocket is not modelled separately. Each frame is `WebSocket.HandleMessage`, and the deferred close is `WebSocket.Disconnect`.
- The session document in backend/models/models.go lacks the fields the handlers read and write, such as mode, status and assignedAgent. The model follows the fields the handlers use.
- ChatHandler, SendHandler and the message handlers all write to the one `messages` collection. The model keeps three logs: `chats`, `sends` and `messages`. No query of the core can tell them apart, because chat and send records carry no `sessionId`.
- `Connections.NotifyUsers`: the frames follow the cursor's order, which the store does not fix. `Connections.NotifyUsersCounts` states how many frames each connection gets, not their order.
- `SessionHandlers.StartSession`: it passes `agentId` through `ObjectIDFromHex`, dropping the error, so a malformed agent id sets the all-zero agent busy. The model does exactly that. `StartSession` also does not check that a requested agent exists or is available, and neither does the model.
- `Send.SendToAssistant` models the corrected response; the as-written one is under Findings.

## Findings

| source | as written | input that shows it | evidently intended | confidence | as-written member | corrected member |
|---|---|---|---|---|---|---|
| backend/handlers/send.go:78 | `insertResult.InsertedID.(interface{}).(string)` asserts a string, but the driver returns the generated `primitive.ObjectID`. The handler therefore dies after the record is stored. | any successful SendHandler call: the insert of a record without `_id` reports an `ObjectIdValue`, and `Send.SendAlwaysPanics` shows the response is `Panicked` | `.(primitive.ObjectID).Hex()`, as at backend/handlers/session.go:229: reply with the id's hex text | not executed | Send.SendResponseAsWritten | Send.SendResponse |
