# CampusGuessing in Dafny

CampusGuessing is a campus geography guessing game. A player sees a picture taken somewhere on campus and clicks the map where they think it was taken. The score decays with the distance to the right spot. Players practise alone, review finished games, build a question bank, befriend each other and fight one-on-one battles over a WebSocket.

This project models the logic of that game and proves properties of the model:

- the battle client of the React frontend: the STOMP socket wrapper, the battle provider that ingests socket traffic, and the battle and matchmaking pages that read its state log through a cursor;
- the practice, review and question-bank pages, and the HTTP client and login storage helpers;
- the Spring backend services: friendships in both backends (one keyed by user name, one by user id), the friendships table and its queries, game records, user accounts, the question services of both backends, the JWT helpers and the image host client.

## How the model is built

There is one module per source file, plus shared vocabulary modules:

- `Common`: options, results, JavaScript and Java string helpers, and Java integer widths;
- `Json`: JSON values with JavaScript truthiness, `||` and `String(...)`;
- `JavaValue`: the Java objects found in a decoded map or claim set;
- `Uri`: UTF-8 percent-encoding, with decoders;
- `Scoring`: the shared distance-to-score rule;
- `EventLog`: the cursor discipline shared by the two pages that read the battle state log.

Pure code becomes functions and lemmas. Code that changes state becomes a class:

- the battle socket, the provider, the pages' state cells, localStorage, and the in-memory repositories of the backend.

Each state-changing method is proved to leave the state a pure specification function gives for the state before. The properties are proved as lemmas about those functions. Most of them take the form `Step(State(), result) == Spec(old(State()), ...)`.

Outside effects are inputs or recorded outputs, never performed:

- Inputs: the outcome of an awaited network call, the host's reply, a parsed token, a password check, the current time and the great-circle distance between two points.
- Recorded outputs: creating a STOMP client, publishing a frame and a router navigation are appended to an effect list.

A thrown Java exception is an `Err` result. The table it leaves is the table before, as under `@Transactional` rollback.

Decisions where the code and its surroundings disagree (the code is followed throughout):

- The comment on the practice page's scoring speaks of a maximum of 50 over 10 km. The code uses 100 points over 1000 m and calls a guess correct exactly when its score is 50 (frontend/src/pages/Game.jsx:26,44-45,71). The model follows the code. The record service's own rule is 50 points over 10 km (RecordServiceImpl.java:157-158).
- The name-keyed friend service calls repository queries keyed by user names that the repository file does not declare. They are given the meaning of the declared id-keyed queries, comparing the users' names instead of their ids.
- Rejecting a request in the name-keyed backend deletes every row between the two users. The response still reports the request's old status, "pending". The id-keyed backend keeps the row as REJECTED.
- The comments of the name-keyed getFriendList say its friend ids are de-duplicated and its total counts distinct friends (FriendServiceImpl.java:234,237). It calls `findFriendIdsByUsername`, which the repository file does not declare; as said above, it is given the meaning of the declared `findFriendIdsByUserId`, and that query has no DISTINCT (FriendshipRepository.java:61-65), and accepting a request always stores an approved row in each direction. The model follows the query: after one accepted request, either user's list counts the other twice and lists them twice (FriendService.AcceptedFriendListedTwice).
- `validateToken` never answers false for an expired token. The parser throws first, and the exception propagates (JwtTokenUtil.java:104-112,118-132).
- Quirks of the id-keyed backend's question service, as written:
  - `QuestionCreate` is not a declared type. It is modelled as the question DTO.
  - `getQuestionById` saves the incremented play count before it reads the creator. With no creator it then fails, and the count stays incremented.
  - `updateQuestion` reads the creator's id before checking authorisation, so a question without a creator fails with a null dereference. The update does not reapply the campus default.
  - `answerQuestion` fails on a missing latitude or longitude.
  - Both viewing a question and answering it increase its play count.
- Java `double`s are modelled as reals, with no rounding error. JSON numbers are integers. The application only copies fractional values around.

## Model

| member | source | states |
|---|---|---|
| ApiClient.UnwrapCases | frontend/src/api/apiClient.js:77-91 | a missing or falsy envelope, or one whose code is not a number, is the format error carrying the envelope; a code from 200 to 299 gives exactly the data; any other code is an error carrying that code, the envelope and its message or '请求失败' |
| ApiClient.UnwrapSuccessEnvelope | frontend/src/api/apiClient.js:83-85 | a success envelope built from any 2xx code, message and data unwraps to exactly that data |
| ApiClient.UnwrapErrorEnvelope | frontend/src/api/apiClient.js:87-90 | an envelope with a non-2xx code never yields data: the error carries its message, its code and the envelope |
| ApiClient.AuthorizationFor | frontend/src/api/apiClient.js:37-40 | a header is produced exactly when the token is non-empty, and it is 'Bearer ' followed by the token |
| ApiClient.InterceptRequest | frontend/src/api/apiClient.js:36-43 | without a stored token the request configuration is unchanged; with one the headers (created when absent) gain Authorization = 'Bearer ' + token and keep every other header |
| ApiClient.ErrorMessageOrder | frontend/src/api/apiClient.js:54-59 | the error text is the body's message, else the error's own message, else '请求失败（HTTP n）' for a non-zero status, else '请求失败'; it is never falsy |
| ApiClient.InterceptResponseError | frontend/src/api/apiClient.js:47-68 | status 401 or 403 clears exactly the two login keys and any other status leaves storage alone; the rejection carries the chosen message, the status, the body's code and the body |
| AuthStorage.TokenOf | frontend/src/api/authStorage.js:9-11 | getToken reads '' when the token key is missing and the stored text otherwise |
| AuthStorage.AuthOf | frontend/src/api/authStorage.js:42-49 | getAuth gives an object exactly when the auth key holds JSON text, and then the value it encodes (missing or unparsable text gives null) |
| AuthStorage.CurrentUserInfo | frontend/src/api/authStorage.js:51-54 | the result is the stored auth object's userInfo exactly when that is present and not null, and none otherwise |
| AuthStorage.DisplayNameOr | frontend/src/api/authStorage.js:57-60 | the display name is the given name when truthy, else the stored user name when truthy, else '' |
| AuthStorage.Normalized | frontend/src/api/authStorage.js:33-36 | the object setAuth stores is an object with a displayName member |
| AuthStorage.SetTokenRoundTrip | frontend/src/api/authStorage.js:13-19 | a falsy token removes the key so getToken reads ''; any other token is what getToken reads back; no other key changes |
| AuthStorage.ClearRemovesOnlyAuthKeys | frontend/src/api/authStorage.js:21-24 | clearAuth removes the token and auth keys, so both getters read empty, and leaves every other key as it was |
| AuthStorage.SetAuthWithoutTokenClears | frontend/src/api/authStorage.js:28-31 | setAuth with no truthy token is clearAuth |
| AuthStorage.SetAuthRoundTrip | frontend/src/api/authStorage.js:26-40 | after setAuth with a token, getToken reads that token, getAuth reads the stored object (token and userInfo unchanged) and getDisplayName the defaulted name |
| AuthStorage.SetDisplayNameEffect | frontend/src/api/authStorage.js:62-67 | without stored auth nothing changes; otherwise the new name (an empty one falling back to the user name) is stored, the token untouched and the user name kept |
| AuthStorage.OperationsKeepTokenText | frontend/src/api/authStorage.js:13-40 | every writer keeps plain text at the token key |
| AuthStorage.SetToken | frontend/src/api/authStorage.js:13-19 | the storage afterwards is AfterSetToken of the storage before |
| AuthStorage.ClearAuth | frontend/src/api/authStorage.js:21-24 | the storage afterwards is AfterClear of the storage before |
| AuthStorage.SetAuth | frontend/src/api/authStorage.js:26-40 | the storage afterwards is AfterSetAuth of the storage before |
| AuthStorage.SetDisplayName | frontend/src/api/authStorage.js:62-67 | the storage afterwards is AfterSetDisplayName of the storage before |
| BattleSocket.ResolveApiBase | frontend/src/battle/battleSocket.js:4-6 | the base is the configured value when non-empty, '/api' otherwise, and never empty |
| BattleSocket.DropTrailingSlash | frontend/src/battle/battleSocket.js:9 | the result is the input or the input without its one trailing slash |
| BattleSocket.SockJsUrlShape | frontend/src/battle/battleSocket.js:8-12 | the URL is the base without its trailing slash, '/ws-battle?username=' and the form-encoded name, and decoding the query gives the name back |
| BattleSocket.InitialValid | frontend/src/battle/battleSocket.js:14-40 | the socket as constructed satisfies the invariant tying client, name and pending handshake together |
| BattleSocket.Emit | frontend/src/battle/battleSocket.js:66-69 | the connected flag becomes the new value and every current connection subscriber is told, nothing else changes |
| BattleSocket.RejectPending | frontend/src/battle/battleSocket.js:206-211 | a pending handshake is rejected with the reason and forgotten; without one nothing changes |
| BattleSocket.DisconnectStep | frontend/src/battle/battleSocket.js:201-216 | the old client is deactivated, a pending handshake rejected with '连接已取消', client and name cleared, disconnected announced; subscribers kept; the invariant kept and settled handshakes untouched |
| BattleSocket.Open | frontend/src/battle/battleSocket.js:116-131 | from a disconnected valid state with a name, storing the name and opening one handshake and one client keeps the invariant and every settled handshake |
| BattleSocket.ConnectStep | frontend/src/battle/battleSocket.js:101-199 | connect keeps the invariant, every settled handshake and the subscriber sets |
| BattleSocket.OnConnectStep | frontend/src/battle/battleSocket.js:133-158 | connected is announced, the pending handshake resolved and cleared, and the client subscribes to the invite queue and then the state queue; name and client kept |
| BattleSocket.OnDrop | frontend/src/battle/battleSocket.js:160-193 | a close or error announces disconnected and rejects only a still-pending handshake with its own reason; name and client are kept |
| BattleSocket.ResumeEnsure | frontend/src/battle/battleSocket.js:89-98 | after an awaited connect: done when connected, '未初始化' without a connection promise, else a race of the pending handshake |
| BattleSocket.EnsureStep | frontend/src/battle/battleSocket.js:79-99 | connected with a client returns at once; without a name it throws '未登录'; it keeps the invariant and settled handshakes |
| BattleSocket.Race | frontend/src/battle/battleSocket.js:94-98 | the race succeeds exactly when the handshake was resolved before the timer; still pending gives the timeout error, rejected gives its reason |
| BattleSocket.SendStep | frontend/src/battle/battleSocket.js:218-222 | a message is published on the current client exactly when a client exists and is connected; otherwise nothing changes and 'WebSocket未连接' is thrown |
| BattleSocket.DeliverState | frontend/src/battle/battleSocket.js:150-157 | a state frame that parses reaches every state subscriber; one that does not is dropped |
| BattleSocket.DeliverInvite | frontend/src/battle/battleSocket.js:141-148 | an invite frame that parses reaches every invite subscriber; one that does not is dropped |
| BattleSocket.ConnectBlankIsDisconnect | frontend/src/battle/battleSocket.js:102-106 | connect with a blank name is exactly disconnect and settles at once |
| BattleSocket.ConnectReuses | frontend/src/battle/battleSocket.js:108-112 | connect for the current name with a live client changes nothing: settled when connected, else the pending handshake |
| BattleSocket.ConnectFresh | frontend/src/battle/battleSocket.js:114-199 | any other connect disconnects first, stores the trimmed name, creates exactly one new pending handshake and one new client, and activates it on the name's URL |
| BattleSocket.EnsureLeavesStateAlone | frontend/src/battle/battleSocket.js:79-99 | on a valid state ensureConnected never reaches its own connect call and changes nothing |
| BattleSocket.DropKeepsResolved | frontend/src/battle/battleSocket.js:163-169 | a resolved handshake stays resolved through a drop, a later connect callback and disconnect |
| BattleSocket.Apply | frontend/src/battle/battleSocket.js:79-253 | every public call and client callback keeps the invariant and settled handshakes |
| BattleSocket.RunValid | frontend/src/battle/battleSocket.js:79-253 | any sequence of calls and callbacks keeps the invariant |
| BattleSocket.RunKeepsSettled | frontend/src/battle/battleSocket.js:79-253 | over any sequence of events a settled handshake keeps its outcome |
| BattleSocket.EnsureWhilePending | frontend/src/battle/battleSocket.js:89-98 | while a handshake is pending, any number of ensureConnected calls change nothing and all race that same handshake |
| BattleSocket.Client.constructor | frontend/src/battle/battleSocket.js:14-40 | a new socket has no client, no name, no handshakes and no subscribers |
| BattleSocket.Client.SubscribeState | frontend/src/battle/battleSocket.js:50-53 | the callback joins the state subscribers and nothing else changes |
| BattleSocket.Client.UnsubscribeState | frontend/src/battle/battleSocket.js:52 | the callback leaves the state subscribers and nothing else changes |
| BattleSocket.Client.SubscribeInvite | frontend/src/battle/battleSocket.js:55-58 | the callback joins the invite subscribers and nothing else changes |
| BattleSocket.Client.UnsubscribeInvite | frontend/src/battle/battleSocket.js:57 | the callback leaves the invite subscribers and nothing else changes |
| BattleSocket.Client.SubscribeConnection | frontend/src/battle/battleSocket.js:60-64 | the callback joins the connection subscribers and is told the current flag at once |
| BattleSocket.Client.UnsubscribeConnection | frontend/src/battle/battleSocket.js:63 | the callback leaves the connection subscribers and nothing else changes |
| BattleSocket.Client.EmitConnection | frontend/src/battle/battleSocket.js:66-69 | the object's new state is Emit of its old state |
| BattleSocket.Client.Disconnect | frontend/src/battle/battleSocket.js:201-216 | the object's new state is DisconnectStep of its old state, and the invariant holds |
| BattleSocket.Client.Connect | frontend/src/battle/battleSocket.js:101-199 | the new state and what the promise waits on are ConnectStep of the old state |
| BattleSocket.Client.OpenClient | frontend/src/battle/battleSocket.js:116-131 | the new state is Open of the old state |
| BattleSocket.Client.OnConnect | frontend/src/battle/battleSocket.js:133-158 | the new state is OnConnectStep of the old state |
| BattleSocket.Client.Drop | frontend/src/battle/battleSocket.js:160-193 | the new state is OnDrop of the old state with the callback's reason |
| BattleSocket.Client.OnWebSocketClose | frontend/src/battle/battleSocket.js:160-170 | the new state is OnDrop with 'WebSocket连接已关闭' |
| BattleSocket.Client.OnWebSocketError | frontend/src/battle/battleSocket.js:172-181 | the new state is OnDrop with 'WebSocket连接失败' |
| BattleSocket.Client.OnStompError | frontend/src/battle/battleSocket.js:183-193 | the new state is OnDrop with 'WebSocket协议错误' |
| BattleSocket.Client.EnsureConnected | frontend/src/battle/battleSocket.js:79-99 | the new state and what it waits on are EnsureStep of the old state |
| BattleSocket.Client.Resume | frontend/src/battle/battleSocket.js:89-98 | the continuation after an awaited connect is ResumeEnsure of the state |
| BattleSocket.Client.TimeoutFires | frontend/src/battle/battleSocket.js:94-98 | the race ends as Race of the handshake, succeeding exactly when it was resolved |
| BattleSocket.Client.Send | frontend/src/battle/battleSocket.js:220-221 | the new state and outcome are SendStep of the old state |
| BattleSocket.Client.Publish | frontend/src/battle/battleSocket.js:218-222 | ensureConnected runs first; only when it settles normally is the body sent as SendStep describes |
| BattleSocket.Client.Invite | frontend/src/battle/battleSocket.js:224-229 | the payload is the current name and the trimmed target, published on '/app/battle/invite' |
| BattleSocket.Client.Respond | frontend/src/battle/battleSocket.js:231-237 | the payload is the trimmed room code, the flag and the current name, published on '/app/battle/respond' |
| BattleSocket.Client.Answer | frontend/src/battle/battleSocket.js:239-246 | the payload is the trimmed room code, the current name and the coordinates, published on '/app/battle/answer' |
| BattleSocket.Client.Quit | frontend/src/battle/battleSocket.js:248-253 | the payload is the current name and an empty target, published on '/app/battle/quit' |
| BattleSocket.Client.OnStateFrame | frontend/src/battle/battleSocket.js:150-157 | the new state is DeliverState of the old state |
| BattleSocket.Client.OnInviteFrame | frontend/src/battle/battleSocket.js:141-148 | the new state is DeliverInvite of the old state |
| BattleSocket.ConnectThenEnsureTwice | frontend/src/battle/battleSocket.js:79-131 | on a fresh socket, connect followed by two ensureConnected calls creates exactly one client and one handshake, and every await is on that handshake |
| BattleStore.NormalizeInvite | frontend/src/battle/BattleContext.jsx:8-18 | an invite is made exactly from an object with a truthy roomCode, carrying its room code, playerA, playerB and message as text and the raw message |
| BattleStore.FindRoom | frontend/src/battle/BattleContext.jsx:194 | a result exists exactly when some invite has the room, and it is an invite of the list for that room |
| BattleStore.AddInvite | frontend/src/battle/BattleContext.jsx:141-144 | a room already listed leaves the list unchanged; a new room's invite goes to the front |
| BattleStore.WithoutRoom | frontend/src/battle/BattleContext.jsx:198 | exactly the invites of other rooms remain and the room is gone |
| BattleStore.ActiveInvite | frontend/src/battle/BattleContext.jsx:192-195 | an empty active room code gives no invite; otherwise the first invite of that room, if still listed |
| BattleStore.AddInviteUnique | frontend/src/battle/BattleContext.jsx:141-144 | adding an invite keeps one invite per room |
| BattleStore.ActiveAfterInvite | frontend/src/battle/BattleContext.jsx:141-145 | after an invite arrives the modal shows the invite first received for its room, so a repeat does not replace it |
| BattleStore.WithoutRoomUnique | frontend/src/battle/BattleContext.jsx:197-200 | removing a room keeps one invite per room |
| BattleStore.WithoutRoomKeepsOthers | frontend/src/battle/BattleContext.jsx:197-200 | removing one room leaves every other room's invite findable as before |
| BattleStore.AppendCapped | frontend/src/battle/BattleContext.jsx:151-154 | the new message is last, at most 80 are kept, nothing is dropped below 80, and the result is a suffix of the old log plus the message |
| BattleStore.LastMessageIsNewest | frontend/src/battle/BattleContext.jsx:98-100 | right after a message is logged, lastStateMessage is that message, also when the full log drops its oldest entry |
| BattleStore.PushStateOk | frontend/src/battle/BattleContext.jsx:150-154 | stamping and appending keeps the log holding the newest min(n, 80) messages with ids 1, 2, 3 in arrival order |
| BattleStore.PushToast | frontend/src/battle/BattleContext.jsx:110 | the new toast is first, followed by the newest of the older ones, at most 4 in all |
| BattleStore.DropToast | frontend/src/battle/BattleContext.jsx:112-117 | exactly the toasts with another id remain |
| BattleStore.PushToastNewestFirst | frontend/src/battle/BattleContext.jsx:108-110 | pushing a toast with a larger id keeps the ids strictly decreasing |
| BattleStore.DropToastNewestFirst | frontend/src/battle/BattleContext.jsx:116-118 | removing a toast keeps the others newest first |
| BattleStore.FailureText | frontend/src/battle/BattleContext.jsx:216-217 | a failed call's toast shows its error message, or the fixed fallback when there is none |
| BattleStore.PushToastOk | frontend/src/battle/BattleContext.jsx:108-114 | adding a toast keeps at most 4 toasts, newest first, each with an id already handed out |
| BattleStore.DropToastOk | frontend/src/battle/BattleContext.jsx:116-118 | dismissing or expiring a toast keeps that invariant |
| BattleStore.Provider.constructor | frontend/src/battle/BattleContext.jsx:91-106 | the provider starts disconnected, out of battle, with empty log, invites and toasts and both counters at 1 |
| BattleStore.Provider.AddToast | frontend/src/battle/BattleContext.jsx:108-114 | the toast gets the next id and the list becomes PushToast of the old list |
| BattleStore.Provider.DismissToast | frontend/src/battle/BattleContext.jsx:116-118 | the list becomes DropToast of the old list |
| BattleStore.Provider.ExpireToast | frontend/src/battle/BattleContext.jsx:111-113 | the 4500 ms expiry makes the list DropToast of the old list |
| BattleStore.Provider.OnConnection | frontend/src/battle/BattleContext.jsx:133-135 | the connected flag becomes the reported value |
| BattleStore.Provider.SetUsername | frontend/src/battle/BattleContext.jsx:120-190 | the previous run is undone (unsubscribe and disconnect); no user resets connection, battle and invites; a user connects and subscribes, and the connection subscriber's immediate report leaves connected false while battle and invites are kept |
| BattleStore.Provider.OnInvite | frontend/src/battle/BattleContext.jsx:137-147 | a message that is not an invite changes nothing; an invite is added once per room, shown, and announced with a toast |
| BattleStore.Provider.OnState | frontend/src/battle/BattleContext.jsx:149-182 | the message is stamped and logged as AppendCapped describes, then handled by its type |
| BattleStore.Provider.ReactToState | frontend/src/battle/BattleContext.jsx:156-181 | INVITE_REJECTED shows an error toast; GAME_START enters the battle, drops every invite and opens the battle page unless on one; GAME_OVER leaves it with a toast; anything else changes nothing |
| BattleStore.Provider.ReactToRejected | frontend/src/battle/BattleContext.jsx:157-159 | an error toast with the message or '邀请失败' |
| BattleStore.Provider.ReactToStart | frontend/src/battle/BattleContext.jsx:161-175 | in battle in the message's room, invites cleared, and a navigation to the encoded room unless the room is empty or a battle page is shown |
| BattleStore.Provider.ReactToOver | frontend/src/battle/BattleContext.jsx:177-181 | out of battle, no room, and an info toast with the message or '对战结束' |
| BattleStore.Provider.RemoveInvite | frontend/src/battle/BattleContext.jsx:197-200 | the list becomes WithoutRoom of the old list, and the active room code is cleared only when it named that room |
| BattleStore.Provider.SendInvite | frontend/src/battle/BattleContext.jsx:202-209 | a blank target and being in battle are refused before any call; otherwise the invite is sent and, once it succeeds, a toast names the target |
| BattleStore.Provider.Respond | frontend/src/battle/BattleContext.jsx:211-229 | the answer is published; only when that succeeds is the invite removed with the accepted or rejected toast, otherwise the error toast shows the reason |
| BattleStore.Provider.SubmitAnswer | frontend/src/battle/BattleContext.jsx:231-233 | the socket is called with the longitude first, then the latitude |
| BattleStore.Provider.QuitBattle | frontend/src/battle/BattleContext.jsx:235-237 | exactly one quit call is made |
| BattleStore.ReadAcrossPush | frontend/src/battle/BattleContext.jsx:151-154 | a cursor reader that reads the log, a message is pushed and it reads again sees the same as one read of all messages, despite the 80-entry eviction |
| EventLog.After | frontend/src/pages/BattleGame.jsx:91 | the unseen events are log entries, each with an id above the cursor |
| EventLog.AfterAppend | frontend/src/pages/BattleGame.jsx:91 | filtering a concatenation is concatenating the filtered parts |
| EventLog.ReplayAppend | frontend/src/pages/BattleGame.jsx:94-162 | handling a concatenation of events is handling the first part and then the second |
| EventLog.AdvanceAppend | frontend/src/pages/BattleGame.jsx:97-161 | advancing the cursor over a concatenation advances it over each part in turn |
| EventLog.AdvanceIsMax | frontend/src/pages/BattleGame.jsx:97-161 | the new cursor is at least the old one and every handled id, and is one of them |
| EventLog.AfterNone | frontend/src/pages/BattleGame.jsx:91-92 | a log whose ids are all at or below the cursor has nothing new |
| EventLog.AfterAll | frontend/src/pages/BattleGame.jsx:91 | a log whose ids are all above the cursor is handled whole |
| EventLog.CursorCoversLog | frontend/src/pages/BattleGame.jsx:88-163 | after a run the cursor is at or above every id in the log it read |
| EventLog.MemberOfAfter | frontend/src/pages/BattleGame.jsx:91 | every log entry above the cursor is among the unseen events |
| EventLog.ConsumeIdempotent | frontend/src/pages/BattleGame.jsx:88-163 | running a reader again over the log it has just read changes neither its state nor its cursor |
| EventLog.ConsumeSkipsSeen | frontend/src/pages/BattleGame.jsx:91 | events at or below the cursor are skipped outright |
| EventLog.ConsumeTwoBatches | frontend/src/pages/Matchmaking.jsx:55-72 | reading the log at two moments gives what one read of the whole history gives, as long as every event added since the first read is still there |
| BattleGame.OtherRoomUnchanged | frontend/src/pages/BattleGame.jsx:96-99 | a message for another room leaves the view unchanged |
| BattleGame.GameStartResets | frontend/src/pages/BattleGame.jsx:104-120 | GAME_START installs players, health (default 100), round (default 1), question and answered flags, and clears the guess, the submitted flag, the result, the game-over state and the countdown |
| BattleGame.GameOverNotTerminal | frontend/src/pages/BattleGame.jsx:104-156 | GAME_OVER sets the game-over state, and a later GAME_START for the room clears it again |
| BattleGame.NewQuestionKeepsPlayers | frontend/src/pages/BattleGame.jsx:121-134 | NEW_QUESTION replaces round, question and health, clears both answered flags, guess and result, and keeps the players and the game-over state |
| BattleGame.PlayerAnsweredOnlyFlags | frontend/src/pages/BattleGame.jsx:135-140 | PLAYER_ANSWERED changes only the answered flags, the status line and the countdown (default 30) |
| BattleGame.RoundResultAndGameOver | frontend/src/pages/BattleGame.jsx:141-156 | ROUND_RESULT refreshes health and round and shows the result; GAME_OVER refreshes health and records the winner and message, defaulting to '游戏结束' |
| BattleGame.UnknownTypeOnlyStatus | frontend/src/pages/BattleGame.jsx:157-158 | a message of any other type only sets the status line to its message or '' |
| BattleGame.OtherRoomsOnlyAdvance | frontend/src/pages/BattleGame.jsx:96-99 | any run of messages for other rooms leaves the view unchanged |
| BattleGame.ConsumeOtherRooms | frontend/src/pages/BattleGame.jsx:88-163 | a log holding only other rooms' events leaves the view as it was |
| BattleGame.PageIdempotent | frontend/src/pages/BattleGame.jsx:88-163 | running the effect again on an unchanged log does nothing |
| BattleGame.PageTwoBatches | frontend/src/pages/BattleGame.jsx:88-163 | reading the log in two batches gives what reading it once gives |
| BattleGame.Tick | frontend/src/pages/BattleGame.jsx:171-174 | a running countdown drops by one per tick and goes out when it would reach zero |
| BattleGame.CountdownRunsOut | frontend/src/pages/BattleGame.jsx:165-181 | a countdown started at n shows n - k after k ticks and goes out after exactly n |
| BattleGame.Project | frontend/src/pages/BattleGame.jsx:68-73 | player A's health, name and flag are "mine" exactly when the user is player A, player B's otherwise |
| BattleGame.MineIsAIff | frontend/src/pages/BattleGame.jsx:68 | the user is player A exactly when the user name is non-empty and equals player A's name |
| BattleGame.BarWidth | frontend/src/pages/BattleGame.jsx:307 | the bar width is health clamped to 0..100 |
| BattleGame.Click | frontend/src/pages/BattleGame.jsx:243-251 | a click places the guess unless an answer was submitted or the game is over, and changes nothing else |
| BattleGame.Page.constructor | frontend/src/pages/BattleGame.jsx:42-66 | the page starts with the initial view, cursor 0 and nothing in flight |
| BattleGame.Page.OnStateEvents | frontend/src/pages/BattleGame.jsx:88-163 | the view and cursor afterwards are Consume of the old ones over the log |
| BattleGame.Page.CountdownTick | frontend/src/pages/BattleGame.jsx:170-175 | only the countdown changes, by Tick |
| BattleGame.Page.MapClick | frontend/src/pages/BattleGame.jsx:245-248 | the view becomes Click of the old view |
| BattleGame.Page.BeginSubmit | frontend/src/pages/BattleGame.jsx:215-222 | a submission starts exactly when the answer can be submitted and none is in flight; it locks the page and hands the longitude and latitude over |
| BattleGame.Page.FinishSubmit | frontend/src/pages/BattleGame.jsx:221-231 | on success the user's own answered flag is set with the waiting status; on failure the lock is lifted and the reason shown; the in-flight flag is cleared either way |
| BattleGame.SecondPressIsNoop | frontend/src/pages/BattleGame.jsx:216-218 | while a submission is in flight a second press starts nothing and changes nothing |
| Matchmaking.Step | frontend/src/pages/Matchmaking.jsx:60-71 | INVITE_REJECTED ends the sending state with the rejection message or '邀请失败'; GAME_START ends it with the entering text; any other message changes nothing |
| Matchmaking.CursorReachesEveryEvent | frontend/src/pages/Matchmaking.jsx:70 | the cursor moves over every handled event, whatever its type |
| Matchmaking.LobbyIdempotent | frontend/src/pages/Matchmaking.jsx:55-72 | running the effect again on an unchanged log does nothing |
| Matchmaking.AnswerEndsSending | frontend/src/pages/Matchmaking.jsx:62-69 | once a rejection or a start is read, the page is no longer sending unless a later invite starts again |
| Matchmaking.UnaffectedReplay | frontend/src/pages/Matchmaking.jsx:60-71 | messages that answer no invite leave the page as it was |
| Matchmaking.Lobby.constructor | frontend/src/pages/Matchmaking.jsx:20-23 | the page starts idle with cursor 0 |
| Matchmaking.Lobby.OnStateEvents | frontend/src/pages/Matchmaking.jsx:55-72 | status and cursor afterwards are Consume of the old ones over the log |
| Matchmaking.Lobby.BeginInvite | frontend/src/pages/Matchmaking.jsx:113-121 | a blank name is ignored; otherwise both messages are cleared, the page is sending to the trimmed name, its controls are disabled and the invite goes out |
| Matchmaking.Lobby.FinishInvite | frontend/src/pages/Matchmaking.jsx:121-126 | success shows '已发送邀请给：name，等待对方响应...'; failure shows the reason or '发送邀请失败' and ends the sending state |
| Scoring.RoundHalfUp | frontend/src/pages/Game.jsx:47 | the result is the nearest integer, with halves rounding up |
| Scoring.RoundMonotone | frontend/src/pages/Game.jsx:47 | rounding never reverses the order of two numbers |
| Scoring.RawScore | frontend/src/pages/Game.jsx:46 | the raw score lies between 0 and the maximum and is either 0 or max * (1 - m / radius) |
| Scoring.DecayScore | frontend/src/pages/Game.jsx:44-47 | the score is an integer between 0 and the maximum |
| Scoring.DecayAtZero | frontend/src/pages/Game.jsx:44-47 | a guess on the spot earns the full score |
| Scoring.DecayBeyondRadius | frontend/src/pages/Game.jsx:44-47 | from the radius on the score is 0 |
| Scoring.DecayMonotone | frontend/src/pages/Game.jsx:44-47 | the score never increases as the distance grows |
| SoloGame.DistanceAndScore | frontend/src/pages/Game.jsx:27-49 | without both answer coordinates the distance is NaN and the score 0; otherwise the score is the 100-point, 1000 m decay of the distance |
| SoloGame.GameScoreShape | frontend/src/pages/Game.jsx:44-47 | 100 on the spot, 0 from one kilometre on, never increasing with distance |
| SoloGame.ScoreFiftyIff | frontend/src/pages/Game.jsx:44-71 | the score is exactly 50 precisely for a distance in (495 m, 505 m] |
| SoloGame.BuildSubmitResult | frontend/src/pages/Game.jsx:51-78 | no guess and no answer coordinate each give their own message with score 0; otherwise distance, score, correct exactly when the score is 50, and the matching message |
| SoloGame.CorrectIff | frontend/src/pages/Game.jsx:70-71 | a result is correct exactly for a guess with an answer coordinate at a distance in (495 m, 505 m], so a guess on the spot is not correct |
| SoloGame.WheelScale | frontend/src/pages/Game.jsx:412-413 | the zoom moves by 0.12 in the wheel's direction and is clamped to [1, 3] |
| SoloGame.WheelStepBounded | frontend/src/pages/Game.jsx:408-415 | from a zoom within [1, 3] one step moves at most 0.12, inward for wheel up and outward for wheel down |
| SoloGame.Progress | frontend/src/pages/Game.jsx:129 | a label exists exactly for a non-empty list: min(index + 1, total) over total |
| SoloGame.IdAt | frontend/src/pages/Game.jsx:450 | an id exists exactly for an index inside the list, and it is the element there |
| SoloGame.Page.constructor | frontend/src/pages/Game.jsx:358-372 | the id list is the router's array or empty, the index its start index or 0, and nothing is loaded, guessed or shown |
| SoloGame.Page.MapClick | frontend/src/pages/Game.jsx:492-499 | a click places the guess unless a result is shown |
| SoloGame.Page.Submit | frontend/src/pages/Game.jsx:486-490 | the result shown is BuildSubmitResult of the guess and the answer coordinate |
| SoloGame.Page.Wheel | frontend/src/pages/Game.jsx:408-415 | only the practice page zooms, to WheelScale of the old zoom |
| SoloGame.Page.LoadDetail | frontend/src/pages/Game.jsx:423-444 | without a user the page goes to /login and requests nothing; otherwise it requests the question; success installs it and resets guess, result and zoom; failure shows the reason or '题目加载失败'; loading ends either way |
| SoloGame.Page.GoNext | frontend/src/pages/Game.jsx:446-451 | without a next question nothing happens; otherwise the index moves exactly one step on and that question is loaded |
| SoloGame.Page.Mount | frontend/src/pages/Game.jsx:453-468 | only the practice page acts: a missing question id, or the id 0 which the page's test treats as missing, goes to /solo and requests nothing; otherwise a missing or empty id list becomes that one id at index 0 while a non-empty list and its index are kept, and the question is requested without a page change when a user is stored, or the login page opened without a request when none is |
| Review.ResolveImageUrl | frontend/src/pages/Review.jsx:107-113 | an empty address stays empty, one starting with 'http' is kept, any other is the percent-encoded key under 'https://picui.cn/i/' |
| Review.ResolvedKeyRoundTrip | frontend/src/pages/Review.jsx:107-113 | the key can be decoded back from the resolved address, and distinct keys give distinct addresses |
| Review.Prev | frontend/src/pages/Review.jsx:250-251 | "previous" never goes below 0 and, when enabled, moves exactly one back |
| Review.Next | frontend/src/pages/Review.jsx:256-257 | "next" never goes past the last index and, when enabled, moves exactly one on |
| Review.NavigationStaysInRange | frontend/src/pages/Review.jsx:248-258 | from any index within the questions the enabled buttons keep it within them, and "next" is disabled exactly at the last question |
| Review.CenterOnMarker | frontend/src/pages/Review.jsx:159-163 | the map opens on the answer's marker whenever a score is shown, on the guess's marker when there is no answer, and on the fixed campus point when neither marker is shown; when no shown marker itself lies on that point, the map opens there only when neither is shown |
| Review.ReviewScore | frontend/src/pages/Review.jsx:169-173 | without both points there is no distance and the score is 0; otherwise it is the practice page's scoring |
| Review.ReviewMatchesPractice | frontend/src/pages/Review.jsx:41-63 | with both points the review shows the 100-point, 1000 m score of the distance, between 0 and 100 |
| Review.LastSlashFrom | frontend/src/pages/Review.jsx:212 | the position found holds the last '/' in the range, and none means there is no '/' there |
| Review.StripToKey | frontend/src/pages/Review.jsx:212 | an address without an http or https scheme is kept whole; the key is never longer than the address |
| Review.StripToKeyDropsPath | frontend/src/pages/Review.jsx:212 | for an http or https address, the key is the text after the last '/' that follows the scheme on the first line, since the pattern's `.` stops at a line terminator; without such a '/' the address is kept whole |
| Review.OneLineKeyHasNoSlash | frontend/src/pages/Review.jsx:212 | on a one-line http or https address with a '/' after the scheme, the key holds no '/' |
| Review.NewlineStopsStrip | frontend/src/pages/Review.jsx:212 | an https address whose only '/' after the scheme is on its second line is kept whole |
| Review.FirstUsableFrom | frontend/src/pages/Review.jsx:218 | the position found is the first usable address from the start point, and none means none is usable |
| Review.FindUsable | frontend/src/pages/Review.jsx:218 | the address found is a usable fallback (not the current source, no 'undefined'), and none is found exactly when none is usable |
| Review.OnErrorChange | frontend/src/pages/Review.jsx:208-221 | without a stored address nothing changes; otherwise the source becomes the first usable fallback, or null |
| Review.FallbacksAlternate | frontend/src/pages/Review.jsx:213-219 | the two fallbacks differ, so a failure of either switches to the other and a failed address is never retried at once |
| Review.LoadRecord | frontend/src/pages/Review.jsx:79-101 | the page goes back exactly when a user id or the record id is missing or 0; otherwise it shows the record, or the reason or '记录加载失败' |
| Review.ZeroRouterIdGoesBack | frontend/src/pages/Review.jsx:71-83 | a router user id of 0 is kept by ?? and sends the page back even with a stored user, while a missing one falls back to the stored id |
| Review.ImageLoader.constructor | frontend/src/pages/Review.jsx:115-116 | the cache starts empty with an empty source |
| Review.ImageLoader.Show | frontend/src/pages/Review.jsx:118-149 | no id clears the source; a truthy cached address is reused with no request; otherwise the question is fetched once and its picture, else the resolved stored key, is cached and shown (also when the fetch fails) |
| Review.ImageLoader.OnImageError | frontend/src/pages/Review.jsx:208-221 | the source changes exactly as OnErrorChange says |
| Review.ShowTwice | frontend/src/pages/Review.jsx:128-132 | once a non-empty address is cached, showing the question again makes no second request |
| SoloMode.FilterQuestions | frontend/src/pages/SoloMode.jsx:196-202 | a missing list gives an empty one; otherwise only questions matching every non-empty filter are kept |
| SoloMode.FilterQuestionsExact | frontend/src/pages/SoloMode.jsx:196-202 | a question is shown exactly when it is in the list and matches both filters, and filtering keeps the list's order (distributes over concatenation) |
| SoloMode.NoFilterKeepsAll | frontend/src/pages/SoloMode.jsx:196-202 | with both filters empty the whole list is shown unchanged |
| SoloMode.Pick | frontend/src/pages/SoloMode.jsx:48 | `floor(random * (i + 1))` for a draw in [0, 1) is an index from 0 to i |
| SoloMode.SwapPermutes | frontend/src/pages/SoloMode.jsx:49 | exchanging two elements keeps the multiset of elements |
| SoloMode.ShuffleFromPermutes | frontend/src/pages/SoloMode.jsx:47-50 | the loop from any index down to 1 permutes its input |
| SoloMode.ShuffledPermutes | frontend/src/pages/SoloMode.jsx:45-52 | whatever the draws, shuffleArray's result is a permutation of its input |
| SoloMode.Shuffle | frontend/src/pages/SoloMode.jsx:45-52 | the input is copied into a fresh array that is shuffled in place; the result is the specified shuffle and a permutation of the input |
| SoloMode.Ids | frontend/src/pages/SoloMode.jsx:857 | the id list has one entry per question, in order |
| SoloMode.ShuffleFromIds | frontend/src/pages/SoloMode.jsx:856-857 | shuffling and then taking ids is taking ids and then shuffling |
| SoloMode.WithCoord | frontend/src/pages/SoloMode.jsx:844-846 | the usable questions are a sub-list of the filtered ones |
| SoloMode.StartRandomPractice | frontend/src/pages/SoloMode.jsx:835-869 | an empty list and a list without coordinates give their own errors; otherwise the result is min(5, usable) ids drawn from the usable questions, without repeats when the list has none |
| SoloMode.PracticeIdsFromValid | frontend/src/pages/SoloMode.jsx:856-857 | the ids of any prefix of the shuffle are a sub-multiset of the usable questions' ids and are distinct when the list's ids are |
| SoloMode.IdsOfFilter | frontend/src/pages/SoloMode.jsx:844-846 | the usable questions' ids come from the list's ids |
| SoloMode.Truncate | frontend/src/pages/SoloMode.jsx:164-167 | a message of at most 200 characters is kept; a longer one becomes its first 200 characters followed by '...' |
| SoloMode.MatchFrom | frontend/src/pages/SoloMode.jsx:172 | the result is the first position from k where `=` is followed by a character other than ',' and '}', or none when there is no such position |
| SoloMode.RunEnd | frontend/src/pages/SoloMode.jsx:172 | the greedy run of non-stop characters ends at the end of the text or at a ',' or '}' |
| SoloMode.Capture | frontend/src/pages/SoloMode.jsx:172-174 | a capture is non-empty and holds no ',' or '}' |
| SoloMode.CaptureIsLeftmostLongest | frontend/src/pages/SoloMode.jsx:172-174 | the regular expression captures the longest run after the leftmost usable '=', and fails exactly when there is none |
| SoloMode.CleanErrorMessageCases | frontend/src/pages/SoloMode.jsx:160-185 | an empty message gives the fixed text; otherwise, on the cut message, a validation failure yields its trimmed capture, a content constraint the fixed text, anything else the cut message |
| SoloMode.CleanKeepsOrdinaryMessage | frontend/src/pages/SoloMode.jsx:160-185 | a short message that is neither a validation failure nor a constraint comes back unchanged |
| SoloMode.CleanBounded | frontend/src/pages/SoloMode.jsx:160-185 | the cleaned message is at most 203 characters, and an extracted validation message holds no ',' or '}' |
| SoloMode.CleanEmptyOnlyForBlankCapture | frontend/src/pages/SoloMode.jsx:170-177 | the cleaned message is empty only when a validation failure's capture is all white space |
| SoloMode.CleanOr | frontend/src/pages/SoloMode.jsx:299 | `cleanErrorMessage(m) \|\| fallback` is never empty when the fallback is not |
| SoloMode.ClearForm | frontend/src/pages/SoloMode.jsx:947-954 | coordinate, picture and texts are reset while campus and difficulty stay |
| SoloMode.CheckCreate | frontend/src/pages/SoloMode.jsx:251-278 | no user asks for login; a missing or zero coordinate part and a missing picture give their errors; a request is built exactly when all are present, carrying them unchanged |
| SoloMode.CreateTextsDefaulted | frontend/src/pages/SoloMode.jsx:290-292 | title, content and answer are sent trimmed, or as their defaults when blank, so never empty |
| SoloMode.ToggleOnlyTarget | frontend/src/pages/SoloMode.jsx:1089-1102 | only comments with the target's id change; their flag becomes the opposite of the target's and the count moves by one in that direction |
| SoloMode.ToggleTwiceRestores | frontend/src/pages/SoloMode.jsx:1089-1102 | liking and then unliking (or the reverse) restores the list when the shown flag was current |
| SoloMode.Page.constructor | frontend/src/pages/SoloMode.jsx:753-791 | the page starts with empty lists and filters, no selection and the default campus 'zhuhai' and difficulty 'easy' |
| SoloMode.Page.StartPractice | frontend/src/pages/SoloMode.jsx:835-869 | without usable questions an error is shown and nothing is navigated; otherwise exactly one navigation to the game with 1 to 5 ids from the usable filtered questions is appended |
| SoloMode.OpenPractice | frontend/src/pages/SoloMode.jsx:862-868 | the practice page opened from the router state a random run sends, which has no question id, goes back to /solo and requests no question, whatever the ids |
| SoloMode.OpenPracticeAtFirst | frontend/src/pages/Game.jsx:453-468 | a router state that also names the first drawn id opens the run on that question: the whole id list at index 0, that id requested when a user is stored, the login page otherwise |
| SoloMode.Page.SubmitCreate | frontend/src/pages/SoloMode.jsx:940-972 | no user navigates to login; an invalid form shows its error; a valid one sends exactly the checked request, and on success shows the created message, clears the form and reloads the list, on failure shows the cleaned error |
| SoloMode.Page.Delete | frontend/src/pages/SoloMode.jsx:896-938 | nothing without confirmation; login without a user; otherwise one delete request, and on success the message, the selection cleared only when it was this question, and a reload; on refusal or error the cleaned message |
| SoloMode.Page.ToggleLike | frontend/src/pages/SoloMode.jsx:1060-1107 | no user navigates to login; a successful call updates the comments as ToggleLiked says; an error changes nothing |
| FriendshipRepository.FindById | demo/src/main/java/com/campusguess/demo/repository/FriendshipRepository.java:15 | the row found has the id asked for; none is found only when no row has it |
| FriendshipRepository.FindPair | demo/src/main/java/com/campusguess/demo/repository/FriendshipRepository.java:18 | the row found goes from the first user to the second; none is found only when no row does |
| FriendshipRepository.FindPairUnique | pra/demo/src/main/java/com/campusguess/demo/model/entity/Friendship.java:9 | under the unique (sender, receiver) constraint the lookup by the two ids returns the one row between them in that direction |
| FriendshipRepository.OtherIds | demo/src/main/java/com/campusguess/demo/repository/FriendshipRepository.java:61 | one id per row, the id of the party other than the user |
| FriendshipRepository.BetweenExact | demo/src/main/java/com/campusguess/demo/repository/FriendshipRepository.java:20-24 | findBetweenUsers returns exactly the rows from either user to the other, and does not depend on the argument order |
| FriendshipRepository.BetweenSymmetric | demo/src/main/java/com/campusguess/demo/repository/FriendshipRepository.java:20-24 | swapping the two users gives the same rows in the same order |
| FriendshipRepository.PendingExact | demo/src/main/java/com/campusguess/demo/repository/FriendshipRepository.java:26-36 | the pending queries return exactly the PENDING rows the user received, respectively sent |
| FriendshipRepository.ExistsFriendshipIff | demo/src/main/java/com/campusguess/demo/repository/FriendshipRepository.java:48-53 | existsFriendship holds exactly when some row between the two, in either direction, is APPROVED |
| FriendshipRepository.MutualPairCountsTwice | demo/src/main/java/com/campusguess/demo/repository/FriendshipRepository.java:55-59 | a mutual friendship stored as two APPROVED rows adds two to countFriends |
| FriendshipRepository.FriendIdsAreOtherParties | demo/src/main/java/com/campusguess/demo/repository/FriendshipRepository.java:61-65 | findFriendIdsByUserId has one id per APPROVED row with the user (so as many as countFriends), each the other party: the receiver when the user sent the row, else the sender |
| FriendshipRepository.DeleteBetweenExact | demo/src/main/java/com/campusguess/demo/service/impl/FriendServiceImpl.java:333-339 | deleting the rows between the two users leaves no row between them and keeps every other row |
| FriendshipRepository.FriendshipTable.SaveExisting | pra/demo/src/main/java/com/campusguess/demo/service/impl/FriendServiceImpl.java:217 | saving a stored entity replaces its row and keeps the id counter; the table stays valid when the stored row with that id has the same sender and receiver |
| FriendshipRepository.FriendshipTable.Insert | pra/demo/src/main/java/com/campusguess/demo/service/impl/FriendServiceImpl.java:102-113 | saving a new entity appends it under the next generated id, which is returned; the table stays valid when no row has the same sender and receiver |
| FriendshipRepository.FriendshipTable.Rollback | demo/src/main/java/com/campusguess/demo/service/impl/FriendServiceImpl.java:40-41 | a failed transaction restores the rows it started from; the table is valid again when those rows were |
| FriendshipRepository.FriendshipTable.Delete | pra/demo/src/main/java/com/campusguess/demo/service/impl/FriendServiceImpl.java:342 | delete removes the row with that id and no other, and keeps the table valid |
| FriendshipRepository.FriendshipTable.DeleteAll | pra/demo/src/main/java/com/campusguess/demo/service/impl/FriendServiceImpl.java:324 | deleteAll removes every row whose id is among the given rows and no other, and keeps the table valid |
| FriendshipRepository.UniqueUpdate | pra/demo/src/main/java/com/campusguess/demo/model/entity/Friendship.java:9 | saving a row whose stored row with that id has the same sender and receiver keeps the unique constraint |
| FriendshipRepository.UniqueAppend | pra/demo/src/main/java/com/campusguess/demo/model/entity/Friendship.java:9 | inserting a row with a new id and a new (sender, receiver) pair keeps the unique constraint |
| FriendshipRepository.UniqueFilter | pra/demo/src/main/java/com/campusguess/demo/model/entity/Friendship.java:9 | keeping some of the rows, in order, keeps the unique constraint |
| FriendshipRepository.UniqueWithout | pra/demo/src/main/java/com/campusguess/demo/model/entity/Friendship.java:9 | deleting rows keeps the unique constraint |
| FriendshipRepository.KeptBelow | demo/src/main/java/com/campusguess/demo/service/impl/FriendServiceImpl.java:333-339 | deleting rows keeps every id below the id counter |
| FriendService.ToResponse | demo/src/main/java/com/campusguess/demo/service/impl/FriendServiceImpl.java:373-389 | the response carries the row's id, parties, status name and request time, and the handling time and type only when the row was handled |
| FriendService.FindUser | demo/src/main/java/com/campusguess/demo/service/impl/FriendServiceImpl.java:51-52 | the user found matches the key; none is found only when no user does |
| FriendService.FriendsOf | demo/src/main/java/com/campusguess/demo/service/impl/FriendServiceImpl.java:253-263 | the ids are looked up in order, one response per id; any unknown id throws 404 '好友用户不存在' |
| FriendService.AddFriendRefusals | demo/src/main/java/com/campusguess/demo/service/impl/FriendServiceImpl.java:45-62 | adding oneself is 400, an unknown target 404, an own pending request 400 and an own approved one 400, each leaving the table as it was |
| FriendService.AddFriendErrorKeeps | demo/src/main/java/com/campusguess/demo/service/impl/FriendServiceImpl.java:40-114 | whatever addFriend throws, the table is left as it was |
| FriendService.AddAfterClearErrorKeeps | demo/src/main/java/com/campusguess/demo/service/impl/FriendServiceImpl.java:72-107 | past the own-request check, every refusal keeps the table |
| FriendService.ClearedWithin | demo/src/main/java/com/campusguess/demo/service/impl/FriendServiceImpl.java:63-68 | deleting the own rejected request adds no row |
| FriendService.ClearedExact | demo/src/main/java/com/campusguess/demo/service/impl/FriendServiceImpl.java:63-68 | deleting the own rejected request removes exactly the row from the user to the friend |
| FriendService.ReceivedSurvives | demo/src/main/java/com/campusguess/demo/service/impl/FriendServiceImpl.java:63-73 | that deletion does not affect the friend's request to the user |
| FriendService.AddFriendAutoAccepts | demo/src/main/java/com/campusguess/demo/service/impl/FriendServiceImpl.java:72-79 | with a pending request from the friend, addFriend approves it with 'accept', creates the approved row back to the friend, adds no pending row and returns the approved request |
| FriendService.AcceptedRows | demo/src/main/java/com/campusguess/demo/service/impl/FriendServiceImpl.java:119-153 | acceptExistingRequest leaves the approved request and its approved reverse in the table, and only pending rows that were there before |
| FriendService.AddFriendRefusesFriends | demo/src/main/java/com/campusguess/demo/service/impl/FriendServiceImpl.java:80-96 | when the two are already friends in either direction addFriend throws 400 and changes nothing |
| FriendService.AddFriendSendsRequest | demo/src/main/java/com/campusguess/demo/service/impl/FriendServiceImpl.java:98-113 | otherwise addFriend stores exactly one new pending row from the user to the friend under the next id, which is then the only row in that direction |
| FriendService.ApproveBothEffect | demo/src/main/java/com/campusguess/demo/service/impl/FriendServiceImpl.java:175-198 | accepting a request approves it and the row in the other direction, whether that row existed or is created, adding no pending row |
| FriendService.HandleByNameCases | demo/src/main/java/com/campusguess/demo/service/impl/FriendServiceImpl.java:155-172 | no request from the friend is 404, a handled one 400, any other handle type (in any case) 400; the 403 never happens because the lookup fixes the receiver; a refusal changes nothing |
| FriendService.HandleByNameEffects | demo/src/main/java/com/campusguess/demo/service/impl/FriendServiceImpl.java:175-216 | accept approves the request and the row back from the user; reject deletes every row between the two and reports the request as pending with the handling filled in |
| FriendService.HandleByIdCases | pra/demo/src/main/java/com/campusguess/demo/service/impl/FriendServiceImpl.java:161-174 | an unknown id is 404, a request to someone else 403, a handled one 400, another handle type 400; a refusal changes nothing |
| FriendService.HandleByIdAccepts | pra/demo/src/main/java/com/campusguess/demo/service/impl/FriendServiceImpl.java:180-204 | accepting by id approves the request and the row back to its sender, creating it when absent |
| FriendService.HandleByIdRejects | pra/demo/src/main/java/com/campusguess/demo/service/impl/FriendServiceImpl.java:205-221 | rejecting by id keeps the row, now REJECTED with the handling filled in, and changes no other row |
| FriendService.RemoveFriendEffect | demo/src/main/java/com/campusguess/demo/service/impl/FriendServiceImpl.java:325-341 | an unknown user or friend is 404, no row between them 404; otherwise exactly the rows between the two, in both directions, are deleted |
| FriendService.CancelEffect | demo/src/main/java/com/campusguess/demo/service/impl/FriendServiceImpl.java:343-359 | cancelling succeeds exactly for a pending request the caller sent and removes that row only; an unknown id is 404, another's request 403, a handled one 400 |
| FriendService.PageAsWrittenWithinInt32 | demo/src/main/java/com/campusguess/demo/service/impl/FriendServiceImpl.java:241-250 | while page * size + size fits in an int, the page as written is the intended page |
| FriendService.PageOverflowCounterexample | demo/src/main/java/com/campusguess/demo/service/impl/FriendServiceImpl.java:243-244 | page 4294968 of 1000 over 2000 ids should be empty but wraps its start to 704 and returns ids 704-1703; page 2147484 throws |
| FriendService.PageOfSlices | demo/src/main/java/com/campusguess/demo/service/impl/FriendServiceImpl.java:243-250 | the intended page is empty exactly when the offset is past the end, and otherwise holds min(size, n - offset) ids |
| FriendService.PageOfCovers | demo/src/main/java/com/campusguess/demo/service/impl/FriendServiceImpl.java:243-250 | every id is on exactly the page and at exactly the place its position gives |
| FriendService.FriendListByNameOrder | demo/src/main/java/com/campusguess/demo/service/impl/FriendServiceImpl.java:227-269 | an unknown user is 404; otherwise the total is the number of friend ids and the page lists, in order, the users with the ids on the page, each 'approved' |
| FriendService.FriendListByIdOtherParty | pra/demo/src/main/java/com/campusguess/demo/service/impl/FriendServiceImpl.java:223-254 | an unknown user is 404; otherwise the total counts the approved rows and item i reports the approved row at offset page * size + i: the other party and the row's handling time |
| FriendService.SameUserById | pra/demo/src/main/java/com/campusguess/demo/model/entity/Friendship.java:9 | two known users with the same id are the same user |
| FriendService.WithoutKeepsConsistent | demo/src/main/java/com/campusguess/demo/service/impl/FriendServiceImpl.java:333-339 | deleting rows keeps the table consistent: unique pairs, ids below the counter, rows between known users |
| FriendService.UpdateKeepsConsistent | pra/demo/src/main/java/com/campusguess/demo/service/impl/FriendServiceImpl.java:217 | saving a stored row under the same id, sender and receiver keeps the table consistent |
| FriendService.AppendReverseKeepsConsistent | demo/src/main/java/com/campusguess/demo/service/impl/FriendServiceImpl.java:139-148 | inserting the approved row back for a request keeps the table consistent when no row goes that way yet |
| FriendService.KeptByUpdate | pra/demo/src/main/java/com/campusguess/demo/service/impl/FriendServiceImpl.java:217 | saving a row leaves every row with another id in the table |
| FriendService.SavedByUpdate | pra/demo/src/main/java/com/campusguess/demo/service/impl/FriendServiceImpl.java:217 | the saved row is in the table after saving when a row with its id was |
| FriendService.ApproveBothKeepsConsistent | demo/src/main/java/com/campusguess/demo/service/impl/FriendServiceImpl.java:175-198 | accepting a stored request keeps the table consistent |
| FriendService.AcceptExistingKeepsConsistent | demo/src/main/java/com/campusguess/demo/service/impl/FriendServiceImpl.java:119-153 | acceptExistingRequest keeps the table consistent |
| FriendService.AddAfterClearKeepsConsistent | demo/src/main/java/com/campusguess/demo/service/impl/FriendServiceImpl.java:72-113 | addFriend past its own-request check keeps the table consistent once no row goes from the user to the friend |
| FriendService.AddFriendKeepsConsistent | demo/src/main/java/com/campusguess/demo/service/impl/FriendServiceImpl.java:40-114 | addFriend maps a consistent table to a consistent table |
| FriendService.RemoveFriendKeepsConsistent | demo/src/main/java/com/campusguess/demo/service/impl/FriendServiceImpl.java:325-341 | removeFriend maps a consistent table to a consistent table |
| FriendService.CancelKeepsConsistent | demo/src/main/java/com/campusguess/demo/service/impl/FriendServiceImpl.java:343-359 | cancelFriendRequest maps a consistent table to a consistent table |
| FriendService.HandleByNameKeepsConsistent | demo/src/main/java/com/campusguess/demo/service/impl/FriendServiceImpl.java:155-225 | the name-keyed handleFriendRequest maps a consistent table to a consistent table |
| FriendService.HandleByIdKeepsConsistent | pra/demo/src/main/java/com/campusguess/demo/service/impl/FriendServiceImpl.java:161-221 | the id-keyed handleFriendRequest maps a consistent table to a consistent table |
| FriendService.AcceptStoresBothWays | demo/src/main/java/com/campusguess/demo/service/impl/FriendServiceImpl.java:175-198 | accepting the one pending request between two users leaves it approved plus an approved row back |
| FriendService.BothWaysListedTwice | demo/src/main/java/com/campusguess/demo/service/impl/FriendServiceImpl.java:233-238 | with an approved row each way, the name-keyed friend list counts two friends and lists the other user twice |
| FriendService.BothWaysIds | demo/src/main/java/com/campusguess/demo/repository/FriendshipRepository.java:61-65 | over an approved row each way between two users, the id query returns the other user's id twice |
| FriendService.AcceptedFriendListedTwice | demo/src/main/java/com/campusguess/demo/service/impl/FriendServiceImpl.java:233-238 | after one accepted request the name-keyed friend list counts two and lists the friend twice, although the comments promise de-duplicated ids |
| FriendService.FriendService.constructor | demo/src/main/java/com/campusguess/demo/service/impl/FriendServiceImpl.java:26-27 | the service starts over the given users and table |
| FriendService.FriendService.AddFriend | demo/src/main/java/com/campusguess/demo/service/impl/FriendServiceImpl.java:40-114 | the repository calls leave the table and return exactly what AddFriendSpec gives |
| FriendService.FriendService.AddNewOrAccept | demo/src/main/java/com/campusguess/demo/service/impl/FriendServiceImpl.java:72-113 | addFriend from the received-request check on matches its specification |
| FriendService.FriendService.AcceptExistingRequest | demo/src/main/java/com/campusguess/demo/service/impl/FriendServiceImpl.java:119-153 | acceptExistingRequest's calls match AcceptExisting |
| FriendService.FriendService.AcceptRequest | demo/src/main/java/com/campusguess/demo/service/impl/FriendServiceImpl.java:175-198 | the accept branch approves the request and the reverse row as ApproveBoth says |
| FriendService.FriendService.HandleFriendRequestByName | demo/src/main/java/com/campusguess/demo/service/impl/FriendServiceImpl.java:155-225 | the name-keyed handleFriendRequest matches HandleByNameSpec |
| FriendService.FriendService.HandleFriendRequestById | pra/demo/src/main/java/com/campusguess/demo/service/impl/FriendServiceImpl.java:161-221 | the id-keyed handleFriendRequest matches HandleByIdSpec |
| FriendService.FriendService.RemoveFriend | demo/src/main/java/com/campusguess/demo/service/impl/FriendServiceImpl.java:325-341 | removeFriend matches RemoveFriendSpec |
| FriendService.FriendService.CancelFriendRequest | demo/src/main/java/com/campusguess/demo/service/impl/FriendServiceImpl.java:343-359 | cancelFriendRequest matches CancelSpec |
| UserService.ByName | demo/src/main/java/com/campusguess/demo/service/impl/UserServiceImpl.java:62 | the row found has the name; none is found exactly when no row has it |
| UserService.ById | demo/src/main/java/com/campusguess/demo/service/impl/UserServiceImpl.java:68 | the row found has the id; none is found exactly when no row has it |
| UserService.FindByUsernameExact | demo/src/main/java/com/campusguess/demo/service/impl/UserServiceImpl.java:60-64 | findByUsername succeeds exactly when a row has the name, returns that row, and is otherwise 404 '用户不存在' |
| UserService.FindByIdExact | demo/src/main/java/com/campusguess/demo/service/impl/UserServiceImpl.java:66-70 | findById succeeds exactly when a row has the id, returns that row, and is otherwise 404 '用户不存在' |
| UserService.RegisterEffect | demo/src/main/java/com/campusguess/demo/service/impl/UserServiceImpl.java:24-40 | a taken name is 400 with nothing stored; a free one adds exactly one row with a fresh id, the encoded password, role 'user' unless one is given and 0 points, which the name then finds, and the table stays valid |
| UserService.AuthenticateCases | demo/src/main/java/com/campusguess/demo/service/impl/UserServiceImpl.java:42-58 | an unknown name and a wrong password give the same 401; a disabled account is 401 '账号已被禁用'; otherwise the user's row is returned |
| UserService.OneRowPerUser | demo/src/main/java/com/campusguess/demo/service/impl/UserServiceImpl.java:87-91 | in a valid table a row has a known user's id exactly when it has that user's name, and is then that user |
| UserService.ReplaceKeepsValid | demo/src/main/java/com/campusguess/demo/service/impl/UserServiceImpl.java:77 | saving a user over its own row keeps ids and names unique, and the name then finds the saved user |
| UserService.UpdateLastLoginEffect | demo/src/main/java/com/campusguess/demo/service/impl/UserServiceImpl.java:72-78 | an unknown id is 404 with no change; otherwise only that user's lastLoginAt changes, to the given instant |
| UserService.ChangePointsEffect | demo/src/main/java/com/campusguess/demo/service/impl/UserServiceImpl.java:80-94 | a null change is 400 and an unknown name 404, both with no change; otherwise only that user's points change, to before + change in 32-bit int arithmetic (a null count read as 0), and the response carries the user, before, change and after |
| UserService.ChangePointsUndo | demo/src/main/java/com/campusguess/demo/service/impl/UserServiceImpl.java:88-90 | taking back a change restores the points when neither step overflows |
| UserService.ChangePointsTwice | demo/src/main/java/com/campusguess/demo/service/impl/UserServiceImpl.java:87-91 | two changes in a row both succeed and leave the two changes added in turn |
| UserService.ReplaceFinds | demo/src/main/java/com/campusguess/demo/service/impl/UserServiceImpl.java:91 | after saving the row a name finds, the name finds the saved row |
| UserService.UserStore.constructor | demo/src/main/java/com/campusguess/demo/service/impl/UserServiceImpl.java:21 | the store starts from the given table |
| UserService.UserStore.Register | demo/src/main/java/com/campusguess/demo/service/impl/UserServiceImpl.java:24-40 | the repository calls match RegisterSpec |
| UserService.UserStore.UpdateLastLogin | demo/src/main/java/com/campusguess/demo/service/impl/UserServiceImpl.java:72-78 | the repository calls match UpdateLastLoginSpec |
| UserService.UserStore.ChangePoints | demo/src/main/java/com/campusguess/demo/service/impl/UserServiceImpl.java:80-94 | the repository calls match ChangePointsSpec |
| QuestionServiceDemo.Find | demo/src/main/java/com/campusguess/demo/service/impl/QuestionServiceImpl.java:57 | the row found has the id; none is found exactly when no row has it |
| QuestionServiceDemo.ToResponse | demo/src/main/java/com/campusguess/demo/service/impl/QuestionServiceImpl.java:104-124 | the response copies id, texts, time, campus and difficulty; the coordinate is present exactly when both parts are set; author id and name exactly when there is an author; no image data |
| QuestionServiceDemo.ByAuthor | demo/src/main/java/com/campusguess/demo/service/impl/QuestionServiceImpl.java:85 | exactly the questions whose author has the name are selected |
| QuestionServiceDemo.Responses | demo/src/main/java/com/campusguess/demo/service/impl/QuestionServiceImpl.java:86 | one response per question, in order |
| QuestionServiceDemo.ListQuestions | demo/src/main/java/com/campusguess/demo/service/impl/QuestionServiceImpl.java:75-79 | the total is the number of questions; the page is empty from an offset page*size at or past the end, and otherwise holds min(size, questions - offset) entries, the i-th the response for the question at offset page*size + i |
| QuestionServiceDemo.Remove | demo/src/main/java/com/campusguess/demo/service/impl/QuestionServiceImpl.java:100 | exactly the row with the id is removed |
| QuestionServiceDemo.CreateEffect | demo/src/main/java/com/campusguess/demo/service/impl/QuestionServiceImpl.java:31-52 | an unknown author is 404 with nothing stored; otherwise exactly one question is added under the next id, with every field from the request, the coordinates only when the request has one, and that author; getQuestion then finds it |
| QuestionServiceDemo.FindLast | demo/src/main/java/com/campusguess/demo/service/impl/QuestionServiceImpl.java:50 | a saved row whose id no other row has is the one found by its id |
| QuestionServiceDemo.GetQuestionCases | demo/src/main/java/com/campusguess/demo/service/impl/QuestionServiceImpl.java:54-71 | a missing id is 404; otherwise the response of the row, with image data fetched exactly when it has an image key and equal to what the image host gives for that key |
| QuestionServiceDemo.ListByUser | demo/src/main/java/com/campusguess/demo/service/impl/QuestionServiceImpl.java:81-88 | a listed page is the requested page of the user's questions in table order: as many as remain after the offset page * size, at most size, each the response for the user's question at offset + place, naming the user as author |
| QuestionServiceDemo.ListByUserCases | demo/src/main/java/com/campusguess/demo/service/impl/QuestionServiceImpl.java:81-88 | an unknown user is 404; otherwise the list is given and its total counts that user's questions |
| QuestionServiceDemo.DeleteEffect | demo/src/main/java/com/campusguess/demo/service/impl/QuestionServiceImpl.java:90-102 | a missing id is 404; a question without an author or by someone else is 403, both with no change; otherwise exactly that question is removed |
| QuestionServiceDemo.QuestionStore.constructor | demo/src/main/java/com/campusguess/demo/service/impl/QuestionServiceImpl.java:27 | the store starts from the given table |
| QuestionServiceDemo.QuestionStore.CreateQuestion | demo/src/main/java/com/campusguess/demo/service/impl/QuestionServiceImpl.java:31-52 | the repository calls match CreateSpec |
| QuestionServiceDemo.QuestionStore.DeleteQuestion | demo/src/main/java/com/campusguess/demo/service/impl/QuestionServiceImpl.java:90-102 | the repository calls match DeleteSpec |
| QuestionServicePra.Find | pra/demo/src/main/java/com/campusguess/demo/service/impl/QuestionServiceImpl.java:44-45 | the row found has the id; none is found exactly when no row has it |
| QuestionServicePra.Replace | pra/demo/src/main/java/com/campusguess/demo/service/impl/QuestionServiceImpl.java:53 | saving an existing entity replaces exactly the rows with its id |
| QuestionServicePra.FindReplaced | pra/demo/src/main/java/com/campusguess/demo/service/impl/QuestionServiceImpl.java:53 | after saving an entity its id finds it |
| QuestionServicePra.ApplyDto | pra/demo/src/main/java/com/campusguess/demo/service/impl/QuestionServiceImpl.java:135-151 | every editable field, the campus included, is overwritten from the request even with null; the approval flag only when the request has one; id, hint level, creator and counters stay |
| QuestionServicePra.ApplyDtoIdempotent | pra/demo/src/main/java/com/campusguess/demo/service/impl/QuestionServiceImpl.java:135-151 | applying a request twice is applying it once, and the editable fields do not depend on the entity it is applied to |
| QuestionServicePra.ToResponse | pra/demo/src/main/java/com/campusguess/demo/service/impl/QuestionServiceImpl.java:153-168 | the response throws exactly when the question has no creator, and otherwise carries the id, title and creator's name |
| QuestionServicePra.ResponseHidesAnswer | pra/demo/src/main/java/com/campusguess/demo/service/impl/QuestionServiceImpl.java:153-168 | questions that differ only in the correct location and its coordinates give the same response |
| QuestionServicePra.Average | pra/demo/src/main/java/com/campusguess/demo/service/impl/QuestionServiceImpl.java:128 | the new rate times (plays + 1) is the old total plus the hit |
| QuestionServicePra.AverageInRange | pra/demo/src/main/java/com/campusguess/demo/service/impl/QuestionServiceImpl.java:128 | a running average of a rate and a hit in [0, 1] stays in [0, 1] |
| QuestionServicePra.UpdateCorrectRate | pra/demo/src/main/java/com/campusguess/demo/service/impl/QuestionServiceImpl.java:122-133 | the count becomes the 32-bit int sum of the count and 1, and the new rate times the new count equals the old rate times the old count plus the hit; below the int limit the rate is the running average; nothing else changes |
| QuestionServicePra.RateStaysInRange | pra/demo/src/main/java/com/campusguess/demo/service/impl/QuestionServiceImpl.java:122-133 | a rate in [0, 1] stays in [0, 1] after one more answer while the count is below the int limit |
| QuestionServicePra.RateLeavesRangeAtIntMax | pra/demo/src/main/java/com/campusguess/demo/service/impl/QuestionServiceImpl.java:128-130 | at the int limit the count wraps to the most negative int and a rate of one half becomes negative after a wrong answer |
| QuestionServicePra.CreateEffect | pra/demo/src/main/java/com/campusguess/demo/service/impl/QuestionServiceImpl.java:29-39 | a new question is stored under a fresh id with the request's fields, the creator, the campus defaulted to 1, and the blank counters; the response is the stored question's |
| QuestionServicePra.FindAppended | pra/demo/src/main/java/com/campusguess/demo/service/impl/QuestionServiceImpl.java:37 | an id no row has finds the row appended with it |
| QuestionServicePra.UpdateCases | pra/demo/src/main/java/com/campusguess/demo/service/impl/QuestionServiceImpl.java:41-55 | a missing question is refused, one without a creator throws, a caller who is neither the creator nor an ADMIN is refused, each storing nothing; otherwise the request is applied, the campus as given without the default, and saved over the row |
| QuestionServicePra.GetByIdEffect | pra/demo/src/main/java/com/campusguess/demo/service/impl/QuestionServiceImpl.java:57-67 | a missing question changes nothing; otherwise its play count goes up by one (32-bit int) and is saved, no other row changes, and the response shows the new count |
| QuestionServicePra.AnswerCases | pra/demo/src/main/java/com/campusguess/demo/service/impl/QuestionServiceImpl.java:69-99 | a missing question changes nothing; an answer is correct exactly when the distance is at most 50 m, the correct location is shown only then, and the rate and count are updated as one more answer |
| QuestionServicePra.QuestionStore.constructor | pra/demo/src/main/java/com/campusguess/demo/service/impl/QuestionServiceImpl.java:22 | the store starts from the given table |
| QuestionServicePra.QuestionStore.Save | pra/demo/src/main/java/com/campusguess/demo/service/impl/QuestionServiceImpl.java:53 | save replaces the entity's rows and keeps the id counter |
| QuestionServicePra.QuestionStore.CreateQuestion | pra/demo/src/main/java/com/campusguess/demo/service/impl/QuestionServiceImpl.java:29-39 | the calls match CreateSpec |
| QuestionServicePra.QuestionStore.UpdateQuestion | pra/demo/src/main/java/com/campusguess/demo/service/impl/QuestionServiceImpl.java:41-55 | the calls match UpdateSpec |
| QuestionServicePra.QuestionStore.GetQuestionById | pra/demo/src/main/java/com/campusguess/demo/service/impl/QuestionServiceImpl.java:57-67 | the calls match GetByIdSpec |
| QuestionServicePra.QuestionStore.AnswerQuestion | pra/demo/src/main/java/com/campusguess/demo/service/impl/QuestionServiceImpl.java:69-99 | the calls match AnswerSpec |
| RecordService.CalculateScore | demo/src/main/java/com/campusguess/demo/service/impl/RecordServiceImpl.java:153-161 | the score lies in [0, 50]; it is 0 without a correct coordinate, and otherwise the rounded linear decay of the distance over 10 km |
| RecordService.CalculateScoreEnds | demo/src/main/java/com/campusguess/demo/service/impl/RecordServiceImpl.java:157-160 | a guess on the spot scores 50 and one 10 km or more away scores 0 |
| RecordService.ItemFor | demo/src/main/java/com/campusguess/demo/service/impl/RecordServiceImpl.java:55-75 | a null question id or coordinate is 400 '题目或坐标缺失', an unknown question 400; otherwise the item holds the question found, the guess and its score |
| RecordService.ScoreEntries | demo/src/main/java/com/campusguess/demo/service/impl/RecordServiceImpl.java:55-77 | the items are scored in entry order, one per entry, and scoring succeeds exactly when every entry does |
| RecordService.ScoreEntriesFirstFailure | demo/src/main/java/com/campusguess/demo/service/impl/RecordServiceImpl.java:55-61 | a failed scoring reports the error of the first bad entry, every earlier entry being good |
| RecordService.ScoreEntriesPrefixFails | demo/src/main/java/com/campusguess/demo/service/impl/RecordServiceImpl.java:55-61 | once a prefix of the entries fails, the whole list fails the same way |
| RecordService.EarnExact | demo/src/main/java/com/campusguess/demo/service/impl/RecordServiceImpl.java:53-76 | with scores in [0, 50] and 50 * n within int range the int sum is exact and lies in [0, 50 * n] |
| RecordService.SubmitRefusals | demo/src/main/java/com/campusguess/demo/service/impl/RecordServiceImpl.java:37-61 | a null request, user id or list, or an empty list, is 400 '参数错误'; an unknown user 400; a bad entry its 400; nothing is stored on any of them |
| RecordService.SubmitEffect | demo/src/main/java/com/campusguess/demo/service/impl/RecordServiceImpl.java:37-97 | a good submission stores one record for the user with one item per entry in order, the entry count, the points earned and before and after (int arithmetic); only that user's points change, to the after value; the response has the new id and the points |
| RecordService.Reversed | demo/src/main/java/com/campusguess/demo/service/impl/RecordServiceImpl.java:104 | the reversal takes element i from the other end |
| RecordService.NewestFirst | demo/src/main/java/com/campusguess/demo/service/impl/RecordServiceImpl.java:104 | exactly the user's records are returned |
| RecordService.SubmitKeepsOrder | demo/src/main/java/com/campusguess/demo/service/impl/RecordServiceImpl.java:85 | a submission at an instant no earlier than the last keeps the records in creation order |
| RecordService.NewestFirstOrdered | demo/src/main/java/com/campusguess/demo/service/impl/RecordServiceImpl.java:104 | in a table kept in creation order, the user's records come newest first |
| RecordService.FilterOrdered | demo/src/main/java/com/campusguess/demo/service/impl/RecordServiceImpl.java:104 | selecting from a table kept in creation order keeps the order |
| RecordService.ListItemsOf | demo/src/main/java/com/campusguess/demo/service/impl/RecordServiceImpl.java:106-109 | one list item per record, in order, with its id, points and time |
| RecordService.UserRecordsExact | demo/src/main/java/com/campusguess/demo/service/impl/RecordServiceImpl.java:99-112 | an unknown user is 404; otherwise one item per record of that user and every record of the user is listed |
| RecordService.DetailsOf | demo/src/main/java/com/campusguess/demo/service/impl/RecordServiceImpl.java:129-144 | one question detail per record item, in order |
| RecordService.FindRecord | demo/src/main/java/com/campusguess/demo/service/impl/RecordServiceImpl.java:119 | the record found has the id; none is found exactly when no record has it |
| RecordService.DetailCases | demo/src/main/java/com/campusguess/demo/service/impl/RecordServiceImpl.java:114-151 | an unknown user or record is 404 and another user's record 403; otherwise one entry per item in order with the guess and its score, the record's game fields and its own point fields |
| RecordService.SubmitThenDetail | demo/src/main/java/com/campusguess/demo/service/impl/RecordServiceImpl.java:37-151 | a record just submitted reads back with the entry count, the points earned, before and after, and one answer per entry with that entry's guess |
| RecordService.FindNewRecord | demo/src/main/java/com/campusguess/demo/service/impl/RecordServiceImpl.java:85 | a saved record whose id no stored record has is found by its id |
| RecordService.RecordStore.constructor | demo/src/main/java/com/campusguess/demo/service/impl/RecordServiceImpl.java:27-31 | the store starts over the given users and records |
| RecordService.RecordStore.SubmitRecord | demo/src/main/java/com/campusguess/demo/service/impl/RecordServiceImpl.java:35-97 | the repository calls match SubmitSpec |
| RecordService.RecordStore.ScoreAll | demo/src/main/java/com/campusguess/demo/service/impl/RecordServiceImpl.java:52-77 | the loop yields exactly ScoreEntries and, on success, the int sum of the scores |
| RecordService.RecordStore.SaveAndCredit | demo/src/main/java/com/campusguess/demo/service/impl/RecordServiceImpl.java:79-96 | saving the record and crediting the points match Credit |
| RecordService.RecordStore.GetUserRecords | demo/src/main/java/com/campusguess/demo/service/impl/RecordServiceImpl.java:99-112 | the result is exactly UserRecordsSpec |
| RecordService.RecordStore.GetRecordDetail | demo/src/main/java/com/campusguess/demo/service/impl/RecordServiceImpl.java:114-151 | the result is exactly DetailSpec |
| JwtToken.TokenFromHeader | demo/src/main/java/com/campusguess/demo/config/JwtTokenUtil.java:59-66 | a token is found exactly when the header is present and starts with "Bearer ", and the header is then that prefix followed by the token |
| JwtToken.BearerRoundTrip | demo/src/main/java/com/campusguess/demo/config/JwtTokenUtil.java:62-63 | the header "Bearer " + token gives back exactly that token |
| JwtToken.ClaimsOf | demo/src/main/java/com/campusguess/demo/config/JwtTokenUtil.java:118-132 | the claims are returned exactly when the parser accepted the token; an expired token rethrows its ExpiredJwtException and every other refusal becomes JwtException('无效的Token') |
| JwtToken.CoerceCases | demo/src/main/java/com/campusguess/demo/config/JwtTokenUtil.java:68-88 | a null userId claim is refused with 'Token中未找到用户ID'; a Long or an Integer claim is the id itself; a String claim succeeds exactly when Long.parseLong accepts it, with the parsed value, and otherwise throws NumberFormatException; any other type is refused with '无法解析用户ID' |
| JwtToken.MissingUserIdRefused | demo/src/main/java/com/campusguess/demo/config/JwtTokenUtil.java:71-76 | a token whose userId claim is absent or null yields no user id |
| JwtToken.UserIdRoundTrip | demo/src/main/java/com/campusguess/demo/config/JwtTokenUtil.java:79-85 | an id stored as a Long, as an Integer that fits in 32 bits, or as its decimal text is read back unchanged |
| JwtToken.UserIdFromRequestCases | demo/src/main/java/com/campusguess/demo/config/JwtTokenUtil.java:90-97 | a request without an Authorization header, or with one that is not a bearer token, is refused with '未找到Token'; otherwise its user is the one of the token after the prefix |
| JwtToken.ValidateTokenIff | demo/src/main/java/com/campusguess/demo/config/JwtTokenUtil.java:104-112 | an accepted token is valid exactly when its subject is the user's name and its expiration is not before now; an expired token throws instead of answering false, and any other refusal throws '无效的Token' |
| ImageClient.StatusCases | demo/src/main/java/com/campusguess/demo/service/ImageClient.java:50-54 | the status flag is a Boolean taken as is or a String read by Boolean.parseBoolean; any other value, and an absent one, means failure |
| ImageClient.ListValue | demo/src/main/java/com/campusguess/demo/service/ImageClient.java:61-69 | the list is body.data.data when data is a map holding a non-null data entry, and body.data otherwise |
| ImageClient.FirstMatch | demo/src/main/java/com/campusguess/demo/service/ImageClient.java:76-89 | nothing is found exactly when no element is a map whose non-null key reads as the one asked for; a found image is such an element |
| ImageClient.FirstMatchAt | demo/src/main/java/com/campusguess/demo/service/ImageClient.java:76-86 | the first matching element is the one returned, whatever follows it |
| ImageClient.FetchCases | demo/src/main/java/com/campusguess/demo/service/ImageClient.java:29-90 | a failed exchange, a null body, a false status or a data value that is not a list gives null; otherwise the result is the first matching element of the list |
| ImageClient.FetchFound | demo/src/main/java/com/campusguess/demo/service/ImageClient.java:76-86 | a found image comes from a successful reply whose list holds it at an index where it matches and no earlier element matches |
| ImageClient.FetchImageByKey | demo/src/main/java/com/campusguess/demo/service/ImageClient.java:29-90 | the scan over the host's reply returns exactly the reference result Fetch(reply, key) |
| JavaValue.ToText | demo/src/main/java/com/campusguess/demo/service/ImageClient.java:81 | a String's toString is itself; null, lists and maps give no text to compare |
| JavaValue.ParseBooleanExamples | demo/src/main/java/com/campusguess/demo/service/ImageClient.java:53 | Boolean.parseBoolean accepts "true" in any letter case and nothing else, not even with surrounding spaces |
| Common.TrimIsInfix | frontend/src/battle/battleSocket.js:102 | trim() keeps a contiguous part of the text, from its first to its last non-space character |
| Common.TrimEmptyIff | frontend/src/battle/battleSocket.js:102-103 | a trimmed text is empty exactly when the text is all white space |
| Common.TrimIdempotent | frontend/src/pages/SoloMode.jsx:290-292 | trimming a trimmed text changes nothing |
| Common.IndexOf | frontend/src/pages/SoloMode.jsx:170 | the first position where the pattern occurs, and none exactly when it occurs nowhere |
| Common.ToLowerAscii | demo/src/main/java/com/campusguess/demo/service/impl/FriendServiceImpl.java:172 | lower-casing keeps the length and changes only upper-case ASCII letters |
| Common.FilterMembership | demo/src/main/java/com/campusguess/demo/repository/FriendshipRepository.java:21-24 | a row is selected by a WHERE query exactly when it is one of the table's rows and satisfies the condition |
| Common.Wrap32 | demo/src/main/java/com/campusguess/demo/service/impl/FriendServiceImpl.java:243 | a Java int holds the product reduced modulo 2^32 into the signed range, which is the product itself when it fits |
| Common.AddInt32 | demo/src/main/java/com/campusguess/demo/service/impl/FriendServiceImpl.java:244 | Java int addition is exact when the sum fits and wraps by 2^32 above or below the range |
| Common.PageOf | demo/src/main/java/com/campusguess/demo/service/impl/FriendServiceImpl.java:241-250 | the page holds at most size elements, each the one at offset page*size + i of the list |
| Common.ParseLongRoundTrip | demo/src/main/java/com/campusguess/demo/config/JwtTokenUtil.java:84 | Long.parseLong reads back the decimal text of every 64-bit value |
| Json.Get | frontend/src/pages/BattleGame.jsx:105 | a member is read exactly when the value is an object holding that key |
| Json.SafeNumber | frontend/src/pages/BattleGame.jsx:19-21 | a value is kept exactly when it is a number, and then unchanged |
| Json.TextOr | frontend/src/battle/BattleContext.jsx:203 | String(v \|\| '') is '' for an absent or falsy value and the string itself for a string |
| Uri.Utf8RoundTrip | frontend/src/pages/Review.jsx:112 | UTF-8 decoding undoes UTF-8 encoding for every text |
| Uri.UnescapeEncode | frontend/src/pages/Review.jsx:112 | percent-decoding an encoded text gives back the UTF-8 bytes of the text |
| Uri.DecodeEncode | frontend/src/battle/battleSocket.js:10-11 | decoding an encoded text, as a URL query value or as a path component, gives the text back |
| Uri.EncodeInjective | frontend/src/pages/Review.jsx:112 | two different texts never encode to the same URL part |
| Uri.EncodeAlphabet | frontend/src/battle/battleSocket.js:10-11 | an encoded text holds only unreserved characters, '%' and hex digits (and '+' for a query value) |
| Uri.EncodedCharIsNoSeparator | frontend/src/battle/battleSocket.js:11 | no encoded character is '&', '=', '/', '?', '#' or a space, so the value cannot break the URL apart |

## Left out

- The haversine distance (Game.jsx, Review.jsx, RecordServiceImpl.java, the id-keyed QuestionServiceImpl.java) and `formatMeters`: the distance is an input non-negative real, and doubles are reals.
- The STOMP/SockJS library (heartbeats, reconnect delay, frame encoding): the client is an abstract object whose callbacks are operations of the model.
- Timers (toast expiry, the answer countdown, the handshake timeout, the 1200 ms auto-next of Game.jsx:470-484): they are explicit tick or expire operations. The practice page's auto-next is not modelled.
- Overlapping asynchronous calls: every awaited outcome is a parameter, so interleavings other than the modelled call orders are not covered.
- `JSON.parse`/`JSON.stringify`, axios, fetch, RestTemplate and the image upload: abstract codecs and inputs.
- JPA persistence, entity aliasing and transactions beyond rolling back on an exception: the repositories are in-memory sequences.
- Password hashing (BCrypt) and token signing (`generateToken`): foreign calls, given as parameters.
- React rendering, Leaflet maps, animation and styling.
- SoloMode `loadQuestionList`, `loadQuestionDetail`, `handleSelect`, `loadComments`, `handleCommentSubmit`, `handleDeleteComment`, `handleImageUpload` and `handleRefresh`: API round trips that only copy data into state.
- The per-question memo of the review page: it only reshapes the fetched record for rendering.
- `fetchAllImages` in ImageClient.java:92-112: it returns the host's list without further logic.
- The id-keyed `getRandomQuestion`: it calls `convertToResponse`, which the service does not declare.
- `getFriendIds`, `getPendingRequests`, `getSentRequests`, `isFriend` and `getFriendCount` of both friend services: each is a user lookup followed by one repository query. The queries are modelled in FriendshipRepository (`PendingExact`, `ExistsFriendshipIff`, `FriendIdsAreOtherParties`, `MutualPairCountsTwice`), but the service wrappers are not.
- `CoordDTO` conversions and the `enabled` default of a new user: data carriers with no logic.
- Controllers, the exception-to-status mapping, DTO classes without logic, the UI-only pages and the thin API wrappers.
- JavaValue.ToText: a list or map has no text here, whereas Java's `toString` gives a "[...]" or "{...}" text that could in theory equal an image key.
- Common.ToLowerAscii: lowers ASCII letters only. Java's `toLowerCase` also lowers other letters, but the lowered text is only compared with "accept", "reject" and "true", letters which no non-ASCII character lowers to.
- RecordService.EarnExact: states the points sum only when 50 times the number of entries fits in a Java int. Beyond that the Java sum wraps around.
- QuestionServicePra.UpdateCorrectRate, QuestionServicePra.AnswerSpec, QuestionServicePra.AnswerCases, QuestionServicePra.QuestionStore.AnswerQuestion: require that no stored count is -1. Java divides by 0.0 there and stores NaN or an infinity, which reals do not have. A count reaches -1 only after wrapping past the largest int, which the fetch-by-id and answer paths both can do.
- QuestionServicePra.RateStaysInRange: proved for one answer at a time, and only while the count is below the largest int. At that count the divisor wraps negative and the rate leaves [0, 1] (RateLeavesRangeAtIntMax). The closed form of the running average over many answers is not stated.
- SoloMode.Truncate: counts Unicode scalar values, one per `char`. JavaScript's `length` and `substring` count UTF-16 code units, so a message with characters outside the Basic Multilingual Plane is cut at a different place, and can be cut inside a surrogate pair. Strings here have no UTF-16 view.
- Common.ParseLong: accepts ASCII digits `0`-`9` only. Java's Long.parseLong also takes every other Unicode decimal digit (Character.digit), such as Arabic-Indic or full-width digits; the model reports None for those.
- AuthStorage.Spread: only a stored JSON object spreads into members. In JavaScript, `{...auth}` in setAuth and setDisplayName (authStorage.js:34,65) also spreads a stored string or array into its index keys "0", "1", and so on, so the object they store would hold those keys as well.
- JwtToken.ValidateToken: parses the token once and compares its expiry with one instant. The Java code (JwtTokenUtil.java:104-111) parses it again in `isTokenExpired` and reads the clock there, so a token can expire between the two reads. A token that lacks its `sub` or `exp` claim is not modelled; Java then throws a NullPointerException at lines 106 or 111.

## Findings

| source | as written | input that shows it | evidently intended | confidence | as-written member | corrected member |
|---|---|---|---|---|---|---|
| demo/src/main/java/com/campusguess/demo/service/impl/FriendServiceImpl.java:241-244 | the page offset `page * size` and the end `start + size` are Java `int` products and sums, which wrap past 2^31 - 1 | 2000 friend ids, size 1000, page 4294968: the offset wraps to 704 and the page holds ids 704 to 1703 instead of nothing; page 2147484 gives a negative offset and `subList` throws | an offset beyond the list gives an empty page, as Spring's own 64-bit `Pageable.getOffset` does | not executed | FriendService.PageAsWritten, FriendService.PageOverflowCounterexample | Common.PageOf, FriendService.PageOfSlices, FriendService.PageOfCovers |
| frontend/src/pages/SoloMode.jsx:862-868 | the random practice run navigates to /game with the mode, the drawn ids and start index 0 but no `questionId`, and the practice page's mount (frontend/src/pages/Game.jsx:456-459) goes back to /solo whenever `questionId` is missing | a bank with one question, id 7, that has a coordinate: the run navigates with ids [7] and the practice page returns to /solo without loading question 7 | the run opens on its first drawn question, passing `questionId: ids[0]` | not executed | SoloMode.Page.StartPractice, SoloMode.OpenPractice | SoloMode.OpenPracticeAtFirst |
