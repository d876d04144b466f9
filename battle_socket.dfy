/** The battle WebSocket client (frontend/src/battle/battleSocket.js).
  *
  * One `BattleSocket` owns at most one STOMP client, the name of the signed-in player,
  * a connected flag, at most one pending connection handshake and three sets of
  * subscribers. The STOMP client and its transport are abstract: creating, activating,
  * deactivating a client, subscribing it to a topic and publishing on it are recorded as
  * effects, and the client's callbacks (connected, socket closed, socket error, STOMP
  * error, incoming frames) are operations that any client created so far may raise.
  *
  * The connection promise with its resolve/reject pair is a handshake: an id whose
  * outcome is pending until it is resolved or rejected with a reason. An `async`
  * operation that would wait returns a `Wait` that names what it waits on. */
module BattleSocket {
  import opened Common
  import opened Json
  import Uri

  // ---------------------------------------------------------------------
  // Constants

  const DEFAULT_API_BASE := "/api"
  const INVITE_TOPIC := "/user/queue/battle/invite"
  const STATE_TOPIC := "/user/queue/battle/state"
  const INVITE_DEST := "/app/battle/invite"
  const RESPOND_DEST := "/app/battle/respond"
  const ANSWER_DEST := "/app/battle/answer"
  const QUIT_DEST := "/app/battle/quit"

  const ERR_NOT_LOGGED_IN := "未登录，无法建立对战连接"
  const ERR_NOT_INITIALISED := "WebSocket连接未初始化"
  const ERR_TIMEOUT := "WebSocket连接超时"
  const ERR_CLOSED := "WebSocket连接已关闭"
  const ERR_FAILED := "WebSocket连接失败"
  const ERR_PROTOCOL := "WebSocket协议错误"
  const ERR_CANCELLED := "连接已取消"
  const ERR_NOT_CONNECTED := "WebSocket未连接"

  // ---------------------------------------------------------------------
  // The socket URL

  /** `VITE_API_BASE_URL || '/api'`. */
  function ResolveApiBase(env: Option<string>): (base: string)
    ensures base != ""
  {
    if env.Some? && env.value != "" then env.value else DEFAULT_API_BASE
  }

  /** `s.replace(/\/$/, '')`: one trailing slash, if any, is dropped. */
  function DropTrailingSlash(s: string): (r: string)
    ensures r == s || (r + "/" == s)
  {
    if |s| > 0 && s[|s| - 1] == '/' then s[..|s| - 1] else s
  }

  const SOCKET_PATH := "/ws-battle?username="

  /** `${base}/ws-battle?${new URLSearchParams({username})}`. */
  function SockJsUrl(env: Option<string>, username: string): string {
    DropTrailingSlash(ResolveApiBase(env)) + SOCKET_PATH + Uri.Encode(Uri.Form, username)
  }

  /** The URL is the base without its trailing slash, the endpoint and the
    * form-encoded name, and the name can be read back from it. */
  lemma SockJsUrlShape(env: Option<string>, username: string)
    ensures var base := DropTrailingSlash(ResolveApiBase(env));
            var url := SockJsUrl(env, username);
            StartsWith(url, base + SOCKET_PATH)
            && (base == ResolveApiBase(env) || base + "/" == ResolveApiBase(env))
            && Uri.Decode(Uri.Form, url[|base + SOCKET_PATH|..]) == Some(username)
  {
    var base := DropTrailingSlash(ResolveApiBase(env));
    var url := SockJsUrl(env, username);
    assert url[..|base + SOCKET_PATH|] == base + SOCKET_PATH;
    assert url[|base + SOCKET_PATH|..] == Uri.Encode(Uri.Form, username);
    Uri.DecodeEncode(Uri.Form, username);
  }

  // ---------------------------------------------------------------------
  // State

  datatype Handshake = Pending | Resolved | Rejected(reason: string)

  /** A payload published to the server (serialised with JSON.stringify). */
  datatype Outgoing =
    | InvitePayload(fromUsername: string, toUsername: string)
    | RespondPayload(roomCode: string, accepted: bool, username: string)
    | AnswerPayload(roomCode: string, username: string, longitude: real, latitude: real)
    | QuitPayload(fromUsername: string, toUsername: string)

  function Destination(body: Outgoing): string {
    match body
    case InvitePayload(_, _) => INVITE_DEST
    case RespondPayload(_, _, _) => RESPOND_DEST
    case AnswerPayload(_, _, _, _) => ANSWER_DEST
    case QuitPayload(_, _) => QUIT_DEST
  }

  /** What the socket does to the outside world, in order. */
  datatype Effect =
    | ConnectionNotified(subscribers: set<nat>, connected: bool)
    | Activated(client: nat, url: string)
    | Deactivated(client: nat)
    | Subscribed(client: nat, topic: string)
    | Published(client: nat, destination: string, body: Outgoing)
    | StateDelivered(subscribers: set<nat>, msg: Json)
    | InviteDelivered(subscribers: set<nat>, msg: Json)

  datatype Socket = Socket(
    username: string,
    client: Option<nat>,
    connected: bool,
    pending: Option<nat>,
    handshakes: map<nat, Handshake>,
    nextHandshake: nat,
    nextClient: nat,
    stateSubs: set<nat>,
    inviteSubs: set<nat>,
    connSubs: set<nat>,
    effects: seq<Effect>)

  /** The socket as constructed. */
  const Initial := Socket("", None, false, None, map[], 0, 0, {}, {}, {}, [])

  /** What an `async` call is waiting on. */
  datatype Wait =
    | Ready                  // settled normally
    | Failed(reason: string) // settled with an Error of that message
    | OnHandshake(h: nat)    // waits for handshake h, then resumes `ensureConnected`
    | OnRace(h: nat)         // races handshake h against the 5000 ms timer

  /** The fields move together: there is a client exactly while a name is set,
    * a handshake is pending only while there is a client, and the pending handshake,
    * if any, is the only handshake still pending. */
  ghost predicate Valid(s: Socket) {
    (forall h :: h in s.handshakes <==> 0 <= h < s.nextHandshake)
    && (s.client.Some? <==> s.username != "")
    && (s.client.Some? ==> s.client.value < s.nextClient)
    && (s.pending.Some? ==> s.client.Some? && s.pending.value in s.handshakes
                            && s.handshakes[s.pending.value] == Pending)
    && (forall h :: h in s.handshakes && s.handshakes[h] == Pending ==> s.pending == Some(h))
  }

  lemma InitialValid()
    ensures Valid(Initial)
  {
  }

  /** A handshake that has been settled keeps its outcome. */
  ghost predicate KeepsSettled(s: Socket, r: Socket) {
    forall h :: h in s.handshakes && s.handshakes[h] != Pending ==>
      h in r.handshakes && r.handshakes[h] == s.handshakes[h]
  }

  ghost predicate SameSubscribers(s: Socket, r: Socket) {
    r.stateSubs == s.stateSubs && r.inviteSubs == s.inviteSubs && r.connSubs == s.connSubs
  }

  // ---------------------------------------------------------------------
  // Transitions

  /** `#emitConnection(next)`. */
  function Emit(s: Socket, next: bool): (r: Socket)
    ensures r.connected == next
    ensures r.effects == s.effects + [ConnectionNotified(s.connSubs, next)]
    ensures r == s.(connected := next, effects := r.effects)
  {
    s.(connected := next, effects := s.effects + [ConnectionNotified(s.connSubs, next)])
  }

  /** Reject the pending handshake, if there is one, and forget it. */
  function RejectPending(s: Socket, reason: string): (r: Socket)
    ensures r.pending.None?
    ensures s.pending.Some? ==> r.handshakes == s.handshakes[s.pending.value := Rejected(reason)]
    ensures s.pending.None? ==> r == s
  {
    match s.pending
    case Some(h) => s.(handshakes := s.handshakes[h := Rejected(reason)], pending := None)
    case None => s
  }

  /** `disconnect()`. */
  function DisconnectStep(s: Socket): (r: Socket)
    ensures r.username == "" && r.client.None? && r.pending.None? && !r.connected
    ensures s.pending.Some? ==> r.handshakes == s.handshakes[s.pending.value := Rejected(ERR_CANCELLED)]
    ensures s.pending.None? ==> r.handshakes == s.handshakes
    ensures r.effects == s.effects
      + (if s.client.Some? then [Deactivated(s.client.value)] else [])
      + [ConnectionNotified(s.connSubs, false)]
    ensures SameSubscribers(s, r) && r.nextClient == s.nextClient && r.nextHandshake == s.nextHandshake
    ensures Valid(s) ==> Valid(r) && KeepsSettled(s, r)
  {
    var s1 := if s.client.Some? then s.(effects := s.effects + [Deactivated(s.client.value)]) else s;
    var s2 := RejectPending(s1, ERR_CANCELLED);
    Emit(s2.(client := None, username := ""), false)
  }

  /** The last part of `connect`: store the name, open a new pending handshake and
    * create and activate a new client for it. */
  function Open(d: Socket, env: Option<string>, next: string): (r: Socket)
    ensures Valid(d) && d.client.None? && d.pending.None? && next != "" ==> Valid(r) && KeepsSettled(d, r)
    ensures SameSubscribers(d, r)
  {
    var h, c := d.nextHandshake, d.nextClient;
    d.(username := next, pending := Some(h), handshakes := d.handshakes[h := Pending],
       nextHandshake := h + 1, client := Some(c), nextClient := c + 1,
       effects := d.effects + [Activated(c, SockJsUrl(env, next))])
  }

  /** `connect(name)`: the new state and what the returned promise waits on. */
  function ConnectStep(s: Socket, env: Option<string>, name: string): (r: (Socket, Wait))
    ensures Valid(s) ==> Valid(r.0) && KeepsSettled(s, r.0)
    ensures SameSubscribers(s, r.0)
  {
    var next := Trim(name);
    if next == "" then (DisconnectStep(s), Ready)
    else if s.client.Some? && s.username == next && s.connected then (s, Ready)
    else if s.client.Some? && s.username == next && s.pending.Some? then (s, OnHandshake(s.pending.value))
    else
      var d := DisconnectStep(s);
      (Open(d, env, next), OnHandshake(d.nextHandshake))
  }

  /** `client.onConnect`: raised by whichever client `from` completed its STOMP handshake. */
  function OnConnectStep(s: Socket, from: nat): (r: Socket)
    ensures r.connected && r.pending.None?
    ensures s.pending.Some? ==> r.handshakes == s.handshakes[s.pending.value := Resolved]
    ensures s.pending.None? ==> r.handshakes == s.handshakes
    ensures r.effects == s.effects + [ConnectionNotified(s.connSubs, true),
                                      Subscribed(from, INVITE_TOPIC), Subscribed(from, STATE_TOPIC)]
    ensures r.username == s.username && r.client == s.client && SameSubscribers(s, r)
    ensures Valid(s) ==> Valid(r) && KeepsSettled(s, r)
  {
    var e := Emit(s, true);
    var resolved := match e.pending
      case Some(h) => e.(handshakes := e.handshakes[h := Resolved], pending := None)
      case None => e;
    resolved.(effects := resolved.effects + [Subscribed(from, INVITE_TOPIC), Subscribed(from, STATE_TOPIC)])
  }

  /** `client.onWebSocketClose`, `onWebSocketError` and `onStompError`: all three mark
    * the socket disconnected and reject a still-pending handshake with their own reason. */
  function OnDrop(s: Socket, reason: string): (r: Socket)
    ensures !r.connected && r.pending.None?
    ensures s.pending.Some? ==> r.handshakes == s.handshakes[s.pending.value := Rejected(reason)]
    ensures s.pending.None? ==> r.handshakes == s.handshakes
    ensures r.effects == s.effects + [ConnectionNotified(s.connSubs, false)]
    ensures r.username == s.username && r.client == s.client && SameSubscribers(s, r)
    ensures Valid(s) ==> Valid(r) && KeepsSettled(s, r)
  {
    RejectPending(Emit(s, false), reason)
  }

  /** The tail of `ensureConnected` once any connect has settled. */
  function ResumeEnsure(s: Socket): (w: Wait)
    ensures s.connected <==> w == Ready
    ensures !s.connected && s.pending.None? ==> w == Failed(ERR_NOT_INITIALISED)
    ensures !s.connected && s.pending.Some? ==> w == OnRace(s.pending.value)
  {
    if s.connected then Ready
    else if s.pending.None? then Failed(ERR_NOT_INITIALISED)
    else OnRace(s.pending.value)
  }

  /** `ensureConnected()`. */
  function EnsureStep(s: Socket, env: Option<string>): (r: (Socket, Wait))
    ensures s.connected && s.client.Some? ==> r == (s, Ready)
    ensures !(s.connected && s.client.Some?) && s.username == "" ==> r == (s, Failed(ERR_NOT_LOGGED_IN))
    ensures Valid(s) ==> Valid(r.0) && KeepsSettled(s, r.0)
  {
    if s.connected && s.client.Some? then (s, Ready)
    else if s.username == "" then (s, Failed(ERR_NOT_LOGGED_IN))
    else if s.client.None? then ConnectStep(s, env, s.username)
    else (s, ResumeEnsure(s))
  }

  /** How the race of a handshake against the timer ends, given the handshake's state
    * when the timer fires: a handshake settled by then decides the race. */
  function Race(atTimer: Handshake): (r: Result<(), string>)
    ensures r.Ok? <==> atTimer == Resolved
    ensures atTimer == Pending ==> r == Err(ERR_TIMEOUT)
    ensures atTimer.Rejected? ==> r == Err(atTimer.reason)
  {
    match atTimer
    case Pending => Err(ERR_TIMEOUT)
    case Resolved => Ok(())
    case Rejected(reason) => Err(reason)
  }

  /** `#publish` after `ensureConnected` has settled normally. */
  function SendStep(s: Socket, body: Outgoing): (r: (Socket, Result<(), string>))
    ensures r.1.Ok? <==> s.client.Some? && s.connected
    ensures r.1.Ok? ==> r.0 == s.(effects := s.effects + [Published(s.client.value, Destination(body), body)])
    ensures r.1.Err? ==> r.0 == s && r.1.error == ERR_NOT_CONNECTED
  {
    if s.client.Some? && s.connected then
      (s.(effects := s.effects + [Published(s.client.value, Destination(body), body)]), Ok(()))
    else (s, Err(ERR_NOT_CONNECTED))
  }

  /** A payload is built when the call is made, with the name set at that moment. */
  function InviteBody(s: Socket, toUsername: string): Outgoing {
    InvitePayload(s.username, Trim(toUsername))
  }

  function RespondBody(s: Socket, roomCode: string, accepted: bool): Outgoing {
    RespondPayload(Trim(roomCode), accepted, s.username)
  }

  function AnswerBody(s: Socket, roomCode: string, longitude: real, latitude: real): Outgoing {
    AnswerPayload(Trim(roomCode), s.username, longitude, latitude)
  }

  function QuitBody(s: Socket): Outgoing {
    QuitPayload(s.username, "")
  }

  /** An incoming frame on one of the two topics: a body that parses (Some) reaches every
    * current subscriber of that topic; one that does not parse is dropped. */
  function DeliverState(s: Socket, frame: Option<Json>): (r: Socket)
    ensures frame.None? ==> r == s
    ensures frame.Some? ==> r == s.(effects := s.effects + [StateDelivered(s.stateSubs, frame.value)])
  {
    if frame.Some? then s.(effects := s.effects + [StateDelivered(s.stateSubs, frame.value)]) else s
  }

  function DeliverInvite(s: Socket, frame: Option<Json>): (r: Socket)
    ensures frame.None? ==> r == s
    ensures frame.Some? ==> r == s.(effects := s.effects + [InviteDelivered(s.inviteSubs, frame.value)])
  {
    if frame.Some? then s.(effects := s.effects + [InviteDelivered(s.inviteSubs, frame.value)]) else s
  }

  // ---------------------------------------------------------------------
  // Properties of single transitions

  /** `connect` with a blank name has exactly the effect of `disconnect`. */
  lemma ConnectBlankIsDisconnect(s: Socket, env: Option<string>, name: string)
    requires AllSpace(name)
    ensures ConnectStep(s, env, name) == (DisconnectStep(s), Ready)
  {
    TrimEmptyIff(name);
  }

  /** `connect` for the current name while a client exists reuses it: at once when
    * connected, otherwise with the pending handshake; no client is created. */
  lemma ConnectReuses(s: Socket, env: Option<string>, name: string)
    requires s.client.Some? && s.username == Trim(name) && s.username != ""
    requires s.connected || s.pending.Some?
    ensures ConnectStep(s, env, name).0 == s
    ensures ConnectStep(s, env, name).1 == if s.connected then Ready else OnHandshake(s.pending.value)
  {
  }

  /** Any other `connect` first disconnects, then stores the trimmed name, creates exactly
    * one new pending handshake and one new client, and activates it on the name's URL. */
  lemma ConnectFresh(s: Socket, env: Option<string>, name: string)
    requires Valid(s)
    requires Trim(name) != ""
    requires !(s.client.Some? && s.username == Trim(name) && (s.connected || s.pending.Some?))
    ensures var (r, w) := ConnectStep(s, env, name);
            var d := DisconnectStep(s);
            && w == OnHandshake(s.nextHandshake)
            && r.username == Trim(name) && !r.connected
            && r.pending == Some(s.nextHandshake) && r.client == Some(s.nextClient)
            && r.nextHandshake == s.nextHandshake + 1 && r.nextClient == s.nextClient + 1
            && r.handshakes == d.handshakes[s.nextHandshake := Pending]
            && s.nextHandshake !in s.handshakes
            && r.effects == d.effects + [Activated(s.nextClient, SockJsUrl(env, Trim(name)))]
  {
  }

  /** A connected socket never gets a new handshake from `ensureConnected`. Since a name is
    * set exactly while a client exists, `ensureConnected` never reaches its own `connect`
    * call: it leaves every valid state as it is. */
  lemma EnsureLeavesStateAlone(s: Socket, env: Option<string>)
    requires Valid(s)
    ensures EnsureStep(s, env).0 == s
    ensures EnsureStep(s, env).1 ==
      if s.connected && s.client.Some? then Ready
      else if s.username == "" then Failed(ERR_NOT_LOGGED_IN)
      else ResumeEnsure(s)
  {
  }

  /** A resolved handshake is never rejected by a later drop, nor a rejected one resolved. */
  lemma DropKeepsResolved(s: Socket, reason: string, h: nat)
    requires Valid(s) && h in s.handshakes && s.handshakes[h] == Resolved
    ensures OnDrop(s, reason).handshakes[h] == Resolved
    ensures OnConnectStep(s, h).handshakes[h] == Resolved
    ensures DisconnectStep(s).handshakes[h] == Resolved
  {
  }

  // ---------------------------------------------------------------------
  // Runs of many events

  datatype Event =
    | EvConnect(name: string)
    | EvDisconnect
    | EvOnConnect(from: nat)
    | EvClose
    | EvSocketError
    | EvStompError
    | EvEnsure
    | EvSend(body: Outgoing)
    | EvState(frame: Option<Json>)
    | EvInvite(frame: Option<Json>)

  function Apply(s: Socket, env: Option<string>, e: Event): (r: Socket)
    ensures Valid(s) ==> Valid(r) && KeepsSettled(s, r)
  {
    match e
    case EvConnect(name) => ConnectStep(s, env, name).0
    case EvDisconnect => DisconnectStep(s)
    case EvOnConnect(from) => OnConnectStep(s, from)
    case EvClose => OnDrop(s, ERR_CLOSED)
    case EvSocketError => OnDrop(s, ERR_FAILED)
    case EvStompError => OnDrop(s, ERR_PROTOCOL)
    case EvEnsure => EnsureStep(s, env).0
    case EvSend(body) => SendStep(s, body).0
    case EvState(frame) => DeliverState(s, frame)
    case EvInvite(frame) => DeliverInvite(s, frame)
  }

  function Run(s: Socket, env: Option<string>, events: seq<Event>): Socket
    decreases |events|
  {
    if events == [] then s else Run(Apply(s, env, events[0]), env, events[1..])
  }

  lemma KeepsSettledTransitive(a: Socket, b: Socket, c: Socket)
    requires KeepsSettled(a, b) && KeepsSettled(b, c)
    ensures KeepsSettled(a, c)
  {
  }

  /** Over any run of events the socket stays valid. */
  lemma {:induction false} RunValid(s: Socket, env: Option<string>, events: seq<Event>)
    requires Valid(s)
    ensures Valid(Run(s, env, events))
    decreases |events|
  {
    if events != [] {
      RunValid(Apply(s, env, events[0]), env, events[1..]);
    }
  }

  /** Over any run of events every settled handshake keeps its outcome: a resolved
    * handshake is never rejected afterwards, nor a rejected one resolved. */
  lemma {:induction false} RunKeepsSettled(s: Socket, env: Option<string>, events: seq<Event>)
    requires Valid(s)
    ensures KeepsSettled(s, Run(s, env, events))
    decreases |events|
  {
    if events != [] {
      var s1 := Apply(s, env, events[0]);
      RunKeepsSettled(s1, env, events[1..]);
      KeepsSettledTransitive(s, s1, Run(s1, env, events[1..]));
    }
  }

  /** While a handshake is pending, any number of `ensureConnected` calls all wait on that
    * same handshake and create no client. */
  lemma {:induction false} EnsureWhilePending(s: Socket, env: Option<string>, n: nat)
    requires Valid(s) && !s.connected && s.pending.Some?
    ensures Run(s, env, seq(n, _ => EvEnsure)) == s
    ensures EnsureStep(s, env).1 == OnRace(s.pending.value)
  {
    if n > 0 {
      assert seq(n, _ => EvEnsure)[1..] == seq(n - 1, _ => EvEnsure);
      EnsureWhilePending(s, env, n - 1);
    }
  }

  // ---------------------------------------------------------------------
  // The object

  class Client {
    const env: Option<string>
    var username: string
    var client: Option<nat>
    var connected: bool
    var pending: Option<nat>
    var handshakes: map<nat, Handshake>
    var nextHandshake: nat
    var nextClient: nat
    var stateSubs: set<nat>
    var inviteSubs: set<nat>
    var connSubs: set<nat>
    var effects: seq<Effect>

    function State(): Socket
      reads this
    {
      Socket(username, client, connected, pending, handshakes, nextHandshake, nextClient,
             stateSubs, inviteSubs, connSubs, effects)
    }

    ghost predicate Inv()
      reads this
    {
      Valid(State())
    }

    constructor (env: Option<string>)
      ensures this.env == env && State() == Initial && Inv()
    {
      this.env := env;
      username, client, connected, pending := "", None, false, None;
      handshakes, nextHandshake, nextClient := map[], 0, 0;
      stateSubs, inviteSubs, connSubs, effects := {}, {}, {}, [];
    }

    method SubscribeState(cb: nat)
      requires Inv()
      modifies this
      ensures Inv() && State() == old(State()).(stateSubs := old(stateSubs) + {cb})
    {
      stateSubs := stateSubs + {cb};
    }

    method UnsubscribeState(cb: nat)
      requires Inv()
      modifies this
      ensures Inv() && State() == old(State()).(stateSubs := old(stateSubs) - {cb})
    {
      stateSubs := stateSubs - {cb};
    }

    method SubscribeInvite(cb: nat)
      requires Inv()
      modifies this
      ensures Inv() && State() == old(State()).(inviteSubs := old(inviteSubs) + {cb})
    {
      inviteSubs := inviteSubs + {cb};
    }

    method UnsubscribeInvite(cb: nat)
      requires Inv()
      modifies this
      ensures Inv() && State() == old(State()).(inviteSubs := old(inviteSubs) - {cb})
    {
      inviteSubs := inviteSubs - {cb};
    }

    /** Registers the callback and tells it the current connected flag at once. */
    method SubscribeConnection(cb: nat)
      requires Inv()
      modifies this
      ensures Inv()
      ensures State() == old(State()).(connSubs := old(connSubs) + {cb},
                                       effects := old(effects) + [ConnectionNotified({cb}, old(connected))])
    {
      connSubs := connSubs + {cb};
      effects := effects + [ConnectionNotified({cb}, connected)];
    }

    method UnsubscribeConnection(cb: nat)
      requires Inv()
      modifies this
      ensures Inv() && State() == old(State()).(connSubs := old(connSubs) - {cb})
    {
      connSubs := connSubs - {cb};
    }

    method EmitConnection(next: bool)
      modifies this
      ensures State() == Emit(old(State()), next)
    {
      connected := next;
      effects := effects + [ConnectionNotified(connSubs, next)];
    }

    method Disconnect()
      requires Inv()
      modifies this
      ensures Inv() && State() == DisconnectStep(old(State()))
    {
      if client.Some? {
        effects := effects + [Deactivated(client.value)];
      }
      if pending.Some? {
        handshakes := handshakes[pending.value := Rejected(ERR_CANCELLED)];
      }
      pending := None;
      client := None;
      username := "";
      EmitConnection(false);
    }

    method Connect(name: string) returns (w: Wait)
      requires Inv()
      modifies this
      ensures Inv() && (State(), w) == ConnectStep(old(State()), env, name)
    {
      var next := Trim(name);
      if next == "" {
        Disconnect();
        return Ready;
      }
      if client.Some? && username == next {
        if connected {
          return Ready;
        }
        if pending.Some? {
          return OnHandshake(pending.value);
        }
      }
      Disconnect();
      w := OnHandshake(nextHandshake);
      OpenClient(next);
    }

    method OpenClient(next: string)
      modifies this
      ensures State() == Open(old(State()), env, next)
    {
      var h, c, url := nextHandshake, nextClient, SockJsUrl(env, next);
      username, pending, handshakes, nextHandshake := next, Some(h), handshakes[h := Pending], h + 1;
      client, nextClient, effects := Some(c), c + 1, effects + [Activated(c, url)];
    }

    method OnConnect(from: nat)
      requires Inv()
      modifies this
      ensures Inv() && State() == OnConnectStep(old(State()), from)
    {
      EmitConnection(true);
      if pending.Some? {
        handshakes := handshakes[pending.value := Resolved];
      }
      pending := None;
      effects := effects + [Subscribed(from, INVITE_TOPIC), Subscribed(from, STATE_TOPIC)];
    }

    method Drop(reason: string)
      requires Inv()
      modifies this
      ensures Inv() && State() == OnDrop(old(State()), reason)
    {
      EmitConnection(false);
      if pending.Some? {
        handshakes := handshakes[pending.value := Rejected(reason)];
        pending := None;
      }
    }

    method OnWebSocketClose()
      requires Inv()
      modifies this
      ensures Inv() && State() == OnDrop(old(State()), ERR_CLOSED)
    {
      Drop(ERR_CLOSED);
    }

    method OnWebSocketError()
      requires Inv()
      modifies this
      ensures Inv() && State() == OnDrop(old(State()), ERR_FAILED)
    {
      Drop(ERR_FAILED);
    }

    method OnStompError()
      requires Inv()
      modifies this
      ensures Inv() && State() == OnDrop(old(State()), ERR_PROTOCOL)
    {
      Drop(ERR_PROTOCOL);
    }

    method EnsureConnected() returns (w: Wait)
      requires Inv()
      modifies this
      ensures Inv() && (State(), w) == EnsureStep(old(State()), env)
    {
      if connected && client.Some? {
        return Ready;
      }
      if username == "" {
        return Failed(ERR_NOT_LOGGED_IN);
      }
      if client.None? {
        assert false;
      }
      w := Resume();
    }

    /** Continues `ensureConnected` after the handshake it waited on was resolved. */
    method Resume() returns (w: Wait)
      ensures w == ResumeEnsure(State())
    {
      if connected {
        return Ready;
      }
      if pending.None? {
        return Failed(ERR_NOT_INITIALISED);
      }
      w := OnRace(pending.value);
    }

    /** The 5000 ms timer of `ensureConnected` fires while it races handshake `h`. */
    method TimeoutFires(h: nat) returns (r: Result<(), string>)
      requires h in handshakes
      ensures r == Race(handshakes[h])
      ensures r.Ok? <==> handshakes[h] == Resolved
    {
      match handshakes[h]
      case Pending => r := Err(ERR_TIMEOUT);
      case Resolved => r := Ok(());
      case Rejected(reason) => r := Err(reason);
    }

    /** The tail of `#publish`: publish if connected with a client, else throw. */
    method Send(body: Outgoing) returns (r: Result<(), string>)
      requires Inv()
      modifies this
      ensures Inv() && (State(), r) == SendStep(old(State()), body)
    {
      if client.None? || !connected {
        return Err(ERR_NOT_CONNECTED);
      }
      effects := effects + [Published(client.value, Destination(body), body)];
      r := Ok(());
    }

    /** `#publish(destination, body)`: waits for `ensureConnected`, then sends. When the
      * wait does not settle at once, the payload is handed back with it and is sent
      * with `Send` once the wait has settled normally. */
    method Publish(body: Outgoing) returns (w: Wait, r: Result<(), string>)
      requires Inv()
      modifies this
      ensures Inv()
      ensures var (e, ew) := EnsureStep(old(State()), env);
              w == ew
              && (ew == Ready ==> (State(), r) == SendStep(e, body))
              && (ew.Failed? ==> State() == e && r == Err(ew.reason))
              && (ew.OnHandshake? || ew.OnRace? ==> State() == e && r == Ok(()))
    {
      w := EnsureConnected();
      match w
      case Ready => r := Send(body);
      case Failed(reason) => r := Err(reason);
      case OnHandshake(_) => r := Ok(());
      case OnRace(_) => r := Ok(());
    }

    method Invite(toUsername: string) returns (w: Wait, body: Outgoing, r: Result<(), string>)
      requires Inv()
      modifies this
      ensures Inv() && body == InviteBody(old(State()), toUsername)
      ensures var (e, ew) := EnsureStep(old(State()), env);
              w == ew && (ew == Ready ==> (State(), r) == SendStep(e, body))
              && (ew.Failed? ==> State() == e && r == Err(ew.reason))
    {
      body := InvitePayload(username, Trim(toUsername));
      w, r := Publish(body);
    }

    method Respond(roomCode: string, accepted: bool) returns (w: Wait, body: Outgoing, r: Result<(), string>)
      requires Inv()
      modifies this
      ensures Inv() && body == RespondBody(old(State()), roomCode, accepted)
      ensures var (e, ew) := EnsureStep(old(State()), env);
              w == ew && (ew == Ready ==> (State(), r) == SendStep(e, body))
              && (ew.Failed? ==> State() == e && r == Err(ew.reason))
    {
      body := RespondPayload(Trim(roomCode), accepted, username);
      w, r := Publish(body);
    }

    method Answer(roomCode: string, longitude: real, latitude: real)
      returns (w: Wait, body: Outgoing, r: Result<(), string>)
      requires Inv()
      modifies this
      ensures Inv() && body == AnswerBody(old(State()), roomCode, longitude, latitude)
      ensures var (e, ew) := EnsureStep(old(State()), env);
              w == ew && (ew == Ready ==> (State(), r) == SendStep(e, body))
              && (ew.Failed? ==> State() == e && r == Err(ew.reason))
    {
      body := AnswerPayload(Trim(roomCode), username, longitude, latitude);
      w, r := Publish(body);
    }

    method Quit() returns (w: Wait, body: Outgoing, r: Result<(), string>)
      requires Inv()
      modifies this
      ensures Inv() && body == QuitBody(old(State()))
      ensures var (e, ew) := EnsureStep(old(State()), env);
              w == ew && (ew == Ready ==> (State(), r) == SendStep(e, body))
              && (ew.Failed? ==> State() == e && r == Err(ew.reason))
    {
      body := QuitPayload(username, "");
      w, r := Publish(body);
    }

    method OnStateFrame(frame: Option<Json>)
      requires Inv()
      modifies this
      ensures Inv() && State() == DeliverState(old(State()), frame)
    {
      if frame.Some? {
        effects := effects + [StateDelivered(stateSubs, frame.value)];
      }
    }

    method OnInviteFrame(frame: Option<Json>)
      requires Inv()
      modifies this
      ensures Inv() && State() == DeliverInvite(old(State()), frame)
    {
      if frame.Some? {
        effects := effects + [InviteDelivered(inviteSubs, frame.value)];
      }
    }
  }

  /** A fresh socket, `connect(name)` for a non-blank name, then `ensureConnected` twice
    * before the server answers: one client, one handshake, both calls wait on it. */
  method ConnectThenEnsureTwice(env: Option<string>, name: string)
    returns (w0: Wait, w1: Wait, w2: Wait, clients: nat, handshakes: nat)
    requires Trim(name) != ""
    ensures w0 == OnHandshake(0) && w1 == OnRace(0) && w2 == OnRace(0)
    ensures clients == 1 && handshakes == 1
  {
    var sock := new Client(env);
    w0 := sock.Connect(name);
    w1 := sock.EnsureConnected();
    w2 := sock.EnsureConnected();
    clients, handshakes := sock.nextClient, sock.nextHandshake;
  }
}
