/** The battle provider (frontend/src/battle/BattleContext.jsx): the application-wide
  * store that turns socket traffic into the state the battle pages read.
  *
  * It keeps the connected flag, whether a battle is running and in which room, the log
  * of state messages (each stamped with an increasing id, at most 80 kept), the invites
  * received (one per room, newest first) with the room code of the one shown, and the toast
  * list (newest first, at most 4). Calls into the socket and router navigations are
  * recorded as effects; the outcome of an awaited socket call is a parameter. */
module BattleStore {
  import opened Common
  import opened Json
  import opened EventLog
  import Uri

  const LOG_CAP := 80
  const TOAST_CAP := 4

  const MSG_BLANK_TARGET := "请输入对方用户名"
  const MSG_IN_BATTLE := "你正在对战中"
  const MSG_INVITE_RECEIVED := "📬 收到对战邀请"
  const MSG_INVITE_FAILED := "邀请失败"
  const MSG_BATTLE_OVER := "对战结束"
  const MSG_ACCEPTED := "✅ 已接受邀请，等待游戏开始..."
  const MSG_ACCEPT_FAILED := "接受邀请失败"
  const MSG_REJECTED := "已拒绝邀请"
  const MSG_REJECT_FAILED := "拒绝邀请失败"
  const INVITE_SENT_PREFIX := "📨 已发送邀请给："
  const BATTLE_ROUTE := "/battle/"

  // ---------------------------------------------------------------------
  // Invites

  datatype Invite = Invite(roomCode: string, from: string, to: string, message: string, raw: Json)

  /** `normalizeInvite(msg)`: only an object with a truthy roomCode is an invite. */
  function NormalizeInvite(msg: Json): (r: Option<Invite>)
    ensures r.Some? <==> msg.JObj? && Present(Get(msg, "roomCode"))
    ensures r.Some? ==> r.value.roomCode == JsString(msg.fields["roomCode"]) && r.value.raw == msg
    ensures r.Some? ==> (r.value.from == TextOr(Get(msg, "playerA"))
                         && r.value.to == TextOr(Get(msg, "playerB"))
                         && r.value.message == TextOr(Get(msg, "message")))
  {
    if !msg.JObj? || !Present(Get(msg, "roomCode")) then None
    else Some(Invite(JsString(msg.fields["roomCode"]), TextOr(Get(msg, "playerA")),
                     TextOr(Get(msg, "playerB")), TextOr(Get(msg, "message")), msg))
  }

  predicate UniqueRooms(invites: seq<Invite>) {
    forall i, j :: 0 <= i < j < |invites| ==> invites[i].roomCode != invites[j].roomCode
  }

  predicate HasRoom(invites: seq<Invite>, room: string) {
    exists i :: 0 <= i < |invites| && invites[i].roomCode == room
  }

  /** The first invite for `room` in list order. */
  function FindRoom(invites: seq<Invite>, room: string): (r: Option<Invite>)
    ensures r.Some? <==> HasRoom(invites, room)
    ensures r.Some? ==> r.value.roomCode == room && r.value in invites
  {
    if invites == [] then None
    else if invites[0].roomCode == room then Some(invites[0])
    else
      var r := FindRoom(invites[1..], room);
      assert HasRoom(invites, room) ==> HasRoom(invites[1..], room) by {
        if HasRoom(invites, room) {
          var i :| 0 <= i < |invites| && invites[i].roomCode == room;
          assert invites[1..][i - 1] == invites[i];
        }
      }
      assert HasRoom(invites[1..], room) ==> HasRoom(invites, room) by {
        if HasRoom(invites[1..], room) {
          var i :| 0 <= i < |invites[1..]| && invites[1..][i].roomCode == room;
          assert invites[i + 1] == invites[1..][i];
        }
      }
      r
  }

  /** The invite update: an already known room keeps its first invite, a new one goes
    * to the front. */
  function AddInvite(invites: seq<Invite>, inv: Invite): (r: seq<Invite>)
    ensures HasRoom(invites, inv.roomCode) ==> r == invites
    ensures !HasRoom(invites, inv.roomCode) ==> r == [inv] + invites
    ensures HasRoom(r, inv.roomCode)
  {
    if HasRoom(invites, inv.roomCode) then invites
    else
      assert ([inv] + invites)[0] == inv;
      [inv] + invites
  }

  /** `invites.filter(i => i.roomCode !== roomCode)`. */
  function WithoutRoom(invites: seq<Invite>, room: string): (r: seq<Invite>)
    ensures |r| <= |invites|
    ensures forall x :: x in r <==> x in invites && x.roomCode != room
    ensures !HasRoom(r, room)
  {
    if invites == [] then []
    else if invites[0].roomCode == room then WithoutRoom(invites[1..], room)
    else [invites[0]] + WithoutRoom(invites[1..], room)
  }

  /** `activeInvite`: the invite of the active room code, if it is still in the list. */
  function ActiveInvite(invites: seq<Invite>, activeRoom: string): (r: Option<Invite>)
    ensures activeRoom == "" ==> r.None?
    ensures activeRoom != "" ==> r == FindRoom(invites, activeRoom)
  {
    if activeRoom == "" then None else FindRoom(invites, activeRoom)
  }

  /** Adding an invite keeps one invite per room. */
  lemma AddInviteUnique(invites: seq<Invite>, inv: Invite)
    requires UniqueRooms(invites)
    ensures UniqueRooms(AddInvite(invites, inv))
  {
    if !HasRoom(invites, inv.roomCode) {
      var r := [inv] + invites;
      forall i, j | 0 <= i < j < |r| ensures r[i].roomCode != r[j].roomCode {
        if i == 0 {
          assert r[j] == invites[j - 1];
        } else {
          assert r[i] == invites[i - 1] && r[j] == invites[j - 1];
        }
      }
    }
  }

  /** After an invite arrives the modal shows the invite first received for its room:
    * a repeated invite does not replace the one shown. */
  lemma ActiveAfterInvite(invites: seq<Invite>, inv: Invite, old_inv: Invite)
    requires inv.roomCode != ""
    requires FindRoom(invites, inv.roomCode) == Some(old_inv) || !HasRoom(invites, inv.roomCode)
    ensures HasRoom(invites, inv.roomCode) ==>
              ActiveInvite(AddInvite(invites, inv), inv.roomCode) == Some(old_inv)
    ensures !HasRoom(invites, inv.roomCode) ==>
              ActiveInvite(AddInvite(invites, inv), inv.roomCode) == Some(inv)
  {
  }

  /** Removal keeps one invite per room and the order of the others. */
  lemma {:induction false} WithoutRoomUnique(invites: seq<Invite>, room: string)
    requires UniqueRooms(invites)
    ensures UniqueRooms(WithoutRoom(invites, room))
  {
    if invites != [] {
      var rest := WithoutRoom(invites[1..], room);
      assert UniqueRooms(invites[1..]) by {
        forall i, j | 0 <= i < j < |invites[1..]|
          ensures invites[1..][i].roomCode != invites[1..][j].roomCode
        {
          assert invites[1..][i] == invites[i + 1] && invites[1..][j] == invites[j + 1];
        }
      }
      WithoutRoomUnique(invites[1..], room);
      if invites[0].roomCode != room {
        var r := [invites[0]] + rest;
        forall i, j | 0 <= i < j < |r| ensures r[i].roomCode != r[j].roomCode {
          if i == 0 {
            assert r[j] in invites[1..];
            var k :| 0 <= k < |invites[1..]| && invites[1..][k] == r[j];
            assert invites[k + 1] == r[j];
          } else {
            assert r[i] == rest[i - 1] && r[j] == rest[j - 1];
          }
        }
      }
    }
  }

  /** Removing one room leaves every other room's invite where the modal can find it. */
  lemma {:induction false} WithoutRoomKeepsOthers(invites: seq<Invite>, room: string, other: string)
    requires other != room
    ensures FindRoom(WithoutRoom(invites, room), other) == FindRoom(invites, other)
  {
    if invites != [] {
      WithoutRoomKeepsOthers(invites[1..], room, other);
    }
  }

  // ---------------------------------------------------------------------
  // The state-message log

  /** `[...prev, ev]`, keeping the last 80. */
  function AppendCapped(log: seq<StateEvent>, ev: StateEvent): (r: seq<StateEvent>)
    requires |log| <= LOG_CAP
    ensures |r| <= LOG_CAP && |r| > 0 && r[|r| - 1] == ev
    ensures |log| < LOG_CAP ==> r == log + [ev]
    ensures exists k :: 0 <= k <= |log| && r == log[k..] + [ev]
  {
    var next := log + [ev];
    var k := if |next| > LOG_CAP then |next| - LOG_CAP else 0;
    assert next[k..] == log[k..] + [ev];
    next[k..]
  }

  /** `stateEvents.at(-1)?.msg ?? null`. */
  function LastMessage(log: seq<StateEvent>): (r: Json)
    ensures log == [] ==> r == JNull
    ensures log != [] ==> r == log[|log| - 1].msg
  {
    if log == [] then JNull else log[|log| - 1].msg
  }

  /** After a message is logged, `lastStateMessage` is that message, even when the log
    * was full and its oldest entry was dropped. */
  lemma LastMessageIsNewest(log: seq<StateEvent>, ev: StateEvent)
    requires |log| <= LOG_CAP
    ensures LastMessage(AppendCapped(log, ev)) == ev.msg
    ensures |log| == LOG_CAP ==> |AppendCapped(log, ev)| == LOG_CAP
  {
    var k :| 0 <= k <= |log| && AppendCapped(log, ev) == log[k..] + [ev];
  }

  /** The log invariant: the messages were stamped 1, 2, 3, ... in arrival order, and
    * the log holds the newest min(n, 80) of the n stamped so far, oldest first. */
  ghost predicate LogOk(log: seq<StateEvent>, nextId: nat) {
    nextId >= 1
    && |log| == (if nextId - 1 < LOG_CAP then nextId - 1 else LOG_CAP)
    && forall i :: 0 <= i < |log| ==> log[i].id == nextId - |log| + i
  }

  /** Stamping and appending a message keeps the log invariant, and the ids in the log
    * strictly increase. */
  lemma PushStateOk(log: seq<StateEvent>, nextId: nat, msg: Json)
    requires LogOk(log, nextId)
    ensures var r := AppendCapped(log, StateEvent(nextId, msg));
            LogOk(r, nextId + 1) && IdsIncreasing(r)
  {
    var ev := StateEvent(nextId, msg);
    var r := AppendCapped(log, ev);
    var next := log + [ev];
    if |next| > LOG_CAP {
      assert r == next[1..];
      forall i | 0 <= i < |r| ensures r[i].id == nextId + 1 - |r| + i {
        assert r[i] == next[i + 1];
      }
    } else {
      assert r == next;
      forall i | 0 <= i < |r| ensures r[i].id == nextId + 1 - |r| + i {
        if i < |log| {
          assert r[i] == log[i];
        }
      }
    }
  }

  // ---------------------------------------------------------------------
  // Toasts

  datatype Level = Info | Error

  datatype Toast = Toast(id: nat, text: Json, level: Level)

  /** `[toast, ...prev].slice(0, 4)`. */
  function PushToast(toasts: seq<Toast>, t: Toast): (r: seq<Toast>)
    ensures |r| == (if |toasts| < TOAST_CAP then |toasts| + 1 else TOAST_CAP)
    ensures r[0] == t && r[1..] == toasts[..|r| - 1]
  {
    var all := [t] + toasts;
    var n := if |all| > TOAST_CAP then TOAST_CAP else |all|;
    assert all[..n][1..] == toasts[..n - 1];
    all[..n]
  }

  /** `prev.filter(t => t.id !== id)`. */
  function DropToast(toasts: seq<Toast>, id: nat): (r: seq<Toast>)
    ensures |r| <= |toasts|
    ensures forall t :: t in r <==> t in toasts && t.id != id
  {
    if toasts == [] then []
    else if toasts[0].id == id then DropToast(toasts[1..], id)
    else [toasts[0]] + DropToast(toasts[1..], id)
  }

  /** Newest first: ids strictly decrease along the list. */
  predicate NewestFirst(toasts: seq<Toast>) {
    forall i, j :: 0 <= i < j < |toasts| ==> toasts[i].id > toasts[j].id
  }

  lemma PushToastNewestFirst(toasts: seq<Toast>, t: Toast)
    requires NewestFirst(toasts)
    requires forall i :: 0 <= i < |toasts| ==> toasts[i].id < t.id
    ensures NewestFirst(PushToast(toasts, t))
  {
    var r := PushToast(toasts, t);
    forall i, j | 0 <= i < j < |r| ensures r[i].id > r[j].id {
      assert r[j] == r[1..][j - 1] == toasts[j - 1];
      if i > 0 {
        assert r[i] == r[1..][i - 1] == toasts[i - 1];
      }
    }
  }

  /** Every toast after the first is older than the first. */
  lemma OlderThanHead(toasts: seq<Toast>)
    requires NewestFirst(toasts) && toasts != []
    ensures forall t :: t in toasts[1..] ==> t.id < toasts[0].id
  {
    forall t | t in toasts[1..] ensures t.id < toasts[0].id {
      var k :| 0 <= k < |toasts[1..]| && toasts[1..][k] == t;
      assert toasts[k + 1] == t;
    }
  }

  lemma TailNewestFirst(toasts: seq<Toast>)
    requires NewestFirst(toasts) && toasts != []
    ensures NewestFirst(toasts[1..])
  {
    forall i, j | 0 <= i < j < |toasts[1..]| ensures toasts[1..][i].id > toasts[1..][j].id {
      assert toasts[1..][i] == toasts[i + 1] && toasts[1..][j] == toasts[j + 1];
    }
  }

  lemma ConsNewestFirst(t: Toast, rest: seq<Toast>)
    requires NewestFirst(rest) && forall u :: u in rest ==> u.id < t.id
    ensures NewestFirst([t] + rest)
  {
    var r := [t] + rest;
    forall i, j | 0 <= i < j < |r| ensures r[i].id > r[j].id {
      assert r[j] == rest[j - 1];
      if i > 0 {
        assert r[i] == rest[i - 1];
      }
    }
  }

  /** Dropping one toast keeps the others in their order. */
  lemma {:induction false} DropToastNewestFirst(toasts: seq<Toast>, id: nat)
    requires NewestFirst(toasts)
    ensures NewestFirst(DropToast(toasts, id))
  {
    if toasts != [] {
      TailNewestFirst(toasts);
      DropToastNewestFirst(toasts[1..], id);
      if toasts[0].id != id {
        OlderThanHead(toasts);
        ConsNewestFirst(toasts[0], DropToast(toasts[1..], id));
      }
    }
  }

  /** `e?.message || fallback` for a failed socket call. */
  function FailureText(reason: string, fallback: string): (r: Json)
    ensures r == JStr(if reason != "" then reason else fallback)
  {
    Or(Some(JStr(reason)), JStr(fallback))
  }

  // ---------------------------------------------------------------------
  // The provider

  /** A call the provider makes on the battle socket. */
  datatype SocketCall =
    | CallConnect(username: string)
    | CallDisconnect
    | CallSubscribe
    | CallUnsubscribe
    | CallInvite(target: string)
    | CallRespond(roomCode: string, accepted: bool)
    | CallAnswer(roomCode: string, longitude: real, latitude: real)
    | CallQuit

  /** A router navigation, with the GAME_START message handed over as `state.initial`. */
  datatype Navigation = Navigation(path: string, initial: Json)

  /** The toast invariant: at most 4, newest first, every id already handed out. */
  ghost predicate ToastsOk(toasts: seq<Toast>, nextId: nat) {
    |toasts| <= TOAST_CAP && NewestFirst(toasts) && nextId >= 1
    && forall i :: 0 <= i < |toasts| ==> 0 < toasts[i].id < nextId
  }

  lemma PushToastOk(toasts: seq<Toast>, nextId: nat, text: Json, level: Level)
    requires ToastsOk(toasts, nextId)
    ensures ToastsOk(PushToast(toasts, Toast(nextId, text, level)), nextId + 1)
  {
    var t := Toast(nextId, text, level);
    PushToastNewestFirst(toasts, t);
    var r := PushToast(toasts, t);
    forall i | 0 <= i < |r| ensures 0 < r[i].id < nextId + 1 {
      if i > 0 {
        assert r[i] == r[1..][i - 1] == toasts[i - 1];
      }
    }
  }

  lemma DropToastOk(toasts: seq<Toast>, nextId: nat, id: nat)
    requires ToastsOk(toasts, nextId)
    ensures ToastsOk(DropToast(toasts, id), nextId)
  {
    DropToastNewestFirst(toasts, id);
    var r := DropToast(toasts, id);
    forall i | 0 <= i < |r| ensures 0 < r[i].id < nextId {
      assert r[i] in toasts;
    }
  }

  class Provider {
    var username: string
    var subscribed: bool
    var connected: bool
    var inBattle: bool
    var activeRoomCode: string
    var stateEvents: seq<StateEvent>
    var nextEventId: nat
    var invites: seq<Invite>
    var activeInviteRoomCode: string
    var toasts: seq<Toast>
    var nextToastId: nat
    var calls: seq<SocketCall>
    var navigations: seq<Navigation>

    ghost predicate LogValid()
      reads this`stateEvents, this`nextEventId
    {
      LogOk(stateEvents, nextEventId)
    }

    ghost predicate ToastsValid()
      reads this`toasts, this`nextToastId
    {
      ToastsOk(toasts, nextToastId)
    }

    ghost predicate Valid()
      reads this`stateEvents, this`nextEventId, this`invites, this`toasts, this`nextToastId,
            this`subscribed, this`username
    {
      LogValid() && UniqueRooms(invites) && ToastsValid() && (subscribed ==> username != "")
    }

    constructor ()
      ensures Valid() && !subscribed && username == ""
      ensures !connected && !inBattle && activeRoomCode == "" && stateEvents == []
      ensures invites == [] && activeInviteRoomCode == "" && toasts == []
      ensures nextEventId == 1 && nextToastId == 1 && calls == [] && navigations == []
    {
      username, subscribed := "", false;
      connected, inBattle, activeRoomCode := false, false, "";
      stateEvents, nextEventId := [], 1;
      invites, activeInviteRoomCode := [], "";
      toasts, nextToastId := [], 1;
      calls, navigations := [], [];
    }

    /** `lastStateMessage`. */
    function LastStateMessage(): Json
      reads this
    {
      LastMessage(stateEvents)
    }

    /** `addToast(text, level)`; the toast's own expiry is `ExpireToast(id)`. */
    method AddToast(text: Json, level: Level) returns (id: nat)
      requires Valid()
      modifies this`toasts, this`nextToastId
      ensures Valid()
      ensures id == old(nextToastId) && nextToastId == id + 1
      ensures toasts == PushToast(old(toasts), Toast(id, text, level))
    {
      id := nextToastId;
      PushToastOk(toasts, id, text, level);
      toasts, nextToastId := PushToast(toasts, Toast(id, text, level)), id + 1;
    }

    /** `dismissToast(id)`, and the 4500 ms expiry of toast `id`. */
    method DismissToast(id: nat)
      requires Valid()
      modifies this`toasts
      ensures Valid() && toasts == DropToast(old(toasts), id)
    {
      DropToastOk(toasts, nextToastId, id);
      toasts := DropToast(toasts, id);
    }

    method ExpireToast(id: nat)
      requires Valid()
      modifies this`toasts
      ensures Valid() && toasts == DropToast(old(toasts), id)
    {
      DismissToast(id);
    }

    /** The socket's connection callback. */
    method OnConnection(ok: bool)
      requires Valid() && subscribed
      modifies this`connected
      ensures Valid() && connected == ok
    {
      connected := ok;
    }

    /** The effect keyed on the username: undo the previous run, then either reset
      * everything (no user) or connect and subscribe (a user). Subscribing to the
      * connection reports the socket's current flag synchronously; right after the
      * disconnect and a fresh connect that flag is false. */
    method SetUsername(name: string)
      requires Valid()
      modifies this`username, this`subscribed, this`calls, this`connected, this`inBattle,
               this`activeRoomCode, this`invites, this`activeInviteRoomCode
      ensures Valid() && username == name && subscribed == (name != "")
      ensures var cleanup := if old(subscribed) then [CallUnsubscribe, CallDisconnect] else [];
              calls == old(calls) + cleanup
                + (if name == "" then [CallDisconnect] else [CallConnect(name), CallSubscribe])
      ensures name == "" ==> !connected && !inBattle && activeRoomCode == ""
                             && invites == [] && activeInviteRoomCode == ""
      ensures name != "" ==> !connected && inBattle == old(inBattle)
                             && activeRoomCode == old(activeRoomCode) && invites == old(invites)
                             && activeInviteRoomCode == old(activeInviteRoomCode)
    {
      if subscribed {
        calls := calls + [CallUnsubscribe, CallDisconnect];
        subscribed := false;
      }
      username := name;
      if name == "" {
        calls := calls + [CallDisconnect];
        connected, inBattle, activeRoomCode := false, false, "";
        invites, activeInviteRoomCode := [], "";
      } else {
        calls := calls + [CallConnect(name), CallSubscribe];
        // subscribeConnection reports the socket's flag at once, and the socket has just
        // been disconnected (by the cleanup, or by connect itself on its fresh path)
        connected := false;
        subscribed := true;
      }
    }

    /** The invite subscriber. */
    method OnInvite(msg: Json)
      requires Valid() && subscribed
      modifies this`invites, this`activeInviteRoomCode, this`toasts, this`nextToastId
      ensures Valid()
      ensures NormalizeInvite(msg).None? ==>
                invites == old(invites) && activeInviteRoomCode == old(activeInviteRoomCode)
                && toasts == old(toasts) && nextToastId == old(nextToastId)
      ensures NormalizeInvite(msg).Some? ==>
                var inv := NormalizeInvite(msg).value;
                invites == AddInvite(old(invites), inv)
                && activeInviteRoomCode == inv.roomCode
                && toasts == PushToast(old(toasts), Toast(old(nextToastId), JStr(MSG_INVITE_RECEIVED), Info))
                && nextToastId == old(nextToastId) + 1
    {
      var normalized := NormalizeInvite(msg);
      if normalized.None? {
        return;
      }
      var inv := normalized.value;
      AddInviteUnique(invites, inv);
      invites := AddInvite(invites, inv);
      activeInviteRoomCode := inv.roomCode;
      PushToastOk(toasts, nextToastId, JStr(MSG_INVITE_RECEIVED), Info);
      toasts := PushToast(toasts, Toast(nextToastId, JStr(MSG_INVITE_RECEIVED), Info));
      nextToastId := nextToastId + 1;
    }

    /** The state subscriber, with the router's current path: the message is stamped and
      * logged, then the provider reacts to its type. */
    method OnState(msg: Json, pathname: string)
      requires Valid() && subscribed
      modifies this`stateEvents, this`nextEventId, this`toasts, this`nextToastId,
               this`inBattle, this`activeRoomCode, this`invites, this`activeInviteRoomCode, this`navigations
      ensures Valid() && IdsIncreasing(stateEvents)
      ensures stateEvents == AppendCapped(old(stateEvents), StateEvent(old(nextEventId), msg))
      ensures nextEventId == old(nextEventId) + 1
      ensures StateHandled(msg, pathname, old(toasts), old(nextToastId), old(inBattle), old(activeRoomCode),
                           old(invites), old(activeInviteRoomCode), old(navigations))
    {
      PushStateOk(stateEvents, nextEventId, msg);
      stateEvents, nextEventId := AppendCapped(stateEvents, StateEvent(nextEventId, msg)), nextEventId + 1;
      ReactToState(msg, pathname);
    }

    /** What the state subscriber does besides logging: INVITE_REJECTED shows an error
      * toast; GAME_START enters the battle, drops every invite and opens the battle page
      * unless it is already shown; GAME_OVER leaves the battle with an info toast; any
      * other message changes nothing more. */
    ghost predicate StateHandled(msg: Json, pathname: string, toasts0: seq<Toast>, toastId0: nat,
                                 inBattle0: bool, room0: string, invites0: seq<Invite>, active0: string,
                                 navs0: seq<Navigation>)
      reads this`toasts, this`nextToastId, this`inBattle, this`activeRoomCode, this`invites,
            this`activeInviteRoomCode, this`navigations
    {
      var ty := Get(msg, "type");
      var room := TextOr(Get(msg, "roomCode"));
      && (ty == Some(JStr("INVITE_REJECTED")) ==>
            toasts == PushToast(toasts0, Toast(toastId0, Or(Get(msg, "message"), JStr(MSG_INVITE_FAILED)), Error))
            && nextToastId == toastId0 + 1)
      && (ty == Some(JStr("GAME_OVER")) ==>
            toasts == PushToast(toasts0, Toast(toastId0, Or(Get(msg, "message"), JStr(MSG_BATTLE_OVER)), Info))
            && nextToastId == toastId0 + 1 && !inBattle && activeRoomCode == "")
      && (ty != Some(JStr("INVITE_REJECTED")) && ty != Some(JStr("GAME_OVER")) ==>
            toasts == toasts0 && nextToastId == toastId0)
      && (ty == Some(JStr("GAME_START")) ==>
            inBattle && activeRoomCode == room && invites == [] && activeInviteRoomCode == ""
            && navigations == navs0
                 + (if room != "" && !StartsWith(pathname, BATTLE_ROUTE)
                    then [Navigation(BATTLE_ROUTE + Uri.Encode(Uri.Component, room), msg)] else []))
      && (ty != Some(JStr("GAME_START")) ==>
            invites == invites0 && activeInviteRoomCode == active0 && navigations == navs0)
      && (ty != Some(JStr("GAME_START")) && ty != Some(JStr("GAME_OVER")) ==>
            inBattle == inBattle0 && activeRoomCode == room0)
    }

    method ReactToState(msg: Json, pathname: string)
      requires Valid()
      modifies this`toasts, this`nextToastId, this`inBattle, this`activeRoomCode, this`invites,
               this`activeInviteRoomCode, this`navigations
      ensures Valid()
      ensures StateHandled(msg, pathname, old(toasts), old(nextToastId), old(inBattle), old(activeRoomCode),
                           old(invites), old(activeInviteRoomCode), old(navigations))
    {
      var ty := Get(msg, "type");
      if ty == Some(JStr("INVITE_REJECTED")) {
        ReactToRejected(msg, pathname);
      } else if ty == Some(JStr("GAME_START")) {
        ReactToStart(msg, pathname);
      } else if ty == Some(JStr("GAME_OVER")) {
        ReactToOver(msg, pathname);
      }
    }

    /** INVITE_REJECTED: an error toast. */
    method ReactToRejected(msg: Json, pathname: string)
      requires Valid() && Get(msg, "type") == Some(JStr("INVITE_REJECTED"))
      modifies this`toasts, this`nextToastId
      ensures Valid()
      ensures StateHandled(msg, pathname, old(toasts), old(nextToastId), inBattle, activeRoomCode,
                           invites, activeInviteRoomCode, navigations)
    {
      var text := Or(Get(msg, "message"), JStr(MSG_INVITE_FAILED));
      PushToastOk(toasts, nextToastId, text, Error);
      toasts, nextToastId := PushToast(toasts, Toast(nextToastId, text, Error)), nextToastId + 1;
    }

    /** GAME_START: into the battle, invites dropped, the battle page opened. */
    method ReactToStart(msg: Json, pathname: string)
      requires Valid() && Get(msg, "type") == Some(JStr("GAME_START"))
      modifies this`inBattle, this`activeRoomCode, this`invites, this`activeInviteRoomCode, this`navigations
      ensures Valid()
      ensures StateHandled(msg, pathname, toasts, nextToastId, old(inBattle), old(activeRoomCode),
                           old(invites), old(activeInviteRoomCode), old(navigations))
    {
      var room := TextOr(Get(msg, "roomCode"));
      inBattle, activeRoomCode := true, room;
      invites, activeInviteRoomCode := [], "";
      if room != "" && !StartsWith(pathname, BATTLE_ROUTE) {
        navigations := navigations + [Navigation(BATTLE_ROUTE + Uri.Encode(Uri.Component, room), msg)];
      }
    }

    /** GAME_OVER: out of the battle, with an info toast. */
    method ReactToOver(msg: Json, pathname: string)
      requires Valid() && Get(msg, "type") == Some(JStr("GAME_OVER"))
      modifies this`toasts, this`nextToastId, this`inBattle, this`activeRoomCode
      ensures Valid()
      ensures StateHandled(msg, pathname, old(toasts), old(nextToastId), old(inBattle), old(activeRoomCode),
                           invites, activeInviteRoomCode, navigations)
    {
      inBattle, activeRoomCode := false, "";
      var text := Or(Get(msg, "message"), JStr(MSG_BATTLE_OVER));
      PushToastOk(toasts, nextToastId, text, Info);
      toasts, nextToastId := PushToast(toasts, Toast(nextToastId, text, Info)), nextToastId + 1;
    }

    /** `removeInvite(roomCode)`. */
    method RemoveInvite(room: string)
      requires Valid()
      modifies this`invites, this`activeInviteRoomCode
      ensures Valid() && invites == WithoutRoom(old(invites), room)
      ensures activeInviteRoomCode == if old(activeInviteRoomCode) == room then "" else old(activeInviteRoomCode)
    {
      WithoutRoomUnique(invites, room);
      invites := WithoutRoom(invites, room);
      if activeInviteRoomCode == room {
        activeInviteRoomCode := "";
      }
    }

    /** `sendInvite(toUsername)`: the checks come before any call; `outcome` is how the
      * awaited `battleSocket.invite` ends. */
    method SendInvite(toUsername: string, outcome: Result<(), string>) returns (r: Result<(), string>)
      requires Valid()
      modifies this`calls, this`toasts, this`nextToastId
      ensures Valid()
      ensures InviteSent(Trim(toUsername), outcome, r, old(calls), old(toasts), old(nextToastId))
    {
      r := SendInviteTo(Trim(toUsername), outcome);
    }

    /** What `sendInvite` does with the trimmed target. */
    ghost predicate InviteSent(target: string, outcome: Result<(), string>, r: Result<(), string>,
                               calls0: seq<SocketCall>, toasts0: seq<Toast>, toastId0: nat)
      reads this`calls, this`toasts, this`nextToastId, this`inBattle
    {
      && (target == "" ==> r == Err(MSG_BLANK_TARGET))
      && (target != "" && inBattle ==> r == Err(MSG_IN_BATTLE))
      && (target == "" || inBattle ==> calls == calls0 && toasts == toasts0 && nextToastId == toastId0)
      && (target != "" && !inBattle ==>
            calls == calls0 + [CallInvite(target)] && r == outcome
            && (outcome.Ok? ==> toasts == PushToast(toasts0, Toast(toastId0, JStr(INVITE_SENT_PREFIX + target), Info)))
            && (outcome.Err? ==> toasts == toasts0))
    }

    method SendInviteTo(target: string, outcome: Result<(), string>) returns (r: Result<(), string>)
      requires Valid()
      modifies this`calls, this`toasts, this`nextToastId
      ensures Valid()
      ensures InviteSent(target, outcome, r, old(calls), old(toasts), old(nextToastId))
    {
      if target == "" {
        return Err(MSG_BLANK_TARGET);
      }
      if inBattle {
        return Err(MSG_IN_BATTLE);
      }
      calls := calls + [CallInvite(target)];
      if outcome.Ok? {
        var _ := AddToast(JStr(INVITE_SENT_PREFIX + target), Info);
      }
      r := outcome;
    }

    /** `acceptInvite` (accepted) and `rejectInvite` (not accepted): the invite is removed
      * only once the answer was published; a failure keeps it and shows the reason. */
    method Respond(room: string, accepted: bool, outcome: Result<(), string>)
      requires Valid()
      modifies this`calls, this`invites, this`activeInviteRoomCode, this`toasts, this`nextToastId
      ensures Valid() && calls == old(calls) + [CallRespond(room, accepted)]
      ensures nextToastId == old(nextToastId) + 1
      ensures outcome.Ok? ==>
                invites == WithoutRoom(old(invites), room)
                && activeInviteRoomCode == (if old(activeInviteRoomCode) == room then "" else old(activeInviteRoomCode))
                && toasts == PushToast(old(toasts), Toast(old(nextToastId),
                                 JStr(if accepted then MSG_ACCEPTED else MSG_REJECTED), Info))
      ensures outcome.Err? ==>
                invites == old(invites) && activeInviteRoomCode == old(activeInviteRoomCode)
                && toasts == PushToast(old(toasts), Toast(old(nextToastId),
                                 FailureText(outcome.error, if accepted then MSG_ACCEPT_FAILED else MSG_REJECT_FAILED), Error))
    {
      calls := calls + [CallRespond(room, accepted)];
      var t;
      if outcome.Ok? {
        RemoveInvite(room);
        t := Toast(nextToastId, JStr(if accepted then MSG_ACCEPTED else MSG_REJECTED), Info);
      } else {
        t := Toast(nextToastId, FailureText(outcome.error, if accepted then MSG_ACCEPT_FAILED else MSG_REJECT_FAILED), Error);
      }
      PushToastOk(toasts, nextToastId, t.text, t.level);
      toasts, nextToastId := PushToast(toasts, t), nextToastId + 1;
    }

    /** `submitAnswer(roomCode, coord)`: the longitude goes first. */
    method SubmitAnswer(room: string, lat: real, lon: real)
      requires Valid()
      modifies this`calls
      ensures Valid() && calls == old(calls) + [CallAnswer(room, lon, lat)]
    {
      calls := calls + [CallAnswer(room, lon, lat)];
    }

    method QuitBattle()
      requires Valid()
      modifies this`calls
      ensures Valid() && calls == old(calls) + [CallQuit]
    {
      calls := calls + [CallQuit];
    }
  }

  /** Two consecutive reads of the provider's log by a cursor reader give the result of
    * one read of everything pushed, even though the log evicts old entries: a push
    * only ever drops entries from the front of what the reader has already seen. */
  lemma ReadAcrossPush<S>(step: (S, Json) -> S, s: S, cursor: int,
                          log: seq<StateEvent>, ev: StateEvent)
    requires |log| <= LOG_CAP && IdsIncreasing(log + [ev])
    ensures var (s1, c1) := Consume(step, s, cursor, log);
            Consume(step, s1, c1, AppendCapped(log, ev)) == Consume(step, s, cursor, log + [ev])
  {
    var k :| 0 <= k <= |log| && AppendCapped(log, ev) == log[k..] + [ev];
    ConsumeTwoBatches(step, s, cursor, log, [ev], k);
  }
}
