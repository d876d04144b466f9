/** The matchmaking page: inviting a friend and reacting to the answer that arrives
  * through the provider's state log. */
module Matchmaking {
  import opened Common
  import opened Json
  import opened EventLog

  const MSG_INVITE_FAILED := "邀请失败"
  const MSG_ENTERING := "对方已接受，正在进入对战..."
  const MSG_SEND_FAILED := "发送邀请失败"
  const SENT_PREFIX := "已发送邀请给："
  const SENT_SUFFIX := "，等待对方响应..."

  /** The invite status shown on the page: whom an invite is being sent to ('' when
    * none), the info line and the error line. */
  datatype Status = Status(sendingTo: string, actionMsg: Json, actionErr: Json)

  const InitialStatus := Status("", JStr(""), JStr(""))

  /** One state message as the page handles it. */
  function Step(s: Status, msg: Json): (r: Status)
    ensures Get(msg, "type") == Some(JStr("INVITE_REJECTED")) ==>
              r == s.(sendingTo := "", actionErr := Or(Get(msg, "message"), JStr(MSG_INVITE_FAILED)))
    ensures Get(msg, "type") == Some(JStr("GAME_START")) ==>
              r == s.(sendingTo := "", actionMsg := JStr(MSG_ENTERING))
    ensures Get(msg, "type") != Some(JStr("INVITE_REJECTED")) && Get(msg, "type") != Some(JStr("GAME_START")) ==>
              r == s
  {
    var ty := Get(msg, "type");
    if ty == Some(JStr("INVITE_REJECTED")) then
      s.(sendingTo := "", actionErr := Or(Get(msg, "message"), JStr(MSG_INVITE_FAILED)))
    else if ty == Some(JStr("GAME_START")) then
      s.(sendingTo := "", actionMsg := JStr(MSG_ENTERING))
    else s
  }

  function StepFn(): (Status, Json) -> Status {
    (s, msg) => Step(s, msg)
  }

  /** The invite controls are disabled while an invite is being sent or during a battle;
    * the send button also while the typed name is blank. */
  predicate ControlsDisabled(s: Status, inBattle: bool) {
    s.sendingTo != "" || inBattle
  }

  predicate SendButtonDisabled(s: Status, inBattle: bool, typed: string) {
    Trim(typed) == "" || ControlsDisabled(s, inBattle)
  }

  /** Every handled event moves the cursor to the largest id seen, whatever its type. */
  lemma CursorReachesEveryEvent(s: Status, cursor: int, log: seq<StateEvent>)
    ensures var (_, c) := Consume(StepFn(), s, cursor, log);
            c >= cursor && forall i :: 0 <= i < |log| ==> log[i].id <= c
  {
    CursorCoversLog(StepFn(), s, cursor, log);
  }

  /** Running the effect again on an unchanged log does nothing. */
  lemma LobbyIdempotent(s: Status, cursor: int, log: seq<StateEvent>)
    ensures var (s1, c1) := Consume(StepFn(), s, cursor, log);
            Consume(StepFn(), s1, c1, log) == (s1, c1)
  {
    ConsumeIdempotent(StepFn(), s, cursor, log);
  }

  /** The two answers to an invite: a rejection, or the start of the battle. */
  predicate IsAnswer(msg: Json) {
    Get(msg, "type") == Some(JStr("INVITE_REJECTED")) || Get(msg, "type") == Some(JStr("GAME_START"))
  }

  /** A rejection or a start, once read, ends the "sending" state for good: the page
    * offers invites again unless a battle is on. */
  lemma {:induction false} AnswerEndsSending(s: Status, evs: seq<StateEvent>, i: int)
    requires 0 <= i < |evs| && IsAnswer(evs[i].msg)
    requires forall j :: i < j < |evs| ==> !IsAnswer(evs[j].msg)
    ensures Replay(StepFn(), s, evs).sendingTo == ""
    decreases |evs|
  {
    var rest := evs[1..];
    if i == 0 {
      forall j | 0 <= j < |rest| ensures !IsAnswer(rest[j].msg) {
        assert rest[j] == evs[j + 1];
      }
      UnaffectedReplay(Step(s, evs[0].msg), rest);
    } else {
      assert rest[i - 1] == evs[i];
      forall j | i - 1 < j < |rest| ensures !IsAnswer(rest[j].msg) {
        assert rest[j] == evs[j + 1];
      }
      AnswerEndsSending(Step(s, evs[0].msg), rest, i - 1);
    }
  }

  /** Messages that answer no invite leave the page as it was. */
  lemma {:induction false} UnaffectedReplay(s: Status, evs: seq<StateEvent>)
    requires forall j :: 0 <= j < |evs| ==> !IsAnswer(evs[j].msg)
    ensures Replay(StepFn(), s, evs) == s
  {
    if evs != [] {
      var rest := evs[1..];
      forall j | 0 <= j < |rest| ensures !IsAnswer(rest[j].msg) {
        assert rest[j] == evs[j + 1];
      }
      assert !IsAnswer(evs[0].msg);
      UnaffectedReplay(s, rest);
    }
  }

  class Lobby {
    var status: Status
    var lastHandledId: int
    var sent: seq<string>

    constructor ()
      ensures status == InitialStatus && lastHandledId == 0 && sent == []
    {
      status, lastHandledId, sent := InitialStatus, 0, [];
    }

    /** The effect on `stateEvents`. */
    method OnStateEvents(stateEvents: seq<StateEvent>)
      modifies this`status, this`lastHandledId
      ensures (status, lastHandledId) == Consume(StepFn(), old(status), old(lastHandledId), stateEvents)
    {
      if |stateEvents| == 0 {
        assert After(stateEvents, lastHandledId) == [];
        return;
      }
      var newEvents := After(stateEvents, lastHandledId);
      ghost var s0, c0 := status, lastHandledId;
      var i := 0;
      while i < |newEvents|
        invariant 0 <= i <= |newEvents|
        invariant Replay(StepFn(), status, newEvents[i..]) == Replay(StepFn(), s0, newEvents)
        invariant Advance(lastHandledId, newEvents[i..]) == Advance(c0, newEvents)
      {
        var ev := newEvents[i];
        assert newEvents[i..][1..] == newEvents[i + 1..];
        status := Step(status, ev.msg);
        lastHandledId := if ev.id > lastHandledId then ev.id else lastHandledId;
        i := i + 1;
      }
      assert newEvents[i..] == [];
    }

    /** The synchronous part of `handleInvite(toUsername)`: a blank name is ignored;
      * otherwise both lines are cleared, the page records whom it is inviting (which
      * disables the invite controls) and the invite goes to the provider. */
    method BeginInvite(toUsername: Option<Json>) returns (target: string)
      modifies this`status, this`sent
      ensures target == Trim(TextOr(toUsername))
      ensures target == "" ==> status == old(status) && sent == old(sent)
      ensures target != "" ==> status == Status(target, JStr(""), JStr("")) && sent == old(sent) + [target]
      ensures target != "" ==> ControlsDisabled(status, false)
    {
      target := Trim(TextOr(toUsername));
      if target == "" {
        return;
      }
      status := Status(target, JStr(""), JStr(""));
      sent := sent + [target];
    }

    /** How the awaited `sendInvite(target)` ended. */
    method FinishInvite(target: string, outcome: Result<(), string>)
      modifies this`status
      ensures outcome.Ok? ==> status == old(status).(actionMsg := JStr(SENT_PREFIX + target + SENT_SUFFIX))
      ensures outcome.Err? ==>
                status == old(status).(sendingTo := "",
                                       actionErr := JStr(if outcome.error != "" then outcome.error else MSG_SEND_FAILED))
    {
      if outcome.Ok? {
        status := status.(actionMsg := JStr(SENT_PREFIX + target + SENT_SUFFIX));
      } else {
        status := status.(actionErr := JStr(if outcome.error != "" then outcome.error else MSG_SEND_FAILED),
                          sendingTo := "");
      }
    }
  }
}
