/** The battle page: what it shows for one room, how it folds the provider's state log
  * into that view through its own cursor, the answer countdown, answer submission and
  * the "me / opponent" projection of the two players. */
module BattleGame {
  import opened Common
  import opened Json
  import opened EventLog

  const MSG_WAITING := "等待对战开始..."
  const MSG_STARTED := "对战开始！"
  const MSG_NEW_ROUND := "新回合开始"
  const MSG_OPPONENT_ANSWERED := "对方已作答"
  const MSG_ROUND_OVER := "回合结束"
  const MSG_GAME_OVER := "游戏结束"
  const MSG_SUBMITTED := "已提交答案，等待对方作答..."
  const MSG_SUBMIT_FAILED := "提交失败"
  const DEFAULT_HEALTH := 100
  const DEFAULT_ROUND := 1
  const DEFAULT_COUNTDOWN := 30

  datatype LatLng = LatLng(lat: real, lng: real)

  datatype GameOver = GameOver(winner: Json, message: Json)

  /** The page's React state. Player names, the question, the status line and the round
    * result are whatever the server sent (after the `|| default` the page applies). */
  datatype View = View(
    playerA: Json, playerB: Json,
    healthA: int, healthB: int,
    round: int,
    question: Json,
    guess: Option<LatLng>,
    hasSubmitted: bool,
    answeredA: bool, answeredB: bool,
    status: Json,
    countdown: Option<int>,
    roundResult: Json,
    showRoundResult: bool,
    gameOver: Option<GameOver>)

  const InitialView := View(JStr(""), JStr(""), DEFAULT_HEALTH, DEFAULT_HEALTH, DEFAULT_ROUND, JNull,
                            None, false, false, false, JStr(MSG_WAITING), None, JNull, false, None)

  /** The message is for this page: `msg?.roomCode === roomCode`. */
  predicate ForRoom(room: string, msg: Json) {
    Get(msg, "roomCode") == Some(JStr(room))
  }

  predicate IsType(msg: Json, ty: string) {
    Get(msg, "type") == Some(JStr(ty))
  }

  function Health(msg: Json, key: string): int {
    NumberOr(Get(msg, key), DEFAULT_HEALTH)
  }

  function RoundOf(msg: Json): int {
    NumberOr(Get(msg, "currentRound"), DEFAULT_ROUND)
  }

  /** One state message handled by the page's transition table. */
  function Step(room: string, v: View, msg: Json): View {
    if !ForRoom(room, msg) then v
    else if IsType(msg, "GAME_START") then
      View(Or(Get(msg, "playerA"), JStr("")), Or(Get(msg, "playerB"), JStr("")),
           Health(msg, "playerAHealth"), Health(msg, "playerBHealth"), RoundOf(msg),
           Or(Get(msg, "question"), JNull), None, false,
           Present(Get(msg, "playerAAnswered")), Present(Get(msg, "playerBAnswered")),
           Or(Get(msg, "message"), JStr(MSG_STARTED)), None, JNull, false, None)
    else if IsType(msg, "NEW_QUESTION") then
      v.(round := RoundOf(msg), question := Or(Get(msg, "question"), JNull),
         healthA := Health(msg, "playerAHealth"), healthB := Health(msg, "playerBHealth"),
         guess := None, hasSubmitted := false, answeredA := false, answeredB := false,
         roundResult := JNull, showRoundResult := false,
         status := Or(Get(msg, "message"), JStr(MSG_NEW_ROUND)), countdown := None)
    else if IsType(msg, "PLAYER_ANSWERED") then
      v.(answeredA := Present(Get(msg, "playerAAnswered")), answeredB := Present(Get(msg, "playerBAnswered")),
         status := Or(Get(msg, "message"), JStr(MSG_OPPONENT_ANSWERED)),
         countdown := Some(NumberOr(Get(msg, "countdown"), DEFAULT_COUNTDOWN)))
    else if IsType(msg, "ROUND_RESULT") then
      v.(healthA := Health(msg, "playerAHealth"), healthB := Health(msg, "playerBHealth"),
         round := RoundOf(msg), roundResult := Or(Get(msg, "roundResult"), JNull), showRoundResult := true,
         status := Or(Get(msg, "message"), JStr(MSG_ROUND_OVER)), countdown := None)
    else if IsType(msg, "GAME_OVER") then
      v.(healthA := Health(msg, "playerAHealth"), healthB := Health(msg, "playerBHealth"),
         gameOver := Some(GameOver(Or(Get(msg, "winner"), JStr("")), Or(Get(msg, "message"), JStr(MSG_GAME_OVER)))),
         status := Or(Get(msg, "message"), JStr(MSG_GAME_OVER)), countdown := None)
    else v.(status := Or(Get(msg, "message"), JStr("")))
  }

  function StepFor(room: string): (View, Json) -> View {
    (v, msg) => Step(room, v, msg)
  }

  // ---------------------------------------------------------------------
  // The transition table, message type by message type

  /** Messages for another room change nothing. */
  lemma OtherRoomUnchanged(room: string, v: View, msg: Json)
    requires !ForRoom(room, msg)
    ensures Step(room, v, msg) == v
  {
  }

  /** GAME_START installs the players, the answered flags and the question, reads the
    * health (100 when not a number) and the round (1), and clears the guess, the
    * submission, the round result and any game over. */
  lemma GameStartResets(room: string, v: View, msg: Json)
    requires ForRoom(room, msg) && IsType(msg, "GAME_START")
    ensures var w := Step(room, v, msg);
            && w.playerA == Or(Get(msg, "playerA"), JStr("")) && w.playerB == Or(Get(msg, "playerB"), JStr(""))
            && w.answeredA == Present(Get(msg, "playerAAnswered"))
            && w.answeredB == Present(Get(msg, "playerBAnswered"))
            && w.question == Or(Get(msg, "question"), JNull)
            && (SafeNumber(Get(msg, "playerAHealth")).None? ==> w.healthA == 100)
            && (SafeNumber(Get(msg, "playerBHealth")).None? ==> w.healthB == 100)
            && (SafeNumber(Get(msg, "currentRound")).None? ==> w.round == 1)
            && w.guess.None? && !w.hasSubmitted && w.roundResult == JNull && !w.showRoundResult
            && w.gameOver.None? && w.countdown.None?
  {
  }

  /** GAME_OVER is not terminal: a later GAME_START for the room starts over. */
  lemma GameOverNotTerminal(room: string, v: View, over: Json, start: Json)
    requires ForRoom(room, over) && IsType(over, "GAME_OVER")
    requires ForRoom(room, start) && IsType(start, "GAME_START")
    ensures Step(room, Step(room, v, over), start).gameOver.None?
    ensures Step(room, v, over).gameOver.Some?
  {
  }

  /** NEW_QUESTION starts a round: it replaces round, question and health, clears the
    * guess, the submission, both answered flags and the round result, and leaves the
    * players and the game-over state as they were. */
  lemma NewQuestionKeepsPlayers(room: string, v: View, msg: Json)
    requires ForRoom(room, msg) && IsType(msg, "NEW_QUESTION")
    ensures var w := Step(room, v, msg);
            && w.playerA == v.playerA && w.playerB == v.playerB && w.gameOver == v.gameOver
            && w.round == RoundOf(msg) && w.question == Or(Get(msg, "question"), JNull)
            && w.healthA == Health(msg, "playerAHealth") && w.healthB == Health(msg, "playerBHealth")
            && w.guess.None? && !w.hasSubmitted && !w.answeredA && !w.answeredB
            && w.roundResult == JNull && !w.showRoundResult
  {
  }

  /** PLAYER_ANSWERED touches only the answered flags, the status line and the countdown
    * (30 when not a number); in particular it never changes the health. */
  lemma PlayerAnsweredOnlyFlags(room: string, v: View, msg: Json)
    requires ForRoom(room, msg) && IsType(msg, "PLAYER_ANSWERED")
    ensures var w := Step(room, v, msg);
            && w.healthA == v.healthA && w.healthB == v.healthB
            && w == v.(answeredA := w.answeredA, answeredB := w.answeredB, status := w.status,
                       countdown := w.countdown)
            && (SafeNumber(Get(msg, "countdown")).None? ==> w.countdown == Some(30))
  {
  }

  /** ROUND_RESULT refreshes health and round and shows the result; GAME_OVER refreshes
    * health and records the winner ('' by default) and the message ('游戏结束'). */
  lemma RoundResultAndGameOver(room: string, v: View, msg: Json)
    requires ForRoom(room, msg)
    ensures IsType(msg, "ROUND_RESULT") ==>
              var w := Step(room, v, msg);
              w.showRoundResult && w.healthA == Health(msg, "playerAHealth") && w.round == RoundOf(msg)
              && w.gameOver == v.gameOver && w.playerA == v.playerA
    ensures IsType(msg, "GAME_OVER") ==>
              var w := Step(room, v, msg);
              w.gameOver == Some(GameOver(Or(Get(msg, "winner"), JStr("")), Or(Get(msg, "message"), JStr(MSG_GAME_OVER))))
              && w.healthB == Health(msg, "playerBHealth") && w.round == v.round && w.guess == v.guess
  {
  }

  /** A message of any other type changes only the status line. */
  lemma UnknownTypeOnlyStatus(room: string, v: View, msg: Json)
    requires ForRoom(room, msg)
    requires !IsType(msg, "GAME_START") && !IsType(msg, "NEW_QUESTION") && !IsType(msg, "PLAYER_ANSWERED")
    requires !IsType(msg, "ROUND_RESULT") && !IsType(msg, "GAME_OVER")
    ensures Step(room, v, msg) == v.(status := Or(Get(msg, "message"), JStr("")))
  {
  }

  // ---------------------------------------------------------------------
  // The cursor over the log

  predicate AllOtherRooms(room: string, evs: seq<StateEvent>) {
    forall i :: 0 <= i < |evs| ==> !ForRoom(room, evs[i].msg)
  }

  /** Events for other rooms only move the cursor. */
  lemma {:induction false} OtherRoomsOnlyAdvance(room: string, v: View, evs: seq<StateEvent>)
    requires AllOtherRooms(room, evs)
    ensures Replay(StepFor(room), v, evs) == v
  {
    if evs != [] {
      assert !ForRoom(room, evs[0].msg);
      assert AllOtherRooms(room, evs[1..]) by {
        forall i | 0 <= i < |evs[1..]| ensures !ForRoom(room, evs[1..][i].msg) {
          assert evs[1..][i] == evs[i + 1];
        }
      }
      OtherRoomsOnlyAdvance(room, v, evs[1..]);
    }
  }

  /** A log whose new events are all for other rooms leaves the view as it was. */
  lemma ConsumeOtherRooms(room: string, v: View, cursor: int, log: seq<StateEvent>)
    requires AllOtherRooms(room, log)
    ensures Consume(StepFor(room), v, cursor, log).0 == v
  {
    var unseen := After(log, cursor);
    assert AllOtherRooms(room, unseen) by {
      forall i | 0 <= i < |unseen| ensures !ForRoom(room, unseen[i].msg) {
        assert unseen[i] in log;
      }
    }
    OtherRoomsOnlyAdvance(room, v, unseen);
  }

  /** Running the effect again on an unchanged log does nothing. */
  lemma PageIdempotent(room: string, v: View, cursor: int, log: seq<StateEvent>)
    ensures var (v1, c1) := Consume(StepFor(room), v, cursor, log);
            Consume(StepFor(room), v1, c1, log) == (v1, c1)
  {
    ConsumeIdempotent(StepFor(room), v, cursor, log);
  }

  /** Reading the log in two batches gives what reading it once gives. */
  lemma PageTwoBatches(room: string, v: View, cursor: int, log1: seq<StateEvent>,
                       more: seq<StateEvent>, k: int)
    requires IdsIncreasing(log1 + more) && 0 <= k <= |log1|
    ensures var (v1, c1) := Consume(StepFor(room), v, cursor, log1);
            Consume(StepFor(room), v1, c1, log1[k..] + more) == Consume(StepFor(room), v, cursor, log1 + more)
  {
    ConsumeTwoBatches(StepFor(room), v, cursor, log1, more, k);
  }

  // ---------------------------------------------------------------------
  // The countdown

  /** The countdown effect runs a timer only while `countdown` is a positive number. */
  predicate Ticking(c: Option<int>) {
    c.Some? && c.value > 0
  }

  /** One timer tick: `next = (prev ?? 0) - 1; next <= 0 ? null : next`. */
  function Tick(c: Option<int>): (r: Option<int>)
    ensures Ticking(c) && c.value > 1 ==> r == Some(c.value - 1)
    ensures Ticking(c) && c.value == 1 ==> r.None?
  {
    var next := (if c.Some? then c.value else 0) - 1;
    if next <= 0 then None else Some(next)
  }

  function Ticks(c: Option<int>, k: nat): Option<int>
    decreases k
  {
    if k == 0 then c else Ticks(Tick(c), k - 1)
  }

  /** A countdown started at `n` shows n - k after k ticks and goes out after exactly n. */
  lemma {:induction false} CountdownRunsOut(n: int, k: nat)
    requires n > 0 && k <= n
    ensures k < n ==> Ticks(Some(n), k) == Some(n - k)
    ensures k == n ==> Ticks(Some(n), k).None?
    decreases k
  {
    if k > 0 {
      if n == 1 {
        assert Ticks(Some(n), k) == Ticks(None, 0);
      } else {
        CountdownRunsOut(n - 1, k - 1);
      }
    }
  }

  // ---------------------------------------------------------------------
  // The two players as seen by the signed-in user

  /** `username && playerA && username === playerA`. */
  predicate IsPlayerA(username: string, v: View) {
    username != "" && Truthy(v.playerA) && v.playerA == JStr(username)
  }

  datatype Sides = Sides(myHealth: int, oppHealth: int, opponent: Json, myAnswered: bool, oppAnswered: bool)

  function Project(username: string, v: View): (r: Sides)
    ensures IsPlayerA(username, v) ==>
              r == Sides(v.healthA, v.healthB, v.playerB, v.answeredA, v.answeredB)
    ensures !IsPlayerA(username, v) ==>
              r == Sides(v.healthB, v.healthA, v.playerA, v.answeredB, v.answeredA)
  {
    if IsPlayerA(username, v) then Sides(v.healthA, v.healthB, v.playerB, v.answeredA, v.answeredB)
    else Sides(v.healthB, v.healthA, v.playerA, v.answeredB, v.answeredA)
  }

  /** "My" values are player A's exactly when the user name is player A's name. */
  lemma MineIsAIff(username: string, v: View)
    ensures IsPlayerA(username, v) <==> username != "" && v.playerA == JStr(username)
  {
  }

  /** The width of a health bar, in percent; the number printed beside it is not clamped. */
  function BarWidth(health: int): (w: int)
    ensures 0 <= w <= 100
    ensures 0 <= health <= 100 ==> w == health
    ensures health < 0 ==> w == 0
    ensures health > 100 ==> w == 100
  {
    if health < 0 then 0 else if health > 100 then 100 else health
  }

  // ---------------------------------------------------------------------
  // The page

  /** `canSubmit`: a guess is placed, nothing was submitted and the game is not over. */
  predicate CanSubmit(v: View) {
    v.guess.Some? && !v.hasSubmitted && v.gameOver.None?
  }

  /** A map click places the guess unless an answer is submitted or the game is over. */
  function Click(v: View, at: LatLng): (w: View)
    ensures v.hasSubmitted || v.gameOver.Some? ==> w == v
    ensures !v.hasSubmitted && v.gameOver.None? ==> w == v.(guess := Some(at))
  {
    if v.hasSubmitted || v.gameOver.Some? then v else v.(guess := Some(at))
  }

  /** The answer the page hands to the provider's `submitAnswer`. */
  datatype Answer = Answer(roomCode: string, lat: real, lon: real)

  class Page {
    const room: string
    const username: string
    var view: View
    var lastHandledId: int
    var submitInFlight: bool
    var answers: seq<Answer>

    constructor (room: string, username: string)
      ensures this.room == room && this.username == username
      ensures view == InitialView && lastHandledId == 0 && !submitInFlight && answers == []
    {
      this.room, this.username := room, username;
      view, lastHandledId, submitInFlight, answers := InitialView, 0, false, [];
    }

    /** The effect on `stateEvents`: the unseen events, in log order, each through the
      * transition table, the cursor moving to the largest id seen. */
    method OnStateEvents(stateEvents: seq<StateEvent>)
      modifies this`view, this`lastHandledId
      ensures (view, lastHandledId) == Consume(StepFor(room), old(view), old(lastHandledId), stateEvents)
    {
      if |stateEvents| == 0 {
        assert After(stateEvents, lastHandledId) == [];
        return;
      }
      var newEvents := After(stateEvents, lastHandledId);
      ghost var v0, c0 := view, lastHandledId;
      var i := 0;
      while i < |newEvents|
        invariant 0 <= i <= |newEvents|
        invariant Replay(StepFor(room), view, newEvents[i..]) == Replay(StepFor(room), v0, newEvents)
        invariant Advance(lastHandledId, newEvents[i..]) == Advance(c0, newEvents)
      {
        var ev := newEvents[i];
        assert newEvents[i..][1..] == newEvents[i + 1..];
        view := Step(room, view, ev.msg);
        lastHandledId := if ev.id > lastHandledId then ev.id else lastHandledId;
        i := i + 1;
      }
      assert newEvents[i..] == [];
    }

    /** One second of the countdown timer. */
    method CountdownTick()
      requires Ticking(view.countdown)
      modifies this`view
      ensures view == old(view).(countdown := Tick(old(view).countdown))
    {
      view := view.(countdown := Tick(view.countdown));
    }

    method MapClick(at: LatLng)
      modifies this`view
      ensures view == Click(old(view), at)
    {
      if view.hasSubmitted || view.gameOver.Some? {
        return;
      }
      view := view.(guess := Some(at));
    }

    /** The synchronous part of `handleSubmit`: nothing happens unless the answer can be
      * submitted and no submission is in flight; otherwise the page locks and hands the
      * guess to the provider (latitude, then the map's longitude). */
    method BeginSubmit() returns (started: bool)
      modifies this`view, this`submitInFlight, this`answers
      ensures started <==> CanSubmit(old(view)) && !old(submitInFlight)
      ensures !started ==> view == old(view) && submitInFlight == old(submitInFlight) && answers == old(answers)
      ensures started ==> submitInFlight && view == old(view).(hasSubmitted := true)
                           && answers == old(answers) + [Answer(room, old(view).guess.value.lat, old(view).guess.value.lng)]
    {
      if !CanSubmit(view) || submitInFlight {
        return false;
      }
      submitInFlight := true;
      var g := view.guess.value;
      view := view.(hasSubmitted := true);
      answers := answers + [Answer(room, g.lat, g.lng)];
      started := true;
    }

    /** How the awaited `submitAnswer` ended: on success the user's own answered flag is
      * set; on failure the page unlocks so the user can submit again. */
    method FinishSubmit(outcome: Result<(), string>)
      requires submitInFlight
      modifies this`view, this`submitInFlight
      ensures !submitInFlight
      ensures outcome.Ok? ==>
                view == old(view).(
                  answeredA := old(view).answeredA || (username != "" && Truthy(old(view).playerA) && old(view).playerA == JStr(username)),
                  answeredB := old(view).answeredB || (username != "" && Truthy(old(view).playerB) && old(view).playerB == JStr(username)),
                  status := JStr(MSG_SUBMITTED))
      ensures outcome.Err? ==>
                view == old(view).(hasSubmitted := false,
                                   status := JStr(if outcome.error != "" then outcome.error else MSG_SUBMIT_FAILED))
    {
      if outcome.Ok? {
        if username != "" && Truthy(view.playerA) && view.playerA == JStr(username) {
          view := view.(answeredA := true);
        }
        if username != "" && Truthy(view.playerB) && view.playerB == JStr(username) {
          view := view.(answeredB := true);
        }
        view := view.(status := JStr(MSG_SUBMITTED));
      } else {
        view := view.(hasSubmitted := false,
                      status := JStr(if outcome.error != "" then outcome.error else MSG_SUBMIT_FAILED));
      }
      submitInFlight := false;
    }
  }

  /** While a submission is in flight, a second press does nothing at all. */
  method SecondPressIsNoop(p: Page) returns (started: bool)
    requires p.submitInFlight
    modifies p`view, p`submitInFlight, p`answers
    ensures !started && p.view == old(p.view) && p.answers == old(p.answers)
  {
    started := p.BeginSubmit();
  }
}
