/** The practice game page: scoring a guess, the result it shows, moving through the
  * list of questions, and zooming the picture. The great-circle distance between the
  * guess and the answer is an input (the haversine formula is not part of this model). */
module SoloGame {
  import opened Common
  import opened Scoring

  const MAX_SCORE: nat := 100
  const RADIUS: real := 1000.0
  const MSG_NO_GUESS := "请先在地图上标记位置！"
  const MSG_NO_COORD := "该题目缺少正确坐标，无法练习"
  const MSG_CORRECT := "正确！"
  const MSG_MISSED := "未命中正确位置"
  const MSG_LOAD_FAILED := "题目加载失败"
  const ZOOM_STEP: real := 0.12
  const MIN_SCALE: real := 1.0
  const MAX_SCALE: real := 3.0

  datatype LatLng = LatLng(lat: real, lng: real)

  /** A question's answer coordinate as the server sends it; either part may be null. */
  datatype Coord = Coord(lat: Option<real>, lon: Option<real>)

  predicate HasCoord(c: Option<Coord>) {
    c.Some? && c.value.lat.Some? && c.value.lon.Some?
  }

  /** A distance (None is NaN) and a score. */
  datatype Scored = Scored(meters: Option<real>, score: int)

  /** `calculateDistanceAndScore(correct, guess)`, `meters` being the haversine distance. */
  function DistanceAndScore(correct: Option<Coord>, meters: Meters): (r: Scored)
    ensures !HasCoord(correct) ==> r == Scored(None, 0)
    ensures HasCoord(correct) ==> r == Scored(Some(meters), DecayScore(MAX_SCORE, RADIUS, meters))
    ensures 0 <= r.score <= 100
  {
    if !HasCoord(correct) then Scored(None, 0)
    else Scored(Some(meters), DecayScore(MAX_SCORE, RADIUS, meters))
  }

  /** The page's score: 100 on the spot, falling linearly to 0 at one kilometre. */
  lemma GameScoreShape(m1: Meters, m2: Meters)
    requires m1 <= m2
    ensures DecayScore(MAX_SCORE, RADIUS, 0.0) == 100
    ensures m2 >= 1000.0 ==> DecayScore(MAX_SCORE, RADIUS, m2) == 0
    ensures DecayScore(MAX_SCORE, RADIUS, m2) <= DecayScore(MAX_SCORE, RADIUS, m1)
  {
    DecayAtZero(MAX_SCORE, RADIUS);
    if m2 >= 1000.0 {
      DecayBeyondRadius(MAX_SCORE, RADIUS, m2);
    }
    DecayMonotone(MAX_SCORE, RADIUS, m1, m2);
  }

  /** A score of exactly 50 — the page's test for a correct answer — means a distance
    * in the ring from 495 m (exclusive) to 505 m (inclusive). */
  lemma ScoreFiftyIff(m: Meters)
    ensures DecayScore(MAX_SCORE, RADIUS, m) == 50 <==> 495.0 < m <= 505.0
  {
    var raw := RawScore(MAX_SCORE, RADIUS, m);
    var lin := 100.0 * (1.0 - m / 1000.0);
    assert lin == 100.0 - m / 10.0;
    if m < 1000.0 {
      assert raw == lin;
    } else {
      DecayBeyondRadius(MAX_SCORE, RADIUS, m);
    }
  }

  datatype SubmitResult = SubmitResult(meters: Option<real>, score: int, isCorrect: bool, message: string)

  /** `buildSubmitResult({guessPosition, correctCoord})`. */
  function BuildSubmitResult(guess: Option<LatLng>, correct: Option<Coord>, meters: Meters): (r: SubmitResult)
    ensures guess.None? ==> r == SubmitResult(None, 0, false, MSG_NO_GUESS)
    ensures guess.Some? && !HasCoord(correct) ==> r == SubmitResult(None, 0, false, MSG_NO_COORD)
    ensures guess.Some? && HasCoord(correct) ==>
              r.meters == Some(meters) && r.score == DecayScore(MAX_SCORE, RADIUS, meters)
              && r.isCorrect == (r.score == 50)
              && r.message == (if r.isCorrect then MSG_CORRECT else MSG_MISSED)
  {
    if guess.None? then SubmitResult(None, 0, false, MSG_NO_GUESS)
    else if !HasCoord(correct) then SubmitResult(None, 0, false, MSG_NO_COORD)
    else
      var s := DistanceAndScore(correct, meters);
      SubmitResult(s.meters, s.score, s.score == 50, if s.score == 50 then MSG_CORRECT else MSG_MISSED)
  }

  /** As written, a result counts as correct exactly for a distance in (495 m, 505 m]; a
    * guess on the very spot scores 100 and is reported as a miss. */
  lemma CorrectIff(guess: Option<LatLng>, correct: Option<Coord>, meters: Meters)
    ensures BuildSubmitResult(guess, correct, meters).isCorrect
            <==> guess.Some? && HasCoord(correct) && 495.0 < meters <= 505.0
    ensures guess.Some? && HasCoord(correct) ==> !BuildSubmitResult(guess, correct, 0.0).isCorrect
  {
    ScoreFiftyIff(meters);
    ScoreFiftyIff(0.0);
  }

  /** The zoom after one wheel step, kept within [1, 3]. */
  function WheelScale(scale: real, deltaY: real): (r: real)
    ensures MIN_SCALE <= r <= MAX_SCALE
    ensures var next := scale + (if deltaY < 0.0 then ZOOM_STEP else -ZOOM_STEP);
            MIN_SCALE <= next <= MAX_SCALE ==> r == next
  {
    var next := scale + (if deltaY < 0.0 then ZOOM_STEP else -ZOOM_STEP);
    if next > MAX_SCALE then MAX_SCALE else if next < MIN_SCALE then MIN_SCALE else next
  }

  /** Zooming in from `scale` never goes past 3 and zooming out never below 1: from
    * within the range, a step changes the zoom by at most 0.12. */
  lemma WheelStepBounded(scale: real, deltaY: real)
    requires MIN_SCALE <= scale <= MAX_SCALE
    ensures -ZOOM_STEP <= WheelScale(scale, deltaY) - scale <= ZOOM_STEP
    ensures deltaY < 0.0 ==> WheelScale(scale, deltaY) >= scale
    ensures deltaY >= 0.0 ==> WheelScale(scale, deltaY) <= scale
  {
  }

  /** The progress label: `min(index + 1, total)/total`, shown only for a non-empty list. */
  function Progress(index: int, total: nat): (r: Option<(int, nat)>)
    ensures r.Some? <==> total > 0
    ensures r.Some? ==> r.value.0 <= r.value.1 == total
    ensures r.Some? && 0 <= index < total ==> r.value.0 == index + 1
  {
    if total > 0 then Some((if index + 1 < total then index + 1 else total, total)) else None
  }

  /** `ids[i]`: undefined (None) outside the list, as with an index from the router state. */
  function IdAt(ids: seq<int>, i: int): (r: Option<int>)
    ensures r.Some? <==> 0 <= i < |ids|
    ensures r.Some? ==> r.value == ids[i]
  {
    if 0 <= i < |ids| then Some(ids[i]) else None
  }

  /** A question as the page loads it: its answer coordinate. */
  datatype Detail = Detail(id: int, correct: Option<Coord>)

  class Page {
    const isSolo: bool
    var questionIds: seq<int>
    var currentIndex: int
    var guess: Option<LatLng>
    var detail: Option<Detail>
    var loading: bool
    var error: string
    var result: Option<SubmitResult>
    var showResult: bool
    var imageScale: real
    var navigations: seq<string>
    var requests: seq<Option<int>>

    ghost predicate Valid()
      reads this`imageScale
    {
      MIN_SCALE <= imageScale <= MAX_SCALE
    }

    /** The page's state from its router state: the id list when it is an array, the
      * start index when it is a number. */
    constructor (isSolo: bool, initialIds: Option<seq<int>>, initialIndex: Option<int>)
      ensures Valid() && this.isSolo == isSolo
      ensures questionIds == (if initialIds.Some? then initialIds.value else [])
      ensures currentIndex == (if initialIndex.Some? then initialIndex.value else 0)
      ensures guess.None? && detail.None? && !loading && error == "" && result.None? && !showResult
      ensures imageScale == 1.0 && navigations == [] && requests == []
    {
      this.isSolo := isSolo;
      questionIds := if initialIds.Some? then initialIds.value else [];
      currentIndex := if initialIndex.Some? then initialIndex.value else 0;
      guess, detail, loading, error, result, showResult := None, None, false, "", None, false;
      imageScale, navigations, requests := 1.0, [], [];
    }

    function CorrectCoord(): Option<Coord>
      reads this`detail
    {
      if detail.Some? then detail.value.correct else None
    }

    /** `canSubmit`: a guess, an answer coordinate, and no result shown yet. */
    predicate CanSubmit()
      reads this`guess, this`detail, this`showResult
    {
      guess.Some? && HasCoord(CorrectCoord()) && !showResult
    }

    /** `hasNext`. */
    predicate HasNext()
      reads this`questionIds, this`currentIndex
    {
      isSolo && |questionIds| > 0 && currentIndex < |questionIds| - 1
    }

    method MapClick(at: LatLng)
      modifies this`guess
      ensures guess == if old(showResult) then old(guess) else Some(at)
    {
      if !showResult {
        guess := Some(at);
      }
    }

    /** `handleSubmit`, `meters` being the distance from the guess to the answer. */
    method Submit(meters: Meters)
      modifies this`result, this`showResult
      ensures result == Some(BuildSubmitResult(guess, CorrectCoord(), meters)) && showResult
    {
      result := Some(BuildSubmitResult(guess, CorrectCoord(), meters));
      showResult := true;
    }

    /** `handleImageWheel`: only the practice page zooms. */
    method Wheel(deltaY: real)
      requires Valid()
      modifies this`imageScale
      ensures Valid()
      ensures imageScale == if isSolo then WheelScale(old(imageScale), deltaY) else old(imageScale)
    {
      if !isSolo {
        return;
      }
      imageScale := WheelScale(imageScale, deltaY);
    }

    /** `loadDetail(id)`; `signedIn` is whether a user is stored, `outcome` how the
      * awaited detail request ended. A loaded question starts afresh at zoom 1. */
    method LoadDetail(id: Option<int>, signedIn: bool, outcome: Result<Detail, string>)
      requires Valid()
      modifies this`navigations, this`requests, this`loading, this`error, this`detail,
               this`guess, this`result, this`showResult, this`imageScale
      ensures Valid() && !loading
      ensures !signedIn ==> navigations == old(navigations) + ["/login"] && requests == old(requests)
                            && error == old(error) && detail == old(detail) && guess == old(guess)
                            && result == old(result) && showResult == old(showResult)
                            && imageScale == old(imageScale)
      ensures signedIn ==> navigations == old(navigations) && requests == old(requests) + [id]
      ensures signedIn && outcome.Ok? ==>
                detail == Some(outcome.value) && guess.None? && result.None? && !showResult
                && imageScale == 1.0 && error == ""
      ensures signedIn && outcome.Err? ==>
                error == (if outcome.error != "" then outcome.error else MSG_LOAD_FAILED)
                && detail == old(detail) && guess == old(guess) && result == old(result)
                && showResult == old(showResult) && imageScale == old(imageScale)
    {
      if !signedIn {
        navigations := navigations + ["/login"];
        loading := false;
        return;
      }
      loading, error := true, "";
      requests := requests + [id];
      if outcome.Ok? {
        detail := Some(outcome.value);
        guess, result, showResult, imageScale := None, None, false, 1.0;
      } else {
        error := if outcome.error != "" then outcome.error else MSG_LOAD_FAILED;
      }
      loading := false;
    }

    /** `goNext`: nothing without a next question; otherwise exactly one step on, and
      * the question at the new index is loaded. */
    method GoNext(signedIn: bool, outcome: Result<Detail, string>)
      requires Valid()
      modifies this`currentIndex, this`navigations, this`requests, this`loading, this`error, this`detail,
               this`guess, this`result, this`showResult, this`imageScale
      ensures Valid()
      ensures !old(HasNext()) ==> currentIndex == old(currentIndex) && requests == old(requests)
                                  && detail == old(detail) && guess == old(guess)
      ensures old(HasNext()) ==> currentIndex == old(currentIndex) + 1 && currentIndex < |questionIds|
      ensures old(HasNext()) && signedIn ==> requests == old(requests) + [IdAt(questionIds, currentIndex)]
    {
      if !HasNext() {
        return;
      }
      currentIndex := currentIndex + 1;
      LoadDetail(IdAt(questionIds, currentIndex), signedIn, outcome);
    }

    /** The mount effect of the practice page. */
    method Mount(initialQuestionId: Option<int>, initialIds: Option<seq<int>>, signedIn: bool,
                 outcome: Result<Detail, string>)
      requires Valid()
      modifies this`questionIds, this`currentIndex, this`navigations, this`requests, this`loading,
               this`error, this`detail, this`guess, this`result, this`showResult, this`imageScale
      ensures Valid()
      ensures !isSolo ==> questionIds == old(questionIds) && requests == old(requests)
                          && navigations == old(navigations)
      ensures isSolo && (initialQuestionId.None? || initialQuestionId.value == 0) ==>
                navigations == old(navigations) + ["/solo"] && requests == old(requests)
      ensures isSolo && initialQuestionId.Some? && initialQuestionId.value != 0
              && (initialIds.None? || initialIds.value == []) ==>
                questionIds == [initialQuestionId.value] && currentIndex == 0
      ensures isSolo && initialQuestionId.Some? && initialQuestionId.value != 0
              && initialIds.Some? && initialIds.value != [] ==>
                questionIds == old(questionIds) && currentIndex == old(currentIndex)
      ensures isSolo && initialQuestionId.Some? && initialQuestionId.value != 0 && signedIn ==>
                requests == old(requests) + [initialQuestionId] && navigations == old(navigations)
      ensures isSolo && initialQuestionId.Some? && initialQuestionId.value != 0 && !signedIn ==>
                navigations == old(navigations) + ["/login"] && requests == old(requests)
    {
      if !isSolo {
        return;
      }
      // The id 0 is falsy in the page's test, like a missing id.
      if initialQuestionId.None? || initialQuestionId.value == 0 {
        navigations := navigations + ["/solo"];
        return;
      }
      if initialIds.None? || initialIds.value == [] {
        questionIds, currentIndex := [initialQuestionId.value], 0;
      }
      LoadDetail(initialQuestionId, signedIn, outcome);
    }
  }
}
