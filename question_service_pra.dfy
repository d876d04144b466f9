/** The question service of the second backend: questions carry a creator, a play count
  * and a correct rate kept as a running average of the answers given.
  *
  * The distance from a guess to the correct point (the haversine formula) is an input,
  * and the Java `double`s are modelled as reals. */
module QuestionServicePra {
  import opened Common
  import Scoring

  const MSG_NOT_FOUND := "问题不存在"
  const MSG_NOT_ALLOWED := "没有权限修改此问题"
  const ADMIN := "ADMIN"
  /** Zhuhai campus, the default campus id. */
  const DEFAULT_CAMPUS := 1
  /** A guess within 50 metres of the correct point is correct. */
  const CORRECT_DISTANCE: real := 50.0

  /** `calculateDistance(lat1, lon1, lat2, lon2)`, in metres. */
  type Distance = (real, real, real, real) -> Scoring.Meters

  /** The exceptions the service lets escape. */
  datatype Failure = EntityNotFound(message: string) | Security(message: string) | NullPointer

  /** The user entity, as far as the service reads it. */
  datatype Account = Account(id: int, username: string, role: Option<string>)

  datatype QuestionDto = QuestionDto(
    title: Option<string>, description: Option<string>, mapImageUrl: Option<string>,
    correctLocation: Option<string>, latitude: Option<real>, longitude: Option<real>,
    buildingName: Option<string>, hint: Option<string>, difficultyLevel: Option<string>,
    campusId: Option<int>, isApproved: Option<bool>)

  datatype Question = Question(
    id: int, title: Option<string>, description: Option<string>, mapImageUrl: Option<string>,
    correctLocation: Option<string>, latitude: Option<real>, longitude: Option<real>,
    buildingName: Option<string>, hintLevel: Option<int>, hint: Option<string>,
    difficultyLevel: Option<string>, creator: Option<Account>, campusId: Option<int>,
    isApproved: bool, playCount: Int32, correctRate: real,
    createdAt: Option<int>, updatedAt: Option<int>)

  /** The response leaves out the correct location and its coordinates. */
  datatype QuestionResponse = QuestionResponse(
    id: int, title: Option<string>, description: Option<string>, mapImageUrl: Option<string>,
    buildingName: Option<string>, hintLevel: Option<int>, hint: Option<string>,
    difficultyLevel: Option<string>, creatorName: string, playCount: Int32, correctRate: real,
    createdAt: Option<int>)

  /** The map `answerQuestion` returns. */
  datatype AnswerResult = AnswerResult(isCorrect: bool, distance: real, correctLocation: Option<string>,
                                       buildingName: Option<string>, hint: Option<string>)

  datatype Db = Db(rows: seq<Question>, nextId: int)

  datatype Step<T> = Step(db: Db, result: Result<T, Failure>)

  // ---------------------------------------------------------------------
  // The table

  /** `findById`: the row with the id. */
  function Find(rows: seq<Question>, id: int): (r: Option<Question>)
    ensures r.Some? ==> r.value in rows && r.value.id == id
    ensures r.None? <==> forall q :: q in rows ==> q.id != id
  {
    if rows == [] then None
    else if rows[0].id == id then Some(rows[0])
    else Find(rows[1..], id)
  }

  /** `save` of an existing entity: its rows take the new value. */
  function Replace(rows: seq<Question>, q: Question): (r: seq<Question>)
    ensures |r| == |rows|
    ensures forall i :: 0 <= i < |rows| ==> r[i] == if rows[i].id == q.id then q else rows[i]
  {
    if rows == [] then [] else [if rows[0].id == q.id then q else rows[0]] + Replace(rows[1..], q)
  }

  /** After saving an entity its id finds it. */
  lemma {:induction false} FindReplaced(rows: seq<Question>, q: Question)
    requires Find(rows, q.id).Some?
    ensures Find(Replace(rows, q), q.id) == Some(q)
  {
    if rows[0].id != q.id {
      FindReplaced(rows[1..], q);
      assert Replace(rows, q)[1..] == Replace(rows[1..], q);
    }
  }

  // ---------------------------------------------------------------------
  // Entity and response mapping

  /** `convertDtoToEntity(dto, entity)`: every editable field is overwritten, even with
    * null, except isApproved, which changes only when the request gives one. */
  function ApplyDto(dto: QuestionDto, q: Question): (r: Question)
    ensures r.title == dto.title && r.description == dto.description && r.mapImageUrl == dto.mapImageUrl
    ensures r.correctLocation == dto.correctLocation && r.latitude == dto.latitude && r.longitude == dto.longitude
    ensures r.buildingName == dto.buildingName && r.hint == dto.hint && r.difficultyLevel == dto.difficultyLevel
    ensures r.campusId == dto.campusId
    ensures dto.isApproved.Some? ==> r.isApproved == dto.isApproved.value
    ensures dto.isApproved.None? ==> r.isApproved == q.isApproved
    ensures r.id == q.id && r.hintLevel == q.hintLevel && r.creator == q.creator && r.playCount == q.playCount
            && r.correctRate == q.correctRate && r.createdAt == q.createdAt && r.updatedAt == q.updatedAt
  {
    var q1 := q.(title := dto.title, description := dto.description, mapImageUrl := dto.mapImageUrl,
                 correctLocation := dto.correctLocation, latitude := dto.latitude, longitude := dto.longitude,
                 buildingName := dto.buildingName, hint := dto.hint, difficultyLevel := dto.difficultyLevel,
                 campusId := dto.campusId);
    if dto.isApproved.Some? then q1.(isApproved := dto.isApproved.value) else q1
  }

  /** Applying the same request twice is applying it once; the result does not depend on
    * the editable fields the entity had before. */
  lemma ApplyDtoIdempotent(dto: QuestionDto, q: Question, p: Question)
    requires p.id == q.id && p.hintLevel == q.hintLevel && p.creator == q.creator && p.playCount == q.playCount
             && p.correctRate == q.correctRate && p.createdAt == q.createdAt && p.updatedAt == q.updatedAt
             && (dto.isApproved.None? ==> p.isApproved == q.isApproved)
    ensures ApplyDto(dto, ApplyDto(dto, q)) == ApplyDto(dto, q)
    ensures ApplyDto(dto, p) == ApplyDto(dto, q)
  {
  }

  /** `convertToResponseDTO`: reading the creator's name throws on a missing creator. */
  function ToResponse(q: Question): (r: Result<QuestionResponse, Failure>)
    ensures r.Err? <==> q.creator.None?
    ensures r.Err? ==> r.error == NullPointer
    ensures r.Ok? ==> && r.value.id == q.id && r.value.title == q.title && r.value.creatorName == q.creator.value.username
                      && r.value.playCount == q.playCount && r.value.correctRate == q.correctRate
                      && r.value.hintLevel == q.hintLevel && r.value.createdAt == q.createdAt
  {
    if q.creator.None? then Err(NullPointer)
    else Ok(QuestionResponse(q.id, q.title, q.description, q.mapImageUrl, q.buildingName, q.hintLevel, q.hint,
                             q.difficultyLevel, q.creator.value.username, q.playCount, q.correctRate, q.createdAt))
  }

  /** The response never reveals the answer: questions that differ only in the correct
    * location and its coordinates give the same response. */
  lemma ResponseHidesAnswer(q: Question, location: Option<string>, lat: Option<real>, lon: Option<real>)
    ensures ToResponse(q) == ToResponse(q.(correctLocation := location, latitude := lat, longitude := lon))
  {
  }

  // ---------------------------------------------------------------------
  // The operations, as functions of the table

  /** A new entity: hint level 1, not approved, never played, rate 0. */
  function Blank(): Question {
    Question(0, None, None, None, None, None, None, None, Some(1), None, None, None, None, false, 0, 0.0, None, None)
  }

  /** `createQuestion(dto, creator)` at instant `now`: the campus defaults to 1. */
  function CreateSpec(db: Db, dto: QuestionDto, creator: Account, now: int): Step<QuestionResponse> {
    var q := ApplyDto(dto, Blank()).(creator := Some(creator),
                                    campusId := Some(if dto.campusId.Some? then dto.campusId.value else DEFAULT_CAMPUS));
    var saved := q.(id := db.nextId, createdAt := Some(now), updatedAt := Some(now));
    Step(Db(db.rows + [saved], db.nextId + 1), ToResponse(saved))
  }

  /** `updateQuestion(id, dto, user)` at instant `now`. */
  function UpdateSpec(db: Db, id: int, dto: QuestionDto, user: Account, now: int): Step<QuestionResponse> {
    match Find(db.rows, id)
    case None => Step(db, Err(EntityNotFound(MSG_NOT_FOUND)))
    case Some(q) =>
      if q.creator.None? then Step(db, Err(NullPointer))
      else if q.creator.value.id != user.id && user.role != Some(ADMIN) then Step(db, Err(Security(MSG_NOT_ALLOWED)))
      else
        var updated := ApplyDto(dto, q).(updatedAt := Some(now));
        Step(Db(Replace(db.rows, updated), db.nextId), ToResponse(updated))
  }

  /** `getQuestionById(id)` at instant `now`: the play count goes up by one (in Java `int`
    * arithmetic) and is saved before the response is built, so the count stays raised
    * even when building the response throws. */
  function GetByIdSpec(db: Db, id: int, now: int): Step<QuestionResponse> {
    match Find(db.rows, id)
    case None => Step(db, Err(EntityNotFound(MSG_NOT_FOUND)))
    case Some(q) =>
      var played := q.(playCount := AddInt32(q.playCount, 1), updatedAt := Some(now));
      Step(Db(Replace(db.rows, played), db.nextId), ToResponse(played))
  }

  /** The running average after one more answer: (rate * plays + hit) / (plays + 1). */
  function Average(rate: real, plays: real, hit: real): (r: real)
    requires plays >= 0.0
    ensures r * (plays + 1.0) == rate * plays + hit
  {
    (rate * plays + hit) / (plays + 1.0)
  }

  /** An average of rates and hits between 0 and 1 stays between 0 and 1. */
  lemma AverageInRange(rate: real, plays: real, hit: real)
    requires plays >= 0.0 && 0.0 <= rate <= 1.0 && 0.0 <= hit <= 1.0
    ensures 0.0 <= Average(rate, plays, hit) <= 1.0
  {
    assert 0.0 <= rate * plays <= plays;
    assert (rate * plays + hit) / (plays + 1.0) <= 1.0;
  }

  /** `updateCorrectRate(question, isCorrect)`: the rate becomes the running average
    * and the play count goes up by one. `totalPlays + 1` is Java `int` arithmetic, so
    * the count and the divisor wrap past the largest `int` to the most negative one. A
    * count of -1 makes the divisor 0, where Java's double division gives NaN or an
    * infinity; reals have neither, so that one count is excluded. */
  function UpdateCorrectRate(q: Question, isCorrect: bool): (r: Question)
    requires q.playCount != -1
    ensures r.playCount == AddInt32(q.playCount, 1)
    ensures r.correctRate * (r.playCount as real)
            == q.correctRate * (q.playCount as real) + (if isCorrect then 1.0 else 0.0)
    ensures 0 <= q.playCount < INT32_MAX ==>
              r.correctRate == Average(q.correctRate, q.playCount as real, if isCorrect then 1.0 else 0.0)
    ensures r == q.(correctRate := r.correctRate, playCount := r.playCount)
  {
    var hit := if isCorrect then 1.0 else 0.0;
    var plays := AddInt32(q.playCount, 1);
    if 0 <= q.playCount < INT32_MAX then
      assert plays as real == q.playCount as real + 1.0;
      q.(correctRate := Average(q.correctRate, q.playCount as real, hit), playCount := plays)
    else
      q.(correctRate := (q.correctRate * (q.playCount as real) + hit) / (plays as real), playCount := plays)
  }

  /** A rate between 0 and 1 stays between 0 and 1 while the count has not reached the
    * largest `int`. */
  lemma RateStaysInRange(q: Question, isCorrect: bool)
    requires 0 <= q.playCount < INT32_MAX && 0.0 <= q.correctRate <= 1.0
    ensures 0.0 <= UpdateCorrectRate(q, isCorrect).correctRate <= 1.0
  {
    AverageInRange(q.correctRate, q.playCount as real, if isCorrect then 1.0 else 0.0);
  }

  /** At the largest `int` the divisor wraps to the most negative one: a question played
    * that often with rate one half comes out of a wrong answer with a negative rate,
    * and its count is negative. */
  lemma RateLeavesRangeAtIntMax(q: Question)
    requires q.playCount == INT32_MAX && q.correctRate == 0.5
    ensures UpdateCorrectRate(q, false).playCount == INT32_MIN
    ensures UpdateCorrectRate(q, false).correctRate < 0.0
  {
    var r := UpdateCorrectRate(q, false);
    assert r.correctRate * (INT32_MIN as real) == 0.5 * (INT32_MAX as real);
  }

  /** `answerQuestion(id, userLat, userLng, user)` at instant `now`: reading a missing correct coordinate
    * throws before anything is saved. */
  function AnswerSpec(db: Db, id: int, userLat: real, userLng: real, distance: Distance, now: int): Step<AnswerResult>
    requires forall q :: q in db.rows ==> q.playCount != -1
  {
    match Find(db.rows, id)
    case None => Step(db, Err(EntityNotFound(MSG_NOT_FOUND)))
    case Some(q) =>
      if q.latitude.None? || q.longitude.None? then Step(db, Err(NullPointer))
      else
        var d := distance(userLat, userLng, q.latitude.value, q.longitude.value);
        var isCorrect := d <= CORRECT_DISTANCE;
        var rated := UpdateCorrectRate(q, isCorrect).(updatedAt := Some(now));
        Step(Db(Replace(db.rows, rated), db.nextId),
             Ok(AnswerResult(isCorrect, d, if isCorrect then q.correctLocation else None, q.buildingName, q.hint)))
  }

  // ---------------------------------------------------------------------
  // Properties

  /** A created question is stored under a fresh id with the request's fields, the campus
    * or 1, isApproved as given or false, no plays and rate 0, and the creator's name in
    * the response; its id then finds it. */
  lemma CreateEffect(db: Db, dto: QuestionDto, creator: Account, now: int)
    requires forall q :: q in db.rows ==> q.id < db.nextId
    ensures var step := CreateSpec(db, dto, creator, now);
            var q := step.db.rows[|db.rows|];
            && step.db.rows == db.rows + [q] && step.db.nextId == db.nextId + 1
            && q.id == db.nextId && q.creator == Some(creator)
            && q.campusId == Some(if dto.campusId.Some? then dto.campusId.value else DEFAULT_CAMPUS)
            && q.isApproved == (dto.isApproved == Some(true))
            && q.title == dto.title && q.correctLocation == dto.correctLocation
            && q.latitude == dto.latitude && q.longitude == dto.longitude
            && q.playCount == 0 && q.correctRate == 0.0 && q.hintLevel == Some(1)
            && step.result.Ok? && step.result.value.creatorName == creator.username
            && Find(step.db.rows, db.nextId) == Some(q)
  {
    var step := CreateSpec(db, dto, creator, now);
    var q := step.db.rows[|db.rows|];
    FindAppended(db.rows, q);
  }

  /** An id no row has finds the row appended with it. */
  lemma {:induction false} FindAppended(rows: seq<Question>, q: Question)
    requires forall p :: p in rows ==> p.id != q.id
    ensures Find(rows + [q], q.id) == Some(q)
  {
    if rows != [] {
      assert (rows + [q])[1..] == rows[1..] + [q];
      FindAppended(rows[1..], q);
    }
  }

  /** An update is refused for a missing question, throws on one without a creator, and
    * is refused unless the caller is the creator or an ADMIN; nothing is stored then.
    * Otherwise the request is applied (the campus taken as given, without the
    * default) and saved over the row. */
  lemma UpdateCases(db: Db, id: int, dto: QuestionDto, user: Account, now: int)
    ensures var step := UpdateSpec(db, id, dto, user, now);
            && (Find(db.rows, id).None? ==> step == Step(db, Err(EntityNotFound(MSG_NOT_FOUND))))
            && (Find(db.rows, id).Some? && Find(db.rows, id).value.creator.Some? ==>
                  (step.result == Err(Security(MSG_NOT_ALLOWED)) <==>
                     Find(db.rows, id).value.creator.value.id != user.id && user.role != Some(ADMIN)))
            && (step.result.Err? ==> step.db == db)
            && (step.result.Ok? ==>
                  var updated := ApplyDto(dto, Find(db.rows, id).value).(updatedAt := Some(now));
                  && step.db == Db(Replace(db.rows, updated), db.nextId)
                  && updated.campusId == dto.campusId
                  && Find(step.db.rows, id) == Some(updated))
  {
    var step := UpdateSpec(db, id, dto, user, now);
    if step.result.Ok? {
      FindReplaced(db.rows, ApplyDto(dto, Find(db.rows, id).value).(updatedAt := Some(now)));
    }
  }

  /** Viewing a question raises its play count by exactly one (below the `int` limit) and
    * changes nothing else; a missing question changes nothing. */
  lemma GetByIdEffect(db: Db, id: int, now: int)
    ensures var step := GetByIdSpec(db, id, now);
            && (Find(db.rows, id).None? ==> step == Step(db, Err(EntityNotFound(MSG_NOT_FOUND))))
            && (Find(db.rows, id).Some? ==>
                  var q := Find(db.rows, id).value;
                  && Find(step.db.rows, id) == Some(q.(playCount := AddInt32(q.playCount, 1), updatedAt := Some(now)))
                  && (q.playCount < INT32_MAX ==> Find(step.db.rows, id).value.playCount == q.playCount + 1)
                  && (step.result.Ok? ==> step.result.value.playCount == Find(step.db.rows, id).value.playCount)
                  && |step.db.rows| == |db.rows|
                  && forall i :: 0 <= i < |db.rows| && db.rows[i].id != id ==> step.db.rows[i] == db.rows[i])
  {
    if Find(db.rows, id).Some? {
      var q := Find(db.rows, id).value;
      FindReplaced(db.rows, q.(playCount := AddInt32(q.playCount, 1), updatedAt := Some(now)));
    }
  }

  /** An answer is correct exactly when it lands within 50 metres; the correct location
    * is shown only then; the question's rate and count are updated as one more answer.
    * A missing question or coordinate changes nothing. */
  lemma AnswerCases(db: Db, id: int, userLat: real, userLng: real, distance: Distance, now: int)
    requires forall q :: q in db.rows ==> q.playCount != -1
    ensures var step := AnswerSpec(db, id, userLat, userLng, distance, now);
            && (Find(db.rows, id).None? ==> step == Step(db, Err(EntityNotFound(MSG_NOT_FOUND))))
            && (step.result.Err? ==> step.db == db)
            && (step.result.Ok? ==>
                  var q := Find(db.rows, id).value;
                  var a := step.result.value;
                  && q.latitude.Some? && q.longitude.Some?
                  && a.distance == distance(userLat, userLng, q.latitude.value, q.longitude.value)
                  && (a.isCorrect <==> a.distance <= CORRECT_DISTANCE)
                  && a.correctLocation == (if a.isCorrect then q.correctLocation else None)
                  && Find(step.db.rows, id) == Some(UpdateCorrectRate(q, a.isCorrect).(updatedAt := Some(now))))
  {
    var step := AnswerSpec(db, id, userLat, userLng, distance, now);
    if step.result.Ok? {
      var q := Find(db.rows, id).value;
      FindReplaced(db.rows, UpdateCorrectRate(q, step.result.value.isCorrect).(updatedAt := Some(now)));
    }
  }

  // ---------------------------------------------------------------------
  // The service over its table

  class QuestionStore {
    var rows: seq<Question>
    var nextId: int

    constructor (initial: Db)
      ensures State() == initial
    {
      rows := initial.rows;
      nextId := initial.nextId;
    }

    function State(): Db
      reads this
    {
      Db(rows, nextId)
    }

    /** `save` of an existing entity. */
    method Save(q: Question)
      modifies this
      ensures rows == Replace(old(rows), q) && nextId == old(nextId)
    {
      rows := Replace(rows, q);
    }

    method CreateQuestion(dto: QuestionDto, creator: Account, now: int) returns (r: Result<QuestionResponse, Failure>)
      modifies this
      ensures Step(State(), r) == CreateSpec(old(State()), dto, creator, now)
    {
      var q := ApplyDto(dto, Blank());
      q := q.(creator := Some(creator));
      q := q.(campusId := Some(if dto.campusId.Some? then dto.campusId.value else DEFAULT_CAMPUS));
      var saved := q.(id := nextId, createdAt := Some(now), updatedAt := Some(now));
      rows := rows + [saved];
      nextId := nextId + 1;
      r := ToResponse(saved);
    }

    method UpdateQuestion(id: int, dto: QuestionDto, user: Account, now: int) returns (r: Result<QuestionResponse, Failure>)
      modifies this
      ensures Step(State(), r) == UpdateSpec(old(State()), id, dto, user, now)
    {
      var found := Find(rows, id);
      if found.None? {
        return Err(EntityNotFound(MSG_NOT_FOUND));
      }
      var q := found.value;
      if q.creator.None? {
        return Err(NullPointer);
      }
      if q.creator.value.id != user.id && user.role != Some(ADMIN) {
        return Err(Security(MSG_NOT_ALLOWED));
      }
      q := ApplyDto(dto, q);
      q := q.(updatedAt := Some(now));
      Save(q);
      r := ToResponse(q);
    }

    method GetQuestionById(id: int, now: int) returns (r: Result<QuestionResponse, Failure>)
      modifies this
      ensures Step(State(), r) == GetByIdSpec(old(State()), id, now)
    {
      var found := Find(rows, id);
      if found.None? {
        return Err(EntityNotFound(MSG_NOT_FOUND));
      }
      var q := found.value;
      q := q.(playCount := AddInt32(q.playCount, 1));
      q := q.(updatedAt := Some(now));
      Save(q);
      r := ToResponse(q);
    }

    method AnswerQuestion(id: int, userLat: real, userLng: real, distance: Distance, now: int) returns (r: Result<AnswerResult, Failure>)
      requires forall q :: q in rows ==> q.playCount != -1
      modifies this
      ensures Step(State(), r) == AnswerSpec(old(State()), id, userLat, userLng, distance, now)
    {
      var found := Find(rows, id);
      if found.None? {
        return Err(EntityNotFound(MSG_NOT_FOUND));
      }
      var q := found.value;
      if q.latitude.None? || q.longitude.None? {
        return Err(NullPointer);
      }
      var d := distance(userLat, userLng, q.latitude.value, q.longitude.value);
      var isCorrect := d <= CORRECT_DISTANCE;
      Save(UpdateCorrectRate(q, isCorrect).(updatedAt := Some(now)));
      r := Ok(AnswerResult(isCorrect, d, if isCorrect then q.correctLocation else None, q.buildingName, q.hint));
    }
  }
}
