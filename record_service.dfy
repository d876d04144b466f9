/** Game records: a finished round is submitted with the player's guess for each
  * question, scored against the question's correct coordinate, stored with the
  * player's points before and after, and credited to the player's account. Records
  * are read back as a list and one by one.
  *
  * The distance between two coordinates (the haversine formula) is an input. */
module RecordService {
  import opened Common
  import Scoring
  import UserService
  import QuestionServiceDemo

  type Question = QuestionServiceDemo.Question

  const MSG_BAD_REQUEST := "参数错误"
  const MSG_USER_MISSING := "用户不存在"
  const MSG_ENTRY_INCOMPLETE := "题目或坐标缺失"
  const MSG_QUESTION_UNKNOWN := "题目ID不存在: "
  const MSG_RECORD_MISSING := "记录不存在"
  const MSG_FORBIDDEN := "无权限访问该记录"

  /** The backend's scoring constants: 50 points at most, reaching 0 at 10 km. */
  const MAX_SCORE: nat := 50
  const RADIUS: real := 10000.0

  /** `haversine(lat1, lon1, lat2, lon2)`, in metres. */
  type Distance = (real, real, real, real) -> Scoring.Meters

  datatype Coord = Coord(lon: real, lat: real)

  /** One answered question of the request: both parts are nullable. */
  datatype Entry = Entry(questionId: Option<int>, userCoord: Option<Coord>)

  datatype RecordRequest = RecordRequest(userId: Option<int>, questionRecords: Option<seq<Entry>>)

  /** A record item: the question answered, the guess and its score. */
  datatype Item = Item(question: Question, userLon: real, userLat: real, singleScore: Int32)

  /** A stored record; `items` is its one-to-many relation (null when never loaded). */
  datatype Record = Record(id: int, userId: int, totalQuestionNum: Int32, earnPoints: Int32,
                           pointBefore: Int32, pointAfter: Int32, createdAt: int, items: Option<seq<Item>>)

  /** The users table, the records table and the next record id. */
  datatype Store = Store(users: UserService.Db, records: seq<Record>, nextId: int)

  datatype Step<T> = Step(store: Store, result: Result<T, BusinessException>)

  datatype CreateResponse = CreateResponse(recordId: int, earnPoints: Int32)

  /** Record ids are unique and below the next id. */
  predicate RecordsValid(st: Store) {
    && (forall i, j :: 0 <= i < j < |st.records| ==> st.records[i].id != st.records[j].id)
    && (forall i :: 0 <= i < |st.records| ==> st.records[i].id < st.nextId)
  }

  // ---------------------------------------------------------------------
  // Scoring

  /** `calculateScore`: 0 without a correct coordinate, else the decayed score of the
    * distance from the correct point to the guess. */
  function CalculateScore(correctLon: Option<real>, correctLat: Option<real>, userLon: real, userLat: real,
                          distance: Distance): (score: Int32)
    ensures 0 <= score <= MAX_SCORE
    ensures correctLon.None? || correctLat.None? ==> score == 0
    ensures correctLon.Some? && correctLat.Some? ==>
              score == Scoring.DecayScore(MAX_SCORE, RADIUS, distance(correctLat.value, correctLon.value, userLat, userLon))
  {
    if correctLon.None? || correctLat.None? then 0
    else Scoring.DecayScore(MAX_SCORE, RADIUS, distance(correctLat.value, correctLon.value, userLat, userLon))
  }

  /** A guess on the spot scores 50 and one 10 km or more away scores 0. */
  lemma CalculateScoreEnds(lon: real, lat: real, userLon: real, userLat: real, distance: Distance)
    ensures distance(lat, lon, userLat, userLon) == 0.0 ==> CalculateScore(Some(lon), Some(lat), userLon, userLat, distance) == 50
    ensures distance(lat, lon, userLat, userLon) >= RADIUS ==> CalculateScore(Some(lon), Some(lat), userLon, userLat, distance) == 0
  {
    if distance(lat, lon, userLat, userLon) == 0.0 {
      Scoring.DecayAtZero(MAX_SCORE, RADIUS);
    }
    if distance(lat, lon, userLat, userLon) >= RADIUS {
      Scoring.DecayBeyondRadius(MAX_SCORE, RADIUS, distance(lat, lon, userLat, userLon));
    }
  }

  /** The item for one entry: 400 when the id or the coordinate is null or the question
    * is unknown. */
  function ItemFor(questions: seq<Question>, e: Entry, distance: Distance): (r: Result<Item, BusinessException>)
    ensures e.questionId.None? || e.userCoord.None? ==> r == Err(BusinessException(400, MSG_ENTRY_INCOMPLETE))
    ensures r.Ok? ==> && e.questionId.Some? && e.userCoord.Some?
                      && QuestionServiceDemo.Find(questions, e.questionId.value) == Some(r.value.question)
                      && r.value.userLon == e.userCoord.value.lon && r.value.userLat == e.userCoord.value.lat
                      && r.value.singleScore == CalculateScore(r.value.question.correctLon, r.value.question.correctLat,
                                                               r.value.userLon, r.value.userLat, distance)
    ensures r.Err? ==> r.error.code == 400
  {
    if e.questionId.None? || e.userCoord.None? then Err(BusinessException(400, MSG_ENTRY_INCOMPLETE))
    else
      match QuestionServiceDemo.Find(questions, e.questionId.value)
      case None => Err(BusinessException(400, MSG_QUESTION_UNKNOWN + IntToString(e.questionId.value)))
      case Some(q) =>
        var c := e.userCoord.value;
        Ok(Item(q, c.lon, c.lat, CalculateScore(q.correctLon, q.correctLat, c.lon, c.lat, distance)))
  }

  /** The items of the entries in order, or the failure of the first bad entry. */
  function ScoreEntries(questions: seq<Question>, entries: seq<Entry>, distance: Distance)
    : (r: Result<seq<Item>, BusinessException>)
    ensures r.Ok? ==> |r.value| == |entries|
                      && forall i :: 0 <= i < |entries| ==> ItemFor(questions, entries[i], distance) == Ok(r.value[i])
    ensures r.Ok? <==> forall i :: 0 <= i < |entries| ==> ItemFor(questions, entries[i], distance).Ok?
  {
    if entries == [] then Ok([])
    else
      var front := entries[..|entries| - 1];
      var last := entries[|entries| - 1];
      assert forall i :: 0 <= i < |front| ==> front[i] == entries[i];
      match ScoreEntries(questions, front, distance)
      case Err(e) => Err(e)
      case Ok(items) =>
        match ItemFor(questions, last, distance)
        case Err(e) => Err(e)
        case Ok(item) => Ok(items + [item])
  }

  /** A failed scoring reports the failure of the first bad entry. */
  lemma {:induction false} ScoreEntriesFirstFailure(questions: seq<Question>, entries: seq<Entry>, distance: Distance)
    requires ScoreEntries(questions, entries, distance).Err?
    ensures exists i :: 0 <= i < |entries|
                        && ItemFor(questions, entries[i], distance) == Err(ScoreEntries(questions, entries, distance).error)
                        && forall j :: 0 <= j < i ==> ItemFor(questions, entries[j], distance).Ok?
  {
    var front := entries[..|entries| - 1];
    assert forall i :: 0 <= i < |front| ==> front[i] == entries[i];
    if ScoreEntries(questions, front, distance).Err? {
      ScoreEntriesFirstFailure(questions, front, distance);
      var i :| 0 <= i < |front| && ItemFor(questions, front[i], distance) == Err(ScoreEntries(questions, front, distance).error)
               && forall j :: 0 <= j < i ==> ItemFor(questions, front[j], distance).Ok?;
      assert entries[i] == front[i];
    } else {
      assert ItemFor(questions, entries[|entries| - 1], distance).Err?;
    }
  }

  /** Once a prefix of the entries fails, the whole list fails the same way. */
  lemma {:induction false} ScoreEntriesPrefixFails(questions: seq<Question>, entries: seq<Entry>, k: nat, distance: Distance)
    requires k <= |entries| && ScoreEntries(questions, entries[..k], distance).Err?
    ensures ScoreEntries(questions, entries, distance) == ScoreEntries(questions, entries[..k], distance)
    decreases |entries| - k
  {
    if k == |entries| {
      assert entries[..k] == entries;
    } else {
      var front := entries[..|entries| - 1];
      assert front[..k] == entries[..k];
      ScoreEntriesPrefixFails(questions, front, k, distance);
    }
  }

  /** The points earned: the scores summed in Java `int` arithmetic. */
  function EarnOf(items: seq<Item>): Int32 {
    if items == [] then 0 else AddInt32(EarnOf(items[..|items| - 1]), items[|items| - 1].singleScore)
  }

  /** The exact sum of the scores. */
  function SumScores(items: seq<Item>): int {
    if items == [] then 0 else SumScores(items[..|items| - 1]) + items[|items| - 1].singleScore
  }

  /** With scores between 0 and 50 and fewer than 42 949 673 items, the `int` sum does not
    * overflow: the points earned are the exact sum, between 0 and 50 per item. */
  lemma {:induction false} EarnExact(items: seq<Item>)
    requires forall i :: 0 <= i < |items| ==> 0 <= items[i].singleScore <= MAX_SCORE
    requires |items| * MAX_SCORE <= INT32_MAX
    ensures EarnOf(items) == SumScores(items)
    ensures 0 <= SumScores(items) <= |items| * MAX_SCORE
  {
    if items != [] {
      var front := items[..|items| - 1];
      assert forall i :: 0 <= i < |front| ==> front[i] == items[i];
      EarnExact(front);
    }
  }

  // ---------------------------------------------------------------------
  // submitRecord

  /** `submitRecord(request)` at instant `now`: the record is saved, then the points are
    * credited through changePoints; a failure of either rolls the whole submission back. */
  function SubmitSpec(st: Store, questions: seq<Question>, request: Option<RecordRequest>, distance: Distance, now: int)
    : Step<CreateResponse>
    requires request.Some? && request.value.questionRecords.Some? ==> |request.value.questionRecords.value| <= INT32_MAX
  {
    if request.None? || request.value.userId.None? || request.value.questionRecords.None?
       || |request.value.questionRecords.value| == 0 then
      Step(st, Err(BusinessException(400, MSG_BAD_REQUEST)))
    else
      match UserService.ById(st.users.rows, request.value.userId.value)
      case None => Step(st, Err(BusinessException(400, MSG_USER_MISSING)))
      case Some(user) =>
        var entries := request.value.questionRecords.value;
        match ScoreEntries(questions, entries, distance)
        case Err(e) => Step(st, Err(e))
        case Ok(items) => Credit(st, user, |entries|, items, now)
  }

  /** The end of a submission that passed the checks: the record is built and saved and
    * the points earned are credited to the user, or everything is rolled back. */
  function Credit(st: Store, user: UserService.User, count: Int32, items: seq<Item>, now: int): Step<CreateResponse> {
    var earn := EarnOf(items);
    var before := UserService.PointsOf(user);
    var record := Record(st.nextId, user.id, count, earn, before, AddInt32(before, earn), now, Some(items));
    var credited := UserService.ChangePointsSpec(st.users, user.username, Some(earn));
    if credited.result.Err? then Step(st, Err(credited.result.error))
    else Step(Store(credited.db, st.records + [record], st.nextId + 1), Ok(CreateResponse(record.id, earn)))
  }

  /** The refusals: a null request, user id or entry list, or an empty list, is 400; an
    * unknown user is 400; a bad entry gives the first bad entry's 400. Nothing is
    * stored on any of them. */
  lemma SubmitRefusals(st: Store, questions: seq<Question>, request: Option<RecordRequest>, distance: Distance, now: int)
    requires request.Some? && request.value.questionRecords.Some? ==> |request.value.questionRecords.value| <= INT32_MAX
    ensures request.None? || request.value.userId.None? || request.value.questionRecords.None?
            || request.value.questionRecords.value == [] ==>
              SubmitSpec(st, questions, request, distance, now) == Step(st, Err(BusinessException(400, MSG_BAD_REQUEST)))
    ensures request.Some? && request.value.userId.Some? && request.value.questionRecords.Some?
            && request.value.questionRecords.value != [] && UserService.ById(st.users.rows, request.value.userId.value).None? ==>
              SubmitSpec(st, questions, request, distance, now) == Step(st, Err(BusinessException(400, MSG_USER_MISSING)))
    ensures request.Some? && request.value.userId.Some? && request.value.questionRecords.Some?
            && request.value.questionRecords.value != [] && UserService.ById(st.users.rows, request.value.userId.value).Some?
            && ScoreEntries(questions, request.value.questionRecords.value, distance).Err? ==>
              SubmitSpec(st, questions, request, distance, now)
              == Step(st, Err(ScoreEntries(questions, request.value.questionRecords.value, distance).error))
    ensures SubmitSpec(st, questions, request, distance, now).result.Err? ==>
              SubmitSpec(st, questions, request, distance, now).store == st
  {
  }

  /** A submission that passes the checks stores one record, for the user, with one item
    * per entry in order (each scored against its question), the entry count, the
    * points earned, the points before and before + earned; the user's points become
    * that after-value and no other user changes. In a valid users table, crediting
    * the points cannot fail. */
  lemma SubmitEffect(st: Store, questions: seq<Question>, userId: int, entries: seq<Entry>, distance: Distance, now: int)
    requires UserService.Valid(st.users) && |entries| <= INT32_MAX && entries != []
    requires UserService.ById(st.users.rows, userId).Some? && ScoreEntries(questions, entries, distance).Ok?
    ensures var user := UserService.ById(st.users.rows, userId).value;
            var items := ScoreEntries(questions, entries, distance).value;
            var step := SubmitSpec(st, questions, Some(RecordRequest(Some(userId), Some(entries))), distance, now);
            var record := Record(st.nextId, userId, |entries|, EarnOf(items), UserService.PointsOf(user),
                                 AddInt32(UserService.PointsOf(user), EarnOf(items)), now, Some(items));
            && step.result == Ok(CreateResponse(st.nextId, EarnOf(items)))
            && step.store.records == st.records + [record] && step.store.nextId == st.nextId + 1
            && |items| == |entries|
            && (forall i :: 0 <= i < |entries| ==> ItemFor(questions, entries[i], distance) == Ok(items[i]))
            && (|entries| * MAX_SCORE <= INT32_MAX ==> EarnOf(items) == SumScores(items))
            && |step.store.users.rows| == |st.users.rows|
            && forall i :: 0 <= i < |st.users.rows| ==>
                 step.store.users.rows[i] == if st.users.rows[i].id == userId then user.(points := Some(record.pointAfter))
                                             else st.users.rows[i]
  {
    SubmitUnfolds(st, questions, userId, entries, distance, now);
    if |entries| * MAX_SCORE <= INT32_MAX {
      EarnExact(ScoreEntries(questions, entries, distance).value);
    }
  }

  /** The submission that passes the checks, written out: the user's row is saved with
    * the new points and the record appended. */
  lemma SubmitUnfolds(st: Store, questions: seq<Question>, userId: int, entries: seq<Entry>, distance: Distance, now: int)
    requires UserService.Valid(st.users) && |entries| <= INT32_MAX && entries != []
    requires UserService.ById(st.users.rows, userId).Some? && ScoreEntries(questions, entries, distance).Ok?
    ensures var user := UserService.ById(st.users.rows, userId).value;
            var items := ScoreEntries(questions, entries, distance).value;
            var after := AddInt32(UserService.PointsOf(user), EarnOf(items));
            SubmitSpec(st, questions, Some(RecordRequest(Some(userId), Some(entries))), distance, now)
            == Step(Store(UserService.Db(UserService.Replace(st.users.rows, user.(points := Some(after))), st.users.nextId),
                          st.records + [Record(st.nextId, userId, |entries|, EarnOf(items), UserService.PointsOf(user),
                                               after, now, Some(items))],
                          st.nextId + 1),
                    Ok(CreateResponse(st.nextId, EarnOf(items))))
  {
    var user := UserService.ById(st.users.rows, userId).value;
    var items := ScoreEntries(questions, entries, distance).value;
    CreditFound(st, user, |entries|, items, now);
  }

  /** Crediting a user of a valid table, written out. */
  lemma CreditFound(st: Store, user: UserService.User, count: Int32, items: seq<Item>, now: int)
    requires UserService.Valid(st.users) && user in st.users.rows
    ensures var after := AddInt32(UserService.PointsOf(user), EarnOf(items));
            Credit(st, user, count, items, now)
            == Step(Store(UserService.Db(UserService.Replace(st.users.rows, user.(points := Some(after))), st.users.nextId),
                          st.records + [Record(st.nextId, user.id, count, EarnOf(items), UserService.PointsOf(user),
                                               after, now, Some(items))],
                          st.nextId + 1),
                    Ok(CreateResponse(st.nextId, EarnOf(items))))
  {
    UserService.ChangePointsOfRow(st.users, user, EarnOf(items));
    CreditCredited(st, user, count, items, now);
  }

  /** `Credit` once the points change has gone through. */
  lemma CreditCredited(st: Store, user: UserService.User, count: Int32, items: seq<Item>, now: int)
    ensures var credited := UserService.ChangePointsSpec(st.users, user.username, Some(EarnOf(items)));
            credited.result.Ok? ==>
              Credit(st, user, count, items, now)
              == Step(Store(credited.db, st.records + [Record(st.nextId, user.id, count, EarnOf(items), UserService.PointsOf(user),
                                                              AddInt32(UserService.PointsOf(user), EarnOf(items)), now, Some(items))],
                            st.nextId + 1),
                      Ok(CreateResponse(st.nextId, EarnOf(items))))
  {
    var credited := UserService.ChangePointsSpec(st.users, user.username, Some(EarnOf(items)));
    if credited.result.Ok? {
      var r := Credit(st, user, count, items, now);
      assert r.store.users == credited.db;
      assert r.result == Ok(CreateResponse(st.nextId, EarnOf(items)));
    }
  }

  // ---------------------------------------------------------------------
  // Reading records back

  datatype ListItem = ListItem(id: int, earnPoints: Int32, createdAt: int)

  function Reversed<T>(xs: seq<T>): (r: seq<T>)
    ensures |r| == |xs| && forall i :: 0 <= i < |xs| ==> r[i] == xs[|xs| - 1 - i]
  {
    if xs == [] then [] else Reversed(xs[1..]) + [xs[0]]
  }

  /** `findAllByUserIdOrderByCreatedAtDesc`: the user's records, newest first (records
    * stored later come first among those created at the same instant). */
  function NewestFirst(records: seq<Record>, userId: int): (r: seq<Record>)
    ensures forall x :: x in r <==> x in records && x.userId == userId
  {
    var p := (x: Record) => x.userId == userId;
    var mine := Filter(p, records);
    assert forall x :: x in mine <==> x in records && p(x) by {
      forall x { FilterMembership(p, records, x); }
    }
    var r := Reversed(mine);
    assert forall x :: x in r <==> x in mine by {
      forall x | x in mine ensures x in r {
        var k :| 0 <= k < |mine| && mine[k] == x;
        assert r[|mine| - 1 - k] == x;
      }
    }
    r
  }

  /** Records stored in creation order. */
  predicate CreatedInOrder(records: seq<Record>) {
    forall i, j :: 0 <= i < j < |records| ==> records[i].createdAt <= records[j].createdAt
  }

  /** A submission at an instant no earlier than the last keeps the records in creation
    * order. */
  lemma SubmitKeepsOrder(st: Store, questions: seq<Question>, request: Option<RecordRequest>, distance: Distance, now: int)
    requires request.Some? && request.value.questionRecords.Some? ==> |request.value.questionRecords.value| <= INT32_MAX
    requires CreatedInOrder(st.records) && forall x :: x in st.records ==> x.createdAt <= now
    ensures CreatedInOrder(SubmitSpec(st, questions, request, distance, now).store.records)
  {
    var after := SubmitSpec(st, questions, request, distance, now).store.records;
    if after != st.records {
      forall i, j | 0 <= i < j < |after|
        ensures after[i].createdAt <= after[j].createdAt
      {
        assert after[i] == st.records[i];
        if j < |st.records| {
          assert after[j] == st.records[j];
        } else {
          assert after[i] in st.records;
        }
      }
    }
  }

  /** In a table kept in creation order, the user's records come newest first. */
  lemma NewestFirstOrdered(records: seq<Record>, userId: int)
    requires CreatedInOrder(records)
    ensures var r := NewestFirst(records, userId);
            forall i, j :: 0 <= i < j < |r| ==> r[i].createdAt >= r[j].createdAt
  {
    var p := (x: Record) => x.userId == userId;
    FilterOrdered(p, records);
  }

  /** A filtered table kept in creation order stays in creation order. */
  lemma {:induction false} FilterOrdered(p: Record -> bool, records: seq<Record>)
    requires CreatedInOrder(records)
    ensures CreatedInOrder(Filter(p, records))
  {
    if records != [] {
      FilterOrdered(p, records[1..]);
      var rest := Filter(p, records[1..]);
      forall x | x in rest ensures records[0].createdAt <= x.createdAt {
        FilterMembership(p, records[1..], x);
        var k :| 0 <= k < |records[1..]| && records[1..][k] == x;
        assert records[k + 1] == x;
      }
    }
  }

  function ListItemsOf(records: seq<Record>): (r: seq<ListItem>)
    ensures |r| == |records|
    ensures forall i :: 0 <= i < |records| ==>
              r[i] == ListItem(records[i].id, records[i].earnPoints, records[i].createdAt)
  {
    if records == [] then []
    else [ListItem(records[0].id, records[0].earnPoints, records[0].createdAt)] + ListItemsOf(records[1..])
  }

  /** `getUserRecords(userId)`: 404 for an unknown user; else one item per record the
    * query returns, in its order. */
  function UserRecordsSpec(st: Store, userId: int): Result<seq<ListItem>, BusinessException> {
    if UserService.ById(st.users.rows, userId).None? then Err(BusinessException(404, MSG_USER_MISSING))
    else Ok(ListItemsOf(NewestFirst(st.records, UserService.ById(st.users.rows, userId).value.id)))
  }

  /** The user's records, and only theirs, each once per stored record. */
  lemma UserRecordsExact(st: Store, userId: int)
    ensures UserService.ById(st.users.rows, userId).None? ==> UserRecordsSpec(st, userId) == Err(BusinessException(404, MSG_USER_MISSING))
    ensures UserService.ById(st.users.rows, userId).Some? ==>
              && UserRecordsSpec(st, userId).Ok?
              && |UserRecordsSpec(st, userId).value| == |NewestFirst(st.records, userId)|
              && forall x :: x in st.records && x.userId == userId ==>
                   ListItem(x.id, x.earnPoints, x.createdAt) in UserRecordsSpec(st, userId).value
  {
    if UserService.ById(st.users.rows, userId).Some? {
      var r := NewestFirst(st.records, userId);
      forall x | x in st.records && x.userId == userId
        ensures ListItem(x.id, x.earnPoints, x.createdAt) in ListItemsOf(r)
      {
        var k :| 0 <= k < |r| && r[k] == x;
        assert ListItemsOf(r)[k] == ListItem(x.id, x.earnPoints, x.createdAt);
      }
    }
  }

  datatype CoordPair = CoordPair(lon: Option<real>, lat: Option<real>)
  datatype QuestionBase = QuestionBase(questionId: int, campus: Option<string>, difficulty: Option<string>,
                                       imageUrl: Option<string>, correctCoord: CoordPair)
  datatype Answer = Answer(userCoord: Coord, score: Int32)
  datatype QuestionDetail = QuestionDetail(base: QuestionBase, answer: Answer)
  datatype GameBase = GameBase(recordId: int, userId: int, username: string, totalQuestionNum: Int32)
  datatype PointChange = PointChange(earnPoints: Int32, pointBefore: Int32, pointAfter: Int32)
  datatype Detail = Detail(game: GameBase, questions: seq<QuestionDetail>, pointChange: PointChange)

  function DetailOf(it: Item): QuestionDetail {
    var q := it.question;
    QuestionDetail(QuestionBase(q.id, q.campus, q.difficulty, q.imageKey, CoordPair(q.correctLon, q.correctLat)),
                   Answer(Coord(it.userLon, it.userLat), it.singleScore))
  }

  function DetailsOf(items: seq<Item>): (r: seq<QuestionDetail>)
    ensures |r| == |items| && forall i :: 0 <= i < |items| ==> r[i] == DetailOf(items[i])
  {
    if items == [] then [] else [DetailOf(items[0])] + DetailsOf(items[1..])
  }

  /** `recordRepository.findById`. */
  function FindRecord(records: seq<Record>, id: int): (r: Option<Record>)
    ensures r.Some? ==> r.value in records && r.value.id == id
    ensures r.None? <==> forall x :: x in records ==> x.id != id
  {
    if records == [] then None
    else if records[0].id == id then Some(records[0])
    else FindRecord(records[1..], id)
  }

  /** `getRecordDetail(userId, recordId)`. */
  function DetailSpec(st: Store, userId: int, recordId: int): Result<Detail, BusinessException> {
    match UserService.ById(st.users.rows, userId)
    case None => Err(BusinessException(404, MSG_USER_MISSING))
    case Some(user) =>
      match FindRecord(st.records, recordId)
      case None => Err(BusinessException(404, MSG_RECORD_MISSING))
      case Some(record) =>
        if record.userId != user.id then Err(BusinessException(403, MSG_FORBIDDEN))
        else
          Ok(Detail(GameBase(record.id, user.id, user.username, record.totalQuestionNum),
                    DetailsOf(if record.items.Some? then record.items.value else []),
                    PointChange(record.earnPoints, record.pointBefore, record.pointAfter)))
  }

  /** The detail: 404 for an unknown user or record, 403 for another user's record;
    * otherwise one entry per item in order with the guess and its score, and the
    * record's own point fields. */
  lemma DetailCases(st: Store, userId: int, recordId: int)
    ensures UserService.ById(st.users.rows, userId).None? ==> DetailSpec(st, userId, recordId) == Err(BusinessException(404, MSG_USER_MISSING))
    ensures UserService.ById(st.users.rows, userId).Some? && FindRecord(st.records, recordId).None? ==>
              DetailSpec(st, userId, recordId) == Err(BusinessException(404, MSG_RECORD_MISSING))
    ensures UserService.ById(st.users.rows, userId).Some? && FindRecord(st.records, recordId).Some?
            && FindRecord(st.records, recordId).value.userId != userId ==>
              DetailSpec(st, userId, recordId) == Err(BusinessException(403, MSG_FORBIDDEN))
    ensures DetailSpec(st, userId, recordId).Ok? ==>
              var record := FindRecord(st.records, recordId).value;
              var items := if record.items.Some? then record.items.value else [];
              var d := DetailSpec(st, userId, recordId).value;
              && record.userId == userId
              && d.game.recordId == recordId && d.game.userId == userId && d.game.totalQuestionNum == record.totalQuestionNum
              && d.pointChange == PointChange(record.earnPoints, record.pointBefore, record.pointAfter)
              && |d.questions| == |items|
              && forall i :: 0 <= i < |items| ==>
                   d.questions[i].answer == Answer(Coord(items[i].userLon, items[i].userLat), items[i].singleScore)
                   && d.questions[i].base.questionId == items[i].question.id
  {
  }

  /** A record just submitted reads back with the entry count, the points earned, before
    * and after, and one answer per entry with the entry's guess. */
  lemma SubmitThenDetail(st: Store, questions: seq<Question>, userId: int, entries: seq<Entry>, distance: Distance, now: int)
    requires UserService.Valid(st.users) && RecordsValid(st) && |entries| <= INT32_MAX && entries != []
    requires UserService.ById(st.users.rows, userId).Some? && ScoreEntries(questions, entries, distance).Ok?
    ensures var step := SubmitSpec(st, questions, Some(RecordRequest(Some(userId), Some(entries))), distance, now);
            var d := DetailSpec(step.store, userId, st.nextId);
            var user := UserService.ById(st.users.rows, userId).value;
            var items := ScoreEntries(questions, entries, distance).value;
            && d.Ok?
            && d.value.game.totalQuestionNum == |entries|
            && d.value.pointChange == PointChange(EarnOf(items), UserService.PointsOf(user),
                                                  AddInt32(UserService.PointsOf(user), EarnOf(items)))
            && |d.value.questions| == |entries|
            && forall i :: 0 <= i < |entries| ==>
                 d.value.questions[i].answer.userCoord == entries[i].userCoord.value
  {
    var user := UserService.ById(st.users.rows, userId).value;
    var items := ScoreEntries(questions, entries, distance).value;
    SubmitUnfolds(st, questions, userId, entries, distance, now);
    var step := SubmitSpec(st, questions, Some(RecordRequest(Some(userId), Some(entries))), distance, now);
    var record := step.store.records[|st.records|];
    assert FindRecord(step.store.records, st.nextId) == Some(record) by {
      FindNewRecord(st.records, record);
    }
    assert UserService.ById(step.store.users.rows, userId).Some? by {
      var k :| 0 <= k < |st.users.rows| && st.users.rows[k] == user;
      assert step.store.users.rows[k].id == userId;
    }
    DetailOfOwnRecord(step.store, userId, record);
    forall i | 0 <= i < |entries|
      ensures DetailsOf(items)[i].answer.userCoord == entries[i].userCoord.value
    {
      assert ItemFor(questions, entries[i], distance) == Ok(items[i]);
    }
  }

  /** The detail of a user's own record with its items loaded. */
  lemma DetailOfOwnRecord(st: Store, userId: int, record: Record)
    requires UserService.ById(st.users.rows, userId).Some? && FindRecord(st.records, record.id) == Some(record)
    requires record.userId == userId && record.items.Some?
    ensures var user := UserService.ById(st.users.rows, userId).value;
            DetailSpec(st, userId, record.id)
            == Ok(Detail(GameBase(record.id, userId, user.username, record.totalQuestionNum), DetailsOf(record.items.value),
                         PointChange(record.earnPoints, record.pointBefore, record.pointAfter)))
  {
  }

  /** A record whose id no stored record has is the one found. */
  lemma {:induction false} FindNewRecord(records: seq<Record>, x: Record)
    requires forall y :: y in records ==> y.id != x.id
    ensures FindRecord(records + [x], x.id) == Some(x)
  {
    if records != [] {
      assert (records + [x])[1..] == records[1..] + [x];
      FindNewRecord(records[1..], x);
    }
  }

  // ---------------------------------------------------------------------
  // The service over its tables

  class RecordStore {
    var records: seq<Record>
    var nextId: int
    const users: UserService.UserStore

    constructor (users: UserService.UserStore, records: seq<Record>, nextId: int)
      ensures this.users == users && this.records == records && this.nextId == nextId
    {
      this.users := users;
      this.records := records;
      this.nextId := nextId;
    }

    function State(): Store
      reads this, users
    {
      Store(users.State(), records, nextId)
    }

    /** `submitRecord`: each entry is checked, looked up and scored in turn, the record
      * is saved and the points credited; a failed credit rolls the record back. */
    method SubmitRecord(questions: seq<Question>, request: Option<RecordRequest>, distance: Distance, now: int)
      returns (r: Result<CreateResponse, BusinessException>)
      requires request.Some? && request.value.questionRecords.Some? ==> |request.value.questionRecords.value| <= INT32_MAX
      modifies this, users
      ensures Step(State(), r) == SubmitSpec(old(State()), questions, request, distance, now)
    {
      if request.None? || request.value.userId.None? || request.value.questionRecords.None?
         || |request.value.questionRecords.value| == 0 {
        return Err(BusinessException(400, MSG_BAD_REQUEST));
      }
      var found := UserService.ById(users.rows, request.value.userId.value);
      if found.None? {
        return Err(BusinessException(400, MSG_USER_MISSING));
      }
      var scored, earn := ScoreAll(questions, request.value.questionRecords.value, distance);
      if scored.Err? {
        return Err(scored.error);
      }
      r := SaveAndCredit(found.value, |request.value.questionRecords.value|, scored.value, earn, now);
    }

    /** The scoring loop of `submitRecord`: the items in order and the points earned, or
      * the failure of the first bad entry. */
    method ScoreAll(questions: seq<Question>, entries: seq<Entry>, distance: Distance)
      returns (r: Result<seq<Item>, BusinessException>, earn: Int32)
      ensures r == ScoreEntries(questions, entries, distance)
      ensures r.Ok? ==> earn == EarnOf(r.value)
    {
      var items: seq<Item> := [];
      earn := 0;
      var i := 0;
      while i < |entries|
        invariant 0 <= i <= |entries|
        invariant ScoreEntries(questions, entries[..i], distance) == Ok(items)
        invariant earn == EarnOf(items)
      {
        var item := ItemFor(questions, entries[i], distance);
        assert entries[..i + 1][..i] == entries[..i];
        if item.Err? {
          ScoreEntriesPrefixFails(questions, entries, i + 1, distance);
          return Err(item.error), earn;
        }
        assert (items + [item.value])[..|items|] == items;
        items := items + [item.value];
        earn := AddInt32(earn, item.value.singleScore);
        i := i + 1;
      }
      assert entries[..i] == entries;
      r := Ok(items);
    }

    /** The end of `submitRecord`: the record is saved, then the points credited; a failed
      * credit removes the record again. */
    method SaveAndCredit(user: UserService.User, count: Int32, items: seq<Item>, earn: Int32, now: int)
      returns (r: Result<CreateResponse, BusinessException>)
      requires earn == EarnOf(items)
      modifies this, users
      ensures Step(State(), r) == Credit(old(State()), user, count, items, now)
    {
      var before := UserService.PointsOf(user);
      var record := Record(nextId, user.id, count, earn, before, AddInt32(before, earn), now, Some(items));
      var saved := records;
      records := records + [record];
      nextId := nextId + 1;
      var credited := users.ChangePoints(user.username, Some(earn));
      if credited.Err? {
        records := saved;
        nextId := nextId - 1;
        return Err(credited.error);
      }
      return Ok(CreateResponse(record.id, earn));
    }

    /** `getUserRecords`: one list item per record of the user, newest first. */
    method GetUserRecords(userId: int) returns (r: Result<seq<ListItem>, BusinessException>)
      ensures r == UserRecordsSpec(State(), userId)
    {
      var found := UserService.ById(users.rows, userId);
      if found.None? {
        return Err(BusinessException(404, MSG_USER_MISSING));
      }
      var mine := NewestFirst(records, found.value.id);
      var list: seq<ListItem> := [];
      var i := 0;
      while i < |mine|
        invariant 0 <= i <= |mine| && |list| == i
        invariant forall k :: 0 <= k < i ==> list[k] == ListItem(mine[k].id, mine[k].earnPoints, mine[k].createdAt)
      {
        list := list + [ListItem(mine[i].id, mine[i].earnPoints, mine[i].createdAt)];
        i := i + 1;
      }
      assert list == ListItemsOf(mine);
      return Ok(list);
    }

    /** `getRecordDetail`: the checks, then one question detail per item. */
    method GetRecordDetail(userId: int, recordId: int) returns (r: Result<Detail, BusinessException>)
      ensures r == DetailSpec(State(), userId, recordId)
    {
      var found := UserService.ById(users.rows, userId);
      if found.None? {
        return Err(BusinessException(404, MSG_USER_MISSING));
      }
      var user := found.value;
      var record := FindRecord(records, recordId);
      if record.None? {
        return Err(BusinessException(404, MSG_RECORD_MISSING));
      }
      if record.value.userId != user.id {
        return Err(BusinessException(403, MSG_FORBIDDEN));
      }
      var items := if record.value.items.Some? then record.value.items.value else [];
      var details: seq<QuestionDetail> := [];
      var i := 0;
      while i < |items|
        invariant 0 <= i <= |items| && |details| == i
        invariant forall k :: 0 <= k < i ==> details[k] == DetailOf(items[k])
      {
        details := details + [DetailOf(items[i])];
        i := i + 1;
      }
      assert details == DetailsOf(items);
      var rec := record.value;
      return Ok(Detail(GameBase(rec.id, user.id, user.username, rec.totalQuestionNum), details,
                       PointChange(rec.earnPoints, rec.pointBefore, rec.pointAfter)));
    }
  }
}
