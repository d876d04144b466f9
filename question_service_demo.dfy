/** The question bank of the name-keyed backend: an author creates a question, anyone
  * reads it (with the image host's record for its image key), lists a user's
  * questions, and only the author deletes it. The questions table is modelled in
  * memory; the image host's reply is an input. */
module QuestionServiceDemo {
  import opened Common
  import opened JavaValue
  import UserService
  import ImageClient

  const MSG_USER_MISSING := "用户不存在"
  const MSG_QUESTION_MISSING := "题目不存在"
  const MSG_NOT_AUTHOR := "无权删除该题目"

  /** A question row; every text column and both coordinates are nullable. The author
    * is the referenced user row, as it reads when the question is used. */
  datatype Question = Question(id: int, title: Option<string>, content: Option<string>, answer: Option<string>,
                               campus: Option<string>, difficulty: Option<string>, imageKey: Option<string>,
                               correctLon: Option<real>, correctLat: Option<real>,
                               author: Option<UserService.User>, createdAt: int)

  datatype Db = Db(rows: seq<Question>, nextId: int)

  datatype Step<T> = Step(db: Db, result: Result<T, BusinessException>)

  /** The request's correctCoord: two nullable numbers. */
  datatype Coord = Coord(lon: Option<real>, lat: Option<real>)

  datatype CreateRequest = CreateRequest(campus: Option<string>, difficulty: Option<string>, key: Option<string>,
                                         correctCoord: Option<Coord>, title: Option<string>,
                                         content: Option<string>, answer: Option<string>)

  datatype QuestionResponse = QuestionResponse(
    id: int, title: Option<string>, content: Option<string>, answer: Option<string>,
    authorId: Option<int>, authorUsername: Option<string>, createdAt: int,
    campus: Option<string>, difficulty: Option<string>, correctCoord: Option<(real, real)>,
    imageData: Option<map<string, Value>>)

  datatype QuestionList = QuestionList(total: int, list: seq<QuestionResponse>)

  /** Ids are unique and below the next identity value. */
  predicate Valid(db: Db) {
    && (forall i, j :: 0 <= i < j < |db.rows| ==> db.rows[i].id != db.rows[j].id)
    && (forall i :: 0 <= i < |db.rows| ==> db.rows[i].id < db.nextId)
  }

  /** `questionRepository.findById`. */
  function Find(rows: seq<Question>, id: int): (r: Option<Question>)
    ensures r.Some? ==> r.value in rows && r.value.id == id
    ensures r.None? <==> forall q :: q in rows ==> q.id != id
  {
    if rows == [] then None
    else if rows[0].id == id then Some(rows[0])
    else Find(rows[1..], id)
  }

  /** `toResponse(q)`: the coordinate only when both parts are set, the author's id and
    * name only when there is an author, and no image data. */
  function ToResponse(q: Question): (r: QuestionResponse)
    ensures r.id == q.id && r.title == q.title && r.content == q.content && r.answer == q.answer
    ensures r.createdAt == q.createdAt && r.campus == q.campus && r.difficulty == q.difficulty
    ensures r.correctCoord.Some? <==> q.correctLon.Some? && q.correctLat.Some?
    ensures r.correctCoord.Some? ==> r.correctCoord.value == (q.correctLon.value, q.correctLat.value)
    ensures r.authorId.Some? <==> q.author.Some?
    ensures r.authorUsername.Some? <==> q.author.Some?
    ensures q.author.Some? ==> r.authorId == Some(q.author.value.id) && r.authorUsername == Some(q.author.value.username)
    ensures r.imageData.None?
  {
    QuestionResponse(q.id, q.title, q.content, q.answer,
                     if q.author.Some? then Some(q.author.value.id) else None,
                     if q.author.Some? then Some(q.author.value.username) else None,
                     q.createdAt, q.campus, q.difficulty,
                     if q.correctLon.Some? && q.correctLat.Some? then Some((q.correctLon.value, q.correctLat.value)) else None,
                     None)
  }

  // ---------------------------------------------------------------------
  // The operations, as functions of the tables

  /** The question `createQuestion` saves for an author, with id `id` and creation
    * instant `now`. */
  function NewQuestion(id: int, author: UserService.User, request: CreateRequest, now: int): Question {
    var lon := if request.correctCoord.Some? then request.correctCoord.value.lon else None;
    var lat := if request.correctCoord.Some? then request.correctCoord.value.lat else None;
    Question(id, request.title, request.content, request.answer, request.campus, request.difficulty,
             request.key, lon, lat, Some(author), now)
  }

  /** `createQuestion(username, request)`. */
  function CreateSpec(db: Db, users: UserService.Db, username: string, request: CreateRequest, now: int)
    : Step<QuestionResponse>
  {
    match UserService.ByName(users.rows, username)
    case None => Step(db, Err(BusinessException(404, MSG_USER_MISSING)))
    case Some(author) =>
      var q := NewQuestion(db.nextId, author, request, now);
      Step(Db(db.rows + [q], db.nextId + 1), Ok(ToResponse(q)))
  }

  /** `getQuestion(id)`, given the image host's reply to the lookup of its key. */
  function GetQuestion(db: Db, id: int, reply: ImageClient.Reply): Result<QuestionResponse, BusinessException> {
    match Find(db.rows, id)
    case None => Err(BusinessException(404, MSG_QUESTION_MISSING))
    case Some(q) =>
      if q.imageKey.Some? then Ok(ToResponse(q).(imageData := ImageClient.Fetch(reply, q.imageKey.value)))
      else Ok(ToResponse(q))
  }

  /** The rows `findByAuthorUsername` selects. */
  function ByAuthor(rows: seq<Question>, username: string): (r: seq<Question>)
    ensures forall q :: q in r <==> q in rows && q.author.Some? && q.author.value.username == username
  {
    var p := (q: Question) => q.author.Some? && q.author.value.username == username;
    assert forall q :: q in Filter(p, rows) <==> q in rows && p(q) by {
      forall q { FilterMembership(p, rows, q); }
    }
    Filter(p, rows)
  }

  function Responses(qs: seq<Question>): (r: seq<QuestionResponse>)
    ensures |r| == |qs| && forall i :: 0 <= i < |qs| ==> r[i] == ToResponse(qs[i])
  {
    if qs == [] then [] else [ToResponse(qs[0])] + Responses(qs[1..])
  }

  /** `listByUser(username, page)`: 404 for an unknown user; otherwise the number of the
    * user's questions and the requested page of them, in table order: as many as remain
    * after the page's offset, at most `size`, each the response for the user's question
    * at that position and naming the user as its author. */
  function ListByUser(db: Db, users: UserService.Db, username: string, page: nat, size: nat)
    : (r: Result<QuestionList, BusinessException>)
    ensures r.Ok? ==>
              var mine := ByAuthor(db.rows, username);
              && |r.value.list| == (if page * size >= |mine| then 0 else Min(size, |mine| - page * size))
              && forall i :: 0 <= i < |r.value.list| ==>
                   && page * size + i < |mine| && r.value.list[i] == ToResponse(mine[page * size + i])
                   && r.value.list[i].authorUsername == Some(username)
  {
    if UserService.ByName(users.rows, username).None? then Err(BusinessException(404, MSG_USER_MISSING))
    else
      var mine := ByAuthor(db.rows, username);
      PageOfResponses(mine, page, size, username);
      Ok(QuestionList(|mine|, Responses(PageOf(mine, page, size))))
  }

  /** `listQuestions(page)`: every question, paged. */
  function ListQuestions(db: Db, page: nat, size: nat): (r: QuestionList)
    ensures r.total == |db.rows| && |r.list| <= size
    ensures |r.list| == (if page * size >= |db.rows| then 0 else Min(size, |db.rows| - page * size))
    ensures forall i :: 0 <= i < |r.list| ==>
              page * size + i < |db.rows| && r.list[i] == ToResponse(db.rows[page * size + i])
  {
    PageOfLength(db.rows, page, size);
    QuestionList(|db.rows|, Responses(PageOf(db.rows, page, size)))
  }

  /** The rows after `delete(q)`. */
  function Remove(rows: seq<Question>, id: int): (r: seq<Question>)
    ensures forall q :: q in r <==> q in rows && q.id != id
    ensures |r| <= |rows|
  {
    var p := (q: Question) => q.id != id;
    assert forall q :: q in Filter(p, rows) <==> q in rows && p(q) by {
      forall q { FilterMembership(p, rows, q); }
    }
    FilterSubMultiset(p, rows);
    Filter(p, rows)
  }

  /** `deleteQuestion(username, questionId)`. */
  function DeleteSpec(db: Db, username: string, questionId: int): Step<()> {
    match Find(db.rows, questionId)
    case None => Step(db, Err(BusinessException(404, MSG_QUESTION_MISSING)))
    case Some(q) =>
      if q.author.None? || q.author.value.username != username then Step(db, Err(BusinessException(403, MSG_NOT_AUTHOR)))
      else Step(Db(Remove(db.rows, q.id), db.nextId), Ok(()))
  }

  // ---------------------------------------------------------------------
  // Properties

  /** An unknown author is 404 with nothing stored; otherwise one question is added,
    * every field copied from the request, the coordinates only when the request has a
    * correctCoord, the author the user of that name; getQuestion then finds it. */
  lemma CreateEffect(db: Db, users: UserService.Db, username: string, request: CreateRequest, now: int,
                     reply: ImageClient.Reply)
    requires Valid(db)
    ensures var step := CreateSpec(db, users, username, request, now);
            && (UserService.ByName(users.rows, username).None? ==>
                  step == Step(db, Err(BusinessException(404, MSG_USER_MISSING))))
            && (step.result.Ok? ==>
                  var q := step.db.rows[|db.rows|];
                  && step.db.rows == db.rows + [q] && step.db.nextId == db.nextId + 1 && Valid(step.db)
                  && q.id == db.nextId && q.author == UserService.ByName(users.rows, username)
                  && q.title == request.title && q.content == request.content && q.answer == request.answer
                  && q.campus == request.campus && q.difficulty == request.difficulty && q.imageKey == request.key
                  && (request.correctCoord.None? ==> q.correctLon.None? && q.correctLat.None?)
                  && (request.correctCoord.Some? ==>
                        q.correctLon == request.correctCoord.value.lon && q.correctLat == request.correctCoord.value.lat)
                  && step.result.value == ToResponse(q)
                  && GetQuestion(step.db, q.id, reply).Ok?
                  && GetQuestion(step.db, q.id, reply).value.(imageData := None) == ToResponse(q))
  {
    var step := CreateSpec(db, users, username, request, now);
    if step.result.Ok? {
      var q := step.db.rows[|db.rows|];
      assert Find(step.db.rows, q.id) == Some(q) by {
        FindLast(db.rows, q);
      }
    }
  }

  /** A row whose id no earlier row has is the one found. */
  lemma {:induction false} FindLast(rows: seq<Question>, q: Question)
    requires forall r :: r in rows ==> r.id != q.id
    ensures Find(rows + [q], q.id) == Some(q)
  {
    if rows != [] {
      assert (rows + [q])[1..] == rows[1..] + [q];
      FindLast(rows[1..], q);
    }
  }

  /** getQuestion: 404 when missing; the image data is looked up exactly when the
    * question has an image key, and is what the image host's reply gives for it. */
  lemma GetQuestionCases(db: Db, id: int, reply: ImageClient.Reply)
    ensures Find(db.rows, id).None? ==> GetQuestion(db, id, reply) == Err(BusinessException(404, MSG_QUESTION_MISSING))
    ensures Find(db.rows, id).Some? ==>
              var q := Find(db.rows, id).value;
              && GetQuestion(db, id, reply).Ok?
              && GetQuestion(db, id, reply).value.(imageData := None) == ToResponse(q)
              && (q.imageKey.None? ==> GetQuestion(db, id, reply).value.imageData.None?)
              && (q.imageKey.Some? ==>
                    GetQuestion(db, id, reply).value.imageData == ImageClient.Fetch(reply, q.imageKey.value))
  {
  }

  /** listByUser: 404 for an unknown user; otherwise a list whose total counts the
    * user's questions. */
  lemma ListByUserCases(db: Db, users: UserService.Db, username: string, page: nat, size: nat)
    ensures UserService.ByName(users.rows, username).None? ==>
              ListByUser(db, users, username, page, size) == Err(BusinessException(404, MSG_USER_MISSING))
    ensures UserService.ByName(users.rows, username).Some? ==>
              && ListByUser(db, users, username, page, size).Ok?
              && ListByUser(db, users, username, page, size).value.total == |ByAuthor(db.rows, username)|
  {
  }

  /** The responses for a page of questions by one author: as many as remain after the
    * page's offset, at most `size`, each the response for the question at that
    * position and naming the author. */
  lemma PageOfResponses(xs: seq<Question>, page: nat, size: nat, username: string)
    requires forall q :: q in xs ==> q.author.Some? && q.author.value.username == username
    ensures |Responses(PageOf(xs, page, size))| == (if page * size >= |xs| then 0 else Min(size, |xs| - page * size))
    ensures forall i :: 0 <= i < |Responses(PageOf(xs, page, size))| ==>
              && page * size + i < |xs| && Responses(PageOf(xs, page, size))[i] == ToResponse(xs[page * size + i])
              && Responses(PageOf(xs, page, size))[i].authorUsername == Some(username)
  {
    PageOfLength(xs, page, size);
    var list := Responses(PageOf(xs, page, size));
    forall i | 0 <= i < |list|
      ensures page * size + i < |xs| && list[i] == ToResponse(xs[page * size + i])
      ensures list[i].authorUsername == Some(username)
    {
      assert xs[page * size + i] in xs;
    }
  }

  /** deleteQuestion: 404 when missing; 403 unless the question has an author of that
    * name; only then exactly that question is gone. */
  lemma DeleteEffect(db: Db, username: string, questionId: int)
    requires Valid(db)
    ensures var step := DeleteSpec(db, username, questionId);
            && (Find(db.rows, questionId).None? ==> step == Step(db, Err(BusinessException(404, MSG_QUESTION_MISSING))))
            && (Find(db.rows, questionId).Some? && (Find(db.rows, questionId).value.author.None?
                  || Find(db.rows, questionId).value.author.value.username != username) ==>
                  step == Step(db, Err(BusinessException(403, MSG_NOT_AUTHOR))))
            && (step.result.Err? ==> step.db == db)
            && (step.result.Ok? <==>
                  exists q :: q in db.rows && q.id == questionId && q.author.Some? && q.author.value.username == username)
            && (step.result.Ok? ==>
                  && step.db.nextId == db.nextId
                  && forall q :: q in step.db.rows <==> q in db.rows && q.id != questionId)
  {
    var found := Find(db.rows, questionId);
    if found.Some? {
      forall q | q in db.rows && q.id == questionId
        ensures q == found.value
      {
        var i :| 0 <= i < |db.rows| && db.rows[i] == q;
        var j :| 0 <= j < |db.rows| && db.rows[j] == found.value;
        assert i == j;
      }
    }
  }

  // ---------------------------------------------------------------------
  // The service over its table

  class QuestionStore {
    var rows: seq<Question>
    var nextId: int

    constructor (initial: Db)
      ensures State() == initial
    {
      rows := initial.rows;
      nextId := initial.nextId;
    }

    function State(): Db
      reads this
    {
      Db(rows, nextId)
    }

    method CreateQuestion(users: UserService.Db, username: string, request: CreateRequest, now: int)
      returns (r: Result<QuestionResponse, BusinessException>)
      modifies this
      ensures Step(State(), r) == CreateSpec(old(State()), users, username, request, now)
    {
      var author := UserService.ByName(users.rows, username);
      if author.None? {
        return Err(BusinessException(404, MSG_USER_MISSING));
      }
      var q := NewQuestion(nextId, author.value, request, now);
      rows := rows + [q];
      nextId := nextId + 1;
      return Ok(ToResponse(q));
    }

    method DeleteQuestion(username: string, questionId: int) returns (r: Result<(), BusinessException>)
      modifies this
      ensures Step(State(), r) == DeleteSpec(old(State()), username, questionId)
    {
      var q := Find(rows, questionId);
      if q.None? {
        return Err(BusinessException(404, MSG_QUESTION_MISSING));
      }
      if q.value.author.None? || q.value.author.value.username != username {
        return Err(BusinessException(403, MSG_NOT_AUTHOR));
      }
      rows := Remove(rows, q.value.id);
      return Ok(());
    }
  }
}
