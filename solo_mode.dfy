/** The question bank page: filtering the list, shuffling questions for a random
  * practice run, cleaning server error messages, validating a new question, deleting
  * one, and liking comments. */
module SoloMode {
  import opened Common
  import opened SoloGame

  const MSG_OP_FAILED := "操作失败"
  const VALIDATION_FAILED := "参数验证失败"
  const MSG_CONTENT_EMPTY := "题目描述不能为空"
  const MSG_EMPTY_LIST := "当前列表中没有题目，请先创建或修改筛选条件"
  const MSG_NO_COORD := "当前列表中的题目均缺少正确坐标，无法进行练习"
  const MSG_PICK_LOCATION := "请在地图上选择正确位置"
  const MSG_UPLOAD_IMAGE := "请上传题目图片"
  const MSG_CREATE_FAILED := "题目创建失败"
  const MSG_DELETE_REFUSED := "删除失败"
  const MSG_DELETE_FAILED := "删除题目失败"
  const DEFAULT_TITLE := "未命名题目"
  const DEFAULT_CONTENT := "无描述"
  const DEFAULT_ANSWER := "无答案"
  const MAX_MESSAGE := 200
  const PRACTICE_SIZE := 5

  /** A question as the list endpoint returns it; campus and difficulty may be null. */
  datatype Question = Question(id: int, campus: Option<string>, difficulty: Option<string>,
                               correctCoord: Option<Coord>)

  // ---------------------------------------------------------------------
  // filterQuestions

  /** A non-empty campus or difficulty filter must equal the question's value. */
  predicate Keeps(campus: string, difficulty: string, q: Question) {
    && (campus == "" || q.campus == Some(campus))
    && (difficulty == "" || q.difficulty == Some(difficulty))
  }

  /** `filterQuestions(list, campus, difficulty)`; a null list is treated as empty. */
  function FilterQuestions(list: Option<seq<Question>>, campus: string, difficulty: string): (r: seq<Question>)
    ensures list.None? ==> r == []
  {
    Filter((q: Question) => Keeps(campus, difficulty, q), if list.Some? then list.value else [])
  }

  /** filterQuestions keeps exactly the questions matching every non-empty filter, and
    * keeps the list's order (it is a filter, so it distributes over concatenation). */
  lemma FilterQuestionsExact(xs: seq<Question>, ys: seq<Question>, campus: string, difficulty: string, q: Question)
    ensures q in FilterQuestions(Some(xs), campus, difficulty) <==> q in xs && Keeps(campus, difficulty, q)
    ensures FilterQuestions(Some(xs + ys), campus, difficulty)
            == FilterQuestions(Some(xs), campus, difficulty) + FilterQuestions(Some(ys), campus, difficulty)
    ensures FilterQuestions(Some([q]), campus, difficulty) == if Keeps(campus, difficulty, q) then [q] else []
  {
    var p := (q: Question) => Keeps(campus, difficulty, q);
    FilterMembership(p, xs, q);
    FilterAppend(p, xs, ys);
  }

  /** With both filters empty the whole list is shown. */
  lemma {:induction false} NoFilterKeepsAll(xs: seq<Question>)
    ensures FilterQuestions(Some(xs), "", "") == xs
  {
    if xs != [] {
      NoFilterKeepsAll(xs[1..]);
      assert xs == [xs[0]] + xs[1..];
    }
  }

  // ---------------------------------------------------------------------
  // shuffleArray (Fisher-Yates)

  /** Draws of Math.random(): each in [0, 1). */
  predicate Draws(randoms: seq<real>) {
    forall k :: 0 <= k < |randoms| ==> 0.0 <= randoms[k] < 1.0
  }

  /** `Math.floor(r * (i + 1))` for a draw `r`: an index from 0 to i. */
  function Pick(r: real, i: nat): (j: nat)
    requires 0.0 <= r < 1.0
    ensures j <= i
  {
    var n := (i + 1) as real;
    assert r * n < n by {
      assert n - r * n == (1.0 - r) * n;
    }
    (r * n).Floor
  }

  function Swap<T>(s: seq<T>, i: nat, j: nat): (r: seq<T>)
    requires i < |s| && j < |s|
    ensures |r| == |s|
  {
    s[i := s[j]][j := s[i]]
  }

  lemma SwapPermutes<T>(s: seq<T>, i: nat, j: nat)
    requires i < |s| && j < |s|
    ensures multiset(Swap(s, i, j)) == multiset(s)
  {
    var t := s[i := s[j]];
    assert multiset(t) == multiset(s) - multiset{s[i]} + multiset{s[j]};
    assert t[j] == s[j];
    assert multiset(t[j := s[i]]) == multiset(t) - multiset{s[j]} + multiset{s[i]};
  }

  /** The loop from index `i` down to 1, swapping index k with the draw `randoms[k]` picks. */
  function ShuffleFrom<T>(s: seq<T>, randoms: seq<real>, i: nat): (r: seq<T>)
    requires i < |s| <= |randoms| && Draws(randoms)
    ensures |r| == |s|
    decreases i
  {
    if i == 0 then s else ShuffleFrom(Swap(s, i, Pick(randoms[i], i)), randoms, i - 1)
  }

  /** shuffleArray's result, the k-th loop step using the draw `randoms[k]`. */
  function Shuffled<T>(s: seq<T>, randoms: seq<real>): (r: seq<T>)
    requires |s| <= |randoms| && Draws(randoms)
    ensures |r| == |s|
  {
    if |s| == 0 then s else ShuffleFrom(s, randoms, |s| - 1)
  }

  lemma {:induction false} ShuffleFromPermutes<T>(s: seq<T>, randoms: seq<real>, i: nat)
    requires i < |s| <= |randoms| && Draws(randoms)
    ensures multiset(ShuffleFrom(s, randoms, i)) == multiset(s)
    decreases i
  {
    if i > 0 {
      var j := Pick(randoms[i], i);
      SwapPermutes(s, i, j);
      ShuffleFromPermutes(Swap(s, i, j), randoms, i - 1);
    }
  }

  /** Whatever the draws, the shuffle is a permutation of its input. */
  lemma ShuffledPermutes<T>(s: seq<T>, randoms: seq<real>)
    requires |s| <= |randoms| && Draws(randoms)
    ensures multiset(Shuffled(s, randoms)) == multiset(s)
  {
    if |s| > 0 {
      ShuffleFromPermutes(s, randoms, |s| - 1);
    }
  }

  /** `shuffleArray(array)`: the array is copied and the copy shuffled in place; the
    * input is left as it was. */
  method Shuffle<T>(input: array<T>, randoms: seq<real>) returns (arr: array<T>)
    requires input.Length <= |randoms| && Draws(randoms)
    ensures fresh(arr)
    ensures arr[..] == Shuffled(input[..], randoms)
    ensures multiset(arr[..]) == multiset(input[..])
  {
    arr := new T[input.Length](k reads input requires 0 <= k < input.Length => input[k]);
    assert arr[..] == input[..];
    if arr.Length == 0 {
      return;
    }
    var i := arr.Length - 1;
    while i > 0
      invariant 0 <= i < arr.Length == input.Length
      invariant ShuffleFrom(arr[..], randoms, i) == Shuffled(input[..], randoms)
    {
      var j := Pick(randoms[i], i);
      ghost var before := arr[..];
      var t := arr[i];
      arr[i] := arr[j];
      arr[j] := t;
      assert arr[..] == Swap(before, i, j);
      i := i - 1;
    }
    ShuffledPermutes(input[..], randoms);
  }

  // ---------------------------------------------------------------------
  // handleStartRandomPractice

  function Ids(qs: seq<Question>): (r: seq<int>)
    ensures |r| == |qs| && forall k :: 0 <= k < |qs| ==> r[k] == qs[k].id
  {
    seq(|qs|, k requires 0 <= k < |qs| => qs[k].id)
  }

  /** Shuffling and then taking the ids is taking the ids and then shuffling. */
  lemma {:induction false} ShuffleFromIds(s: seq<Question>, randoms: seq<real>, i: nat)
    requires i < |s| <= |randoms| && Draws(randoms)
    ensures Ids(ShuffleFrom(s, randoms, i)) == ShuffleFrom(Ids(s), randoms, i)
    decreases i
  {
    if i > 0 {
      var j := Pick(randoms[i], i);
      assert Ids(Swap(s, i, j)) == Swap(Ids(s), i, j);
      ShuffleFromIds(Swap(s, i, j), randoms, i - 1);
    }
  }

  /** The questions a practice run can use: both coordinates present. */
  function WithCoord(qs: seq<Question>): (r: seq<Question>)
    ensures |r| <= |qs|
  {
    Filter((q: Question) => HasCoord(q.correctCoord), qs)
  }

  /** Every element's multiplicity is at most one. */
  ghost predicate Distinct(s: seq<int>) {
    forall x :: multiset(s)[x] <= 1
  }

  /** `handleStartRandomPractice` on the filtered list: an error for an empty list or a
    * list without a usable question, otherwise the ids of the first five (or fewer)
    * usable questions after a shuffle. */
  method StartRandomPractice(filtered: seq<Question>, randoms: seq<real>) returns (r: Result<seq<int>, string>)
    requires |filtered| <= |randoms| && Draws(randoms)
    ensures filtered == [] ==> r == Err(MSG_EMPTY_LIST)
    ensures filtered != [] && WithCoord(filtered) == [] ==> r == Err(MSG_NO_COORD)
    ensures r.Ok? <==> WithCoord(filtered) != []
    ensures r.Ok? ==> |r.value| == if |WithCoord(filtered)| < PRACTICE_SIZE then |WithCoord(filtered)| else PRACTICE_SIZE
    ensures r.Ok? ==> multiset(r.value) <= multiset(Ids(WithCoord(filtered)))
    ensures r.Ok? && Distinct(Ids(filtered)) ==> Distinct(r.value)
  {
    if |filtered| == 0 {
      return Err(MSG_EMPTY_LIST);
    }
    var valid := WithCoord(filtered);
    if |valid| == 0 {
      return Err(MSG_NO_COORD);
    }
    var input := new Question[|valid|](k requires 0 <= k < |valid| => valid[k]);
    assert input[..] == valid;
    var shuffled := Shuffle(input, randoms);
    var n := if shuffled.Length < PRACTICE_SIZE then shuffled.Length else PRACTICE_SIZE;
    var ids := Ids(shuffled[..n]);
    PracticeIdsFromValid(filtered, valid, shuffled[..], randoms, n);
    return Ok(ids);
  }

  lemma PracticeIdsFromValid(filtered: seq<Question>, valid: seq<Question>, shuffled: seq<Question>,
                             randoms: seq<real>, n: nat)
    requires valid == WithCoord(filtered) && |valid| <= |randoms| && Draws(randoms)
    requires shuffled == Shuffled(valid, randoms) && n <= |shuffled|
    ensures multiset(Ids(shuffled[..n])) <= multiset(Ids(valid))
    ensures Distinct(Ids(filtered)) ==> Distinct(Ids(shuffled[..n]))
  {
    assert Ids(shuffled) == Ids(shuffled[..n]) + Ids(shuffled[n..]);
    if |valid| > 0 {
      ShuffleFromIds(valid, randoms, |valid| - 1);
      ShuffledPermutes(Ids(valid), randoms);
    }
    assert multiset(Ids(shuffled)) == multiset(Ids(valid));
    IdsOfFilter(filtered);
  }

  /** The ids of the usable questions come from the list. */
  lemma {:induction false} IdsOfFilter(qs: seq<Question>)
    ensures multiset(Ids(WithCoord(qs))) <= multiset(Ids(qs))
  {
    if qs != [] {
      IdsOfFilter(qs[1..]);
      var p := (q: Question) => HasCoord(q.correctCoord);
      assert WithCoord(qs) == (if p(qs[0]) then [qs[0]] else []) + WithCoord(qs[1..]);
      assert Ids(WithCoord(qs)) == (if p(qs[0]) then [qs[0].id] else []) + Ids(WithCoord(qs[1..]));
      assert Ids(qs) == [qs[0].id] + Ids(qs[1..]);
    }
  }

  // ---------------------------------------------------------------------
  // cleanErrorMessage

  /** Messages longer than 200 characters are cut to 200 and marked with '...'. */
  function Truncate(msg: string): (r: string)
    ensures |r| <= MAX_MESSAGE + 3
    ensures |msg| <= MAX_MESSAGE ==> r == msg
    ensures |msg| > MAX_MESSAGE ==> |r| == MAX_MESSAGE + 3 && r[..MAX_MESSAGE] == msg[..MAX_MESSAGE] && r[MAX_MESSAGE..] == "..."
  {
    if |msg| > MAX_MESSAGE then msg[..MAX_MESSAGE] + "..." else msg
  }

  predicate IsStop(c: char) { c == ',' || c == '}' }

  /** The regular expression `=([^,}]+)` can match at `k`. */
  predicate MatchAt(s: string, k: int) {
    0 <= k && k + 1 < |s| && s[k] == '=' && !IsStop(s[k + 1])
  }

  /** The first match position at or after `k`. */
  function MatchFrom(s: string, k: nat): (r: Option<nat>)
    requires k <= |s|
    ensures r.Some? ==> k <= r.value && MatchAt(s, r.value)
    ensures r.Some? ==> forall m :: k <= m < r.value ==> !MatchAt(s, m)
    ensures r.None? ==> forall m :: k <= m ==> !MatchAt(s, m)
    decreases |s| - k
  {
    if k + 1 >= |s| then None
    else if MatchAt(s, k) then Some(k)
    else MatchFrom(s, k + 1)
  }

  /** The end of the greedy run of characters other than ',' and '}' from `i`. */
  function RunEnd(s: string, i: nat): (e: nat)
    requires i <= |s|
    ensures i <= e <= |s|
    ensures forall m :: i <= m < e ==> !IsStop(s[m])
    ensures e == |s| || IsStop(s[e])
    decreases |s| - i
  {
    if i < |s| && !IsStop(s[i]) then RunEnd(s, i + 1) else i
  }

  /** The first capture group of `/=([^,}]+)/.exec(s)`, if the expression matches. */
  function Capture(s: string): (r: Option<string>)
    ensures r.Some? ==> 0 < |r.value| <= |s|
    ensures r.Some? ==> forall m :: 0 <= m < |r.value| ==> !IsStop(r.value[m])
  {
    match MatchFrom(s, 0)
    case None => None
    case Some(k) => Some(s[k + 1..RunEnd(s, k + 1)])
  }

  /** The capture is the longest run of characters other than ',' and '}' after the
    * leftmost '=' that is followed by such a character; there is none exactly when
    * no '=' is followed by one. */
  lemma CaptureIsLeftmostLongest(s: string)
    ensures Capture(s).None? <==> forall m :: !MatchAt(s, m)
    ensures Capture(s).Some? ==>
              var k := MatchFrom(s, 0).value;
              var e := RunEnd(s, k + 1);
              && MatchAt(s, k) && (forall m :: 0 <= m < k ==> !MatchAt(s, m))
              && k + 1 < e && Capture(s).value == s[k + 1..e]
              && (forall m :: k + 1 <= m < e ==> !IsStop(s[m]))
              && (e == |s| || IsStop(s[e]))
  {
  }

  /** `cleanErrorMessage(errorMsg)`; a missing message is None. */
  function CleanErrorMessage(errorMsg: Option<string>): (r: string)
  {
    if errorMsg.None? || errorMsg.value == "" then MSG_OP_FAILED
    else
      var msg := Truncate(errorMsg.value);
      if Contains(msg, VALIDATION_FAILED) && Capture(msg).Some? then Trim(Capture(msg).value)
      else if Contains(msg, "constraint") && Contains(msg, "content") then MSG_CONTENT_EMPTY
      else msg
  }

  /** What cleanErrorMessage yields: the fixed text for an empty message; otherwise,
    * on the message cut to 200 characters, the trimmed first capture for a
    * validation failure, the fixed text for a constraint on the content, and the
    * (cut) message itself for anything else. */
  lemma CleanErrorMessageCases(errorMsg: Option<string>)
    ensures errorMsg.None? || errorMsg == Some("") ==> CleanErrorMessage(errorMsg) == MSG_OP_FAILED
    ensures errorMsg.Some? && errorMsg.value != "" ==>
              var msg := if |errorMsg.value| > 200 then errorMsg.value[..200] + "..." else errorMsg.value;
              && (Contains(msg, VALIDATION_FAILED) && Capture(msg).Some? ==>
                    CleanErrorMessage(errorMsg) == Trim(Capture(msg).value))
              && (!(Contains(msg, VALIDATION_FAILED) && Capture(msg).Some?)
                  && Contains(msg, "constraint") && Contains(msg, "content") ==>
                    CleanErrorMessage(errorMsg) == MSG_CONTENT_EMPTY)
              && (!(Contains(msg, VALIDATION_FAILED) && Capture(msg).Some?)
                  && !(Contains(msg, "constraint") && Contains(msg, "content")) ==>
                    CleanErrorMessage(errorMsg) == msg)
  {
  }

  /** A short message that is neither a validation failure nor a constraint on the
    * content comes back unchanged. */
  lemma CleanKeepsOrdinaryMessage(s: string)
    requires 0 < |s| <= MAX_MESSAGE
    requires forall k :: !OccursAt(s, VALIDATION_FAILED, k)
    requires forall k :: !OccursAt(s, "constraint", k)
    ensures CleanErrorMessage(Some(s)) == s
  {
  }

  /** The cleaned message never exceeds 203 characters, and an extracted validation
    * message holds no ',' or '}'. */
  lemma CleanBounded(errorMsg: Option<string>)
    ensures |CleanErrorMessage(errorMsg)| <= MAX_MESSAGE + 3
    ensures errorMsg.Some? && errorMsg.value != "" && Contains(Truncate(errorMsg.value), VALIDATION_FAILED)
            && Capture(Truncate(errorMsg.value)).Some? ==>
              forall m :: 0 <= m < |CleanErrorMessage(errorMsg)| ==> !IsStop(CleanErrorMessage(errorMsg)[m])
  {
    if errorMsg.Some? && errorMsg.value != "" {
      var msg := Truncate(errorMsg.value);
      if Contains(msg, VALIDATION_FAILED) && Capture(msg).Some? {
        TrimKeepsNoStop(Capture(msg).value);
      }
    }
  }

  lemma TrimKeepsNoStop(c: string)
    requires forall m :: 0 <= m < |c| ==> !IsStop(c[m])
    ensures forall m :: 0 <= m < |Trim(c)| ==> !IsStop(Trim(c)[m])
  {
    var i := SkipSpace(c, 0);
    var j := SkipSpaceBack(c, i, |c|);
    assert Trim(c) == c[i..j];
    forall m | 0 <= m < |Trim(c)| ensures !IsStop(Trim(c)[m]) {
      assert Trim(c)[m] == c[i + m];
    }
  }

  /** The callers' `cleanErrorMessage(m) || fallback` only falls back when a validation
    * failure's capture is all white space. */
  lemma CleanEmptyOnlyForBlankCapture(errorMsg: Option<string>)
    ensures CleanErrorMessage(errorMsg) == "" ==>
              && errorMsg.Some? && errorMsg.value != ""
              && Capture(Truncate(errorMsg.value)).Some?
              && AllSpace(Capture(Truncate(errorMsg.value)).value)
  {
    if errorMsg.Some? && errorMsg.value != "" {
      var msg := Truncate(errorMsg.value);
      if Contains(msg, VALIDATION_FAILED) && Capture(msg).Some? {
        TrimEmptyIff(Capture(msg).value);
      }
    }
  }

  /** `cleanErrorMessage(m) || fallback`. */
  function CleanOr(errorMsg: Option<string>, fallback: string): (r: string)
    ensures fallback != "" ==> r != ""
  {
    var c := CleanErrorMessage(errorMsg);
    if c != "" then c else fallback
  }

  // ---------------------------------------------------------------------
  // submitCreateQuestion

  /** The create form. */
  datatype Form = Form(campus: string, difficulty: string, coord: Option<Coord>, imageKey: string,
                       imageUrl: string, title: string, content: string, answer: string)

  /** `clearForm`: the coordinate, the picture and the texts are reset; campus and
    * difficulty stay. */
  function ClearForm(f: Form): (r: Form)
    ensures r.campus == f.campus && r.difficulty == f.difficulty
    ensures r.coord.None? && r.imageKey == "" && r.imageUrl == "" && r.title == "" && r.content == "" && r.answer == ""
  {
    f.(coord := None, imageKey := "", imageUrl := "", title := "", content := "", answer := "")
  }

  /** A coordinate part JavaScript treats as false: missing or zero. */
  predicate Falsy(x: Option<real>) {
    x.None? || x.value == 0.0
  }

  /** The body of the create request. */
  datatype Draft = Draft(campus: string, difficulty: string, key: string, lon: real, lat: real,
                         title: string, content: string, answer: string)

  datatype CreateCheck = NeedsLogin | Invalid(message: string) | Ready(draft: Draft)

  function OrDefault(s: string, default: string): string {
    if Trim(s) != "" then Trim(s) else default
  }

  /** The checks submitCreateQuestion makes before any request. */
  function CheckCreate(signedIn: bool, f: Form): (r: CreateCheck)
    ensures !signedIn ==> r == NeedsLogin
    ensures signedIn && (f.coord.None? || Falsy(f.coord.value.lat) || Falsy(f.coord.value.lon)) ==>
              r == Invalid(MSG_PICK_LOCATION)
    ensures signedIn && f.coord.Some? && !Falsy(f.coord.value.lat) && !Falsy(f.coord.value.lon) && f.imageKey == "" ==>
              r == Invalid(MSG_UPLOAD_IMAGE)
    ensures r.Ready? <==> signedIn && f.coord.Some? && !Falsy(f.coord.value.lat) && !Falsy(f.coord.value.lon) && f.imageKey != ""
    ensures r.Ready? ==>
              && r.draft.lat == f.coord.value.lat.value != 0.0 && r.draft.lon == f.coord.value.lon.value != 0.0
              && r.draft.key == f.imageKey && r.draft.campus == f.campus && r.draft.difficulty == f.difficulty
  {
    if !signedIn then NeedsLogin
    else if f.coord.None? || Falsy(f.coord.value.lat) || Falsy(f.coord.value.lon) then Invalid(MSG_PICK_LOCATION)
    else if f.imageKey == "" then Invalid(MSG_UPLOAD_IMAGE)
    else Ready(Draft(f.campus, f.difficulty, f.imageKey, f.coord.value.lon.value, f.coord.value.lat.value,
                     OrDefault(f.title, DEFAULT_TITLE), OrDefault(f.content, DEFAULT_CONTENT),
                     OrDefault(f.answer, DEFAULT_ANSWER)))
  }

  /** The texts sent are never blank: an all-white-space field gets its default, any
    * other is sent trimmed. */
  lemma CreateTextsDefaulted(f: Form)
    requires CheckCreate(true, f).Ready?
    ensures var d := CheckCreate(true, f).draft;
            && d.title != "" && d.content != "" && d.answer != ""
            && (AllSpace(f.title) ==> d.title == DEFAULT_TITLE)
            && (!AllSpace(f.title) ==> d.title == Trim(f.title))
            && (AllSpace(f.content) ==> d.content == DEFAULT_CONTENT)
            && (!AllSpace(f.content) ==> d.content == Trim(f.content))
            && (AllSpace(f.answer) ==> d.answer == DEFAULT_ANSWER)
            && (!AllSpace(f.answer) ==> d.answer == Trim(f.answer))
  {
    TrimEmptyIff(f.title);
    TrimEmptyIff(f.content);
    TrimEmptyIff(f.answer);
  }

  /** `题目创建成功（ID: ${resp?.id ?? '-'}）`. */
  function CreatedMessage(id: Option<int>): string {
    "题目创建成功（ID: " + (if id.Some? then IntToString(id.value) else "-") + "）"
  }

  // ---------------------------------------------------------------------
  // handleToggleLike

  datatype Comment = Comment(commentId: int, isLiked: bool, likeCount: int)

  /** The comment after a like (when it was not liked) or an unlike. */
  function Flip(c: Comment, wasLiked: bool): Comment {
    c.(isLiked := !wasLiked, likeCount := if wasLiked then c.likeCount - 1 else c.likeCount + 1)
  }

  /** The state update after the like call succeeded for `target`. */
  function ToggleLiked(cs: seq<Comment>, target: Comment): (r: seq<Comment>)
    ensures |r| == |cs|
  {
    if cs == [] then []
    else [if cs[0].commentId == target.commentId then Flip(cs[0], target.isLiked) else cs[0]]
         + ToggleLiked(cs[1..], target)
  }

  /** Only the comments with the target's id change: their flag becomes the opposite
    * of the target's and their count moves by one in the matching direction. */
  lemma {:induction false} ToggleOnlyTarget(cs: seq<Comment>, target: Comment, k: int)
    requires 0 <= k < |cs|
    ensures cs[k].commentId != target.commentId ==> ToggleLiked(cs, target)[k] == cs[k]
    ensures cs[k].commentId == target.commentId ==>
              && ToggleLiked(cs, target)[k].commentId == cs[k].commentId
              && ToggleLiked(cs, target)[k].isLiked == !target.isLiked
              && ToggleLiked(cs, target)[k].likeCount == cs[k].likeCount + (if target.isLiked then -1 else 1)
  {
    if k > 0 {
      ToggleOnlyTarget(cs[1..], target, k - 1);
    }
  }

  /** Liking and then unliking (or the reverse) restores the list when the shown flag
    * was current. */
  lemma {:induction false} ToggleTwiceRestores(cs: seq<Comment>, target: Comment)
    requires forall k :: 0 <= k < |cs| && cs[k].commentId == target.commentId ==> cs[k].isLiked == target.isLiked
    ensures ToggleLiked(ToggleLiked(cs, target), target.(isLiked := !target.isLiked)) == cs
  {
    if cs != [] {
      assert forall k :: 0 <= k < |cs[1..]| ==> cs[1..][k] == cs[k + 1];
      ToggleTwiceRestores(cs[1..], target);
    }
  }

  // ---------------------------------------------------------------------
  // The page

  datatype Nav = ToLogin | ToGame(questionIds: seq<int>)

  /** How the awaited delete request ended: a 2xx answer, another answer with its body
    * text, or a thrown error with its message. */
  datatype DeleteOutcome = Deleted | Refused(text: string) | Failed(message: string)

  class Page {
    var list: seq<Question>
    var campus: string
    var difficulty: string
    var selectedId: Option<int>
    var detail: Option<Question>
    var comments: seq<Comment>
    var form: Form
    var actionMsg: string
    var actionErr: string
    var navigations: seq<Nav>
    var createRequests: seq<Draft>
    var deleteRequests: seq<int>
    var listLoads: nat

    constructor ()
      ensures list == [] && campus == "" && difficulty == "" && selectedId.None? && detail.None? && comments == []
      ensures form == Form("zhuhai", "easy", None, "", "", "", "", "")
      ensures actionMsg == "" && actionErr == "" && navigations == [] && createRequests == [] && deleteRequests == []
      ensures listLoads == 0
    {
      list, campus, difficulty, selectedId, detail, comments := [], "", "", None, None, [];
      form := Form("zhuhai", "easy", None, "", "", "", "", "");
      actionMsg, actionErr, navigations, createRequests, deleteRequests, listLoads := "", "", [], [], [], 0;
    }

    /** The list as shown, through the campus and difficulty filters. */
    function Filtered(): seq<Question>
      reads this`list, this`campus, this`difficulty
    {
      FilterQuestions(Some(list), campus, difficulty)
    }

    /** `handleStartRandomPractice`. */
    method StartPractice(randoms: seq<real>)
      requires |list| <= |randoms| && Draws(randoms)
      modifies this`actionErr, this`navigations
      ensures WithCoord(Filtered()) == [] ==> navigations == old(navigations) && actionErr != ""
      ensures WithCoord(Filtered()) != [] ==>
                actionErr == old(actionErr) && |navigations| == |old(navigations)| + 1
                && navigations[..|old(navigations)|] == old(navigations)
                && navigations[|old(navigations)|].ToGame?
                && var ids := navigations[|old(navigations)|].questionIds;
                   0 < |ids| <= PRACTICE_SIZE && multiset(ids) <= multiset(Ids(WithCoord(Filtered())))
    {
      var r := StartRandomPractice(Filtered(), randoms);
      if r.Err? {
        actionErr := r.error;
      } else {
        navigations := navigations + [ToGame(r.value)];
      }
    }

    /** `handleCreate` with `submitCreateQuestion`, `outcome` being how the awaited
      * create call ended (the new question's id, or the error's message). */
    method SubmitCreate(signedIn: bool, outcome: Result<Option<int>, Option<string>>)
      modifies this`navigations, this`actionMsg, this`actionErr, this`createRequests, this`form, this`listLoads
      ensures CheckCreate(signedIn, old(form)).NeedsLogin? ==>
                navigations == old(navigations) + [ToLogin] && actionMsg == old(actionMsg)
                && actionErr == old(actionErr) && createRequests == old(createRequests) && form == old(form)
                && listLoads == old(listLoads)
      ensures CheckCreate(signedIn, old(form)).Invalid? ==>
                actionErr == CheckCreate(signedIn, old(form)).message && navigations == old(navigations)
                && actionMsg == old(actionMsg) && createRequests == old(createRequests) && form == old(form)
                && listLoads == old(listLoads)
      ensures CheckCreate(signedIn, old(form)).Ready? ==>
                createRequests == old(createRequests) + [CheckCreate(signedIn, old(form)).draft]
                && navigations == old(navigations)
      ensures CheckCreate(signedIn, old(form)).Ready? && outcome.Ok? ==>
                actionMsg == CreatedMessage(outcome.value) && actionErr == "" && form == ClearForm(old(form))
                && listLoads == old(listLoads) + 1
      ensures CheckCreate(signedIn, old(form)).Ready? && outcome.Err? ==>
                actionMsg == "" && actionErr == CleanOr(outcome.error, MSG_CREATE_FAILED) && form == old(form)
                && listLoads == old(listLoads)
    {
      var check := CheckCreate(signedIn, form);
      match check
      case NeedsLogin =>
        navigations := navigations + [ToLogin];
      case Invalid(message) =>
        actionErr := message;
      case Ready(draft) =>
        actionMsg, actionErr := "", "";
        createRequests := createRequests + [draft];
        if outcome.Ok? {
          actionMsg := CreatedMessage(outcome.value);
          form := ClearForm(form);
          listLoads := listLoads + 1;
        } else {
          actionErr := CleanOr(outcome.error, MSG_CREATE_FAILED);
        }
    }

    /** `handleDelete(questionId)`: nothing without confirmation, the login page without
      * a user; after a successful delete the selection and detail are cleared when they
      * were this question, and the list is reloaded. */
    method Delete(questionId: int, confirmed: bool, signedIn: bool, outcome: DeleteOutcome)
      modifies this`navigations, this`actionMsg, this`actionErr, this`selectedId, this`detail,
               this`deleteRequests, this`listLoads
      ensures !confirmed ==>
                navigations == old(navigations) && deleteRequests == old(deleteRequests)
                && actionMsg == old(actionMsg) && actionErr == old(actionErr) && selectedId == old(selectedId)
                && detail == old(detail) && listLoads == old(listLoads)
      ensures confirmed && !signedIn ==>
                navigations == old(navigations) + [ToLogin] && deleteRequests == old(deleteRequests)
                && actionMsg == old(actionMsg) && actionErr == old(actionErr) && selectedId == old(selectedId)
                && detail == old(detail) && listLoads == old(listLoads)
      ensures confirmed && signedIn ==> deleteRequests == old(deleteRequests) + [questionId] && navigations == old(navigations)
      ensures confirmed && signedIn && outcome.Deleted? ==>
                && actionMsg == "题目 #" + IntToString(questionId) + " 删除成功" && actionErr == old(actionErr)
                && (old(selectedId) == Some(questionId) ==> selectedId.None? && detail.None?)
                && (old(selectedId) != Some(questionId) ==> selectedId == old(selectedId) && detail == old(detail))
                && listLoads == old(listLoads) + 1
      ensures confirmed && signedIn && outcome.Refused? ==>
                actionErr == CleanOr(Some(if outcome.text != "" then outcome.text else MSG_DELETE_REFUSED), MSG_DELETE_FAILED)
                && actionMsg == old(actionMsg) && selectedId == old(selectedId) && detail == old(detail)
                && listLoads == old(listLoads)
      ensures confirmed && signedIn && outcome.Failed? ==>
                actionErr == CleanOr(Some(outcome.message), MSG_DELETE_FAILED)
                && actionMsg == old(actionMsg) && selectedId == old(selectedId) && detail == old(detail)
                && listLoads == old(listLoads)
    {
      if !confirmed {
        return;
      }
      if !signedIn {
        navigations := navigations + [ToLogin];
        return;
      }
      deleteRequests := deleteRequests + [questionId];
      match outcome
      case Deleted =>
        actionMsg := "题目 #" + IntToString(questionId) + " 删除成功";
        if selectedId == Some(questionId) {
          detail := None;
          selectedId := None;
        }
        listLoads := listLoads + 1;
      case Refused(text) =>
        actionErr := CleanOr(Some(if text != "" then text else MSG_DELETE_REFUSED), MSG_DELETE_FAILED);
      case Failed(message) =>
        actionErr := CleanOr(Some(message), MSG_DELETE_FAILED);
    }

    /** `handleToggleLike(comment)`: the login page without a user; after both awaited
      * calls succeed the comment list is updated; on any error nothing changes. */
    method ToggleLike(comment: Comment, signedIn: bool, outcome: Result<(), string>)
      modifies this`navigations, this`comments
      ensures !signedIn ==> navigations == old(navigations) + [ToLogin] && comments == old(comments)
      ensures signedIn && outcome.Ok? ==> comments == ToggleLiked(old(comments), comment) && navigations == old(navigations)
      ensures signedIn && outcome.Err? ==> comments == old(comments) && navigations == old(navigations)
    {
      if !signedIn {
        navigations := navigations + [ToLogin];
        return;
      }
      if outcome.Ok? {
        comments := ToggleLiked(comments, comment);
      }
    }
  }

  // ---------------------------------------------------------------------
  // From the random practice run to the practice page

  /** The practice page opened from the router state that `handleStartRandomPractice`
    * sends (`mode: 'solo'`, the ids, `startIndex: 0`, and no `questionId`): its mount
    * goes straight back to /solo and asks the server for nothing. */
  method OpenPractice(ids: seq<int>, signedIn: bool, outcome: Result<Detail, string>)
    returns (pageNavigations: seq<string>, pageRequests: seq<Option<int>>)
    ensures pageNavigations == ["/solo"] && pageRequests == []
  {
    var page := new SoloGame.Page(true, Some(ids), Some(0));
    page.Mount(None, Some(ids), signedIn, outcome);
    pageNavigations, pageRequests := page.navigations, page.requests;
  }

  /** The same page opened from a router state that also carries the first id as
    * `questionId`: the run starts on that question with the whole list kept. */
  method OpenPracticeAtFirst(ids: seq<int>, signedIn: bool, outcome: Result<Detail, string>)
    returns (pageNavigations: seq<string>, pageRequests: seq<Option<int>>, pageIds: seq<int>, pageIndex: int)
    requires ids != [] && ids[0] != 0
    ensures pageIds == ids && pageIndex == 0
    ensures signedIn ==> pageNavigations == [] && pageRequests == [Some(ids[0])]
    ensures !signedIn ==> pageNavigations == ["/login"] && pageRequests == []
  {
    var page := new SoloGame.Page(true, Some(ids), Some(0));
    page.Mount(Some(ids[0]), Some(ids), signedIn, outcome);
    pageNavigations, pageRequests, pageIds, pageIndex := page.navigations, page.requests, page.questionIds, page.currentIndex;
  }
}
