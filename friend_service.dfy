/** The friend service of the two backends: sending a friend request, handling one,
  * removing a friend, cancelling a request and listing friends.
  *
  * One backend names users by user name, the other by user id; the operations they
  * share are stated once for a user key. Each operation is a function from the table
  * it starts from to the table it leaves and its result (a response or the
  * BusinessException it throws); the service class makes the repository calls step by
  * step and is proved to match that function. An operation that throws leaves the
  * table as it found it (its transaction is rolled back). */
module FriendService {
  import opened Common
  import opened FriendshipRepository

  const MSG_SELF := "不能添加自己为好友"
  const MSG_TARGET_MISSING := "目标用户不存在"
  const MSG_ALREADY_SENT := "已向该用户发送过好友申请，等待对方处理"
  const MSG_ALREADY_FRIENDS := "你们已经是好友了"
  const MSG_USER_MISSING := "用户不存在"
  const MSG_REQUEST_MISSING := "好友申请不存在"
  const MSG_NOT_RECEIVER := "无权处理该好友申请"
  const MSG_HANDLED := "该好友申请已处理"
  const MSG_BAD_HANDLE_TYPE := "处理类型必须是accept或reject"
  const MSG_FRIEND_MISSING := "好友用户不存在"
  const MSG_NO_RELATION := "好友关系不存在"
  const MSG_NOT_SENDER := "只能取消自己发送的好友申请"
  const MSG_NOT_PENDING := "只能取消待处理的好友申请"
  const ACCEPT := "accept"
  const REJECT := "reject"

  /** The friendships table: its rows and its id counter. */
  datatype Db = Db(rows: seq<Friendship>, nextId: int)

  /** The table an operation leaves and what it returns or throws. */
  datatype Step<T> = Step(db: Db, result: Result<T, BusinessException>)

  function Fail<T>(db: Db, code: int, message: string): Step<T> {
    Step(db, Err(BusinessException(code, message)))
  }

  /** Both keys name users the same way (both by id or both by name). */
  predicate SameKind(a: Key, b: Key) {
    a.ById? == b.ById?
  }

  /** `userRepository.findById` / `findByUsername`. */
  function FindUser(users: seq<User>, k: Key): (r: Option<User>)
    ensures r.Some? ==> r.value in users && Is(r.value, k)
    ensures r.None? ==> forall u :: u in users ==> !Is(u, k)
  {
    if users == [] then None
    else if Is(users[0], k) then Some(users[0])
    else FindUser(users[1..], k)
  }

  /** What createFriendshipResponse reports of a row. */
  datatype FriendshipResponse = FriendshipResponse(
    friendshipId: int, applicantId: int, applicantUsername: string, receiverId: int, receiverUsername: string,
    status: string, requestedAt: int, handledAt: Option<int>, handledType: Option<string>)

  /** createFriendshipResponse: the handling time and type are reported only for a row
    * that has a handling time. */
  function ToResponse(f: Friendship): (r: FriendshipResponse)
    ensures r.friendshipId == f.id && r.status == StatusName(f.status) && r.requestedAt == f.requestedAt
    ensures r.applicantId == f.sender.id && r.receiverId == f.receiver.id
    ensures r.handledAt.None? ==> r.handledType.None?
    ensures f.handledAt.Some? ==> r.handledAt == f.handledAt && r.handledType == f.handledType
  {
    FriendshipResponse(f.id, f.sender.id, f.sender.username, f.receiver.id, f.receiver.username,
                       StatusName(f.status), f.requestedAt,
                       f.handledAt, if f.handledAt.Some? then f.handledType else None)
  }

  /** A row accepted at `now`. */
  function Approve(f: Friendship, now: int): Friendship {
    f.(status := APPROVED, handledAt := Some(now), handledType := Some(ACCEPT))
  }

  /** The row created for the other direction when a request is accepted. */
  function ReverseOf(f: Friendship, id: int, now: int): Friendship {
    Friendship(id, f.receiver, f.sender, APPROVED, now, Some(now), Some(ACCEPT))
  }

  // ---------------------------------------------------------------------
  // The operations, as functions of the table

  /** The table after addFriend's first step: an own REJECTED request is deleted. */
  function ClearRejected(db: Db, me: Key, friend: Key): Db {
    var mine := FindPair(db.rows, me, friend);
    if mine.Some? && mine.value.status == REJECTED then Db(Without(db.rows, {mine.value.id}), db.nextId) else db
  }

  /** acceptExistingRequest: the received request is approved, then the row in the other
    * direction is approved too, or created approved when there is none. */
  function AcceptExisting(db: Db, me: Key, friend: Key, request: Friendship, now: int): Step<FriendshipResponse> {
    var rows := Update(db.rows, Approve(request, now));
    var after := match FindPair(rows, me, friend)
      case Some(reverse) => Db(Update(rows, Approve(reverse, now)), db.nextId)
      case None => Db(rows + [ReverseOf(request, db.nextId, now)], db.nextId + 1);
    Step(after, Ok(ToResponse(Approve(request, now))))
  }

  /** addFriend(me, friend). */
  function AddFriendSpec(db: Db, users: seq<User>, me: Key, friend: Key, now: int): Step<FriendshipResponse> {
    if me == friend then Fail(db, 400, MSG_SELF)
    else if FindUser(users, friend).None? then Fail(db, 404, MSG_TARGET_MISSING)
    else
      var mine := FindPair(db.rows, me, friend);
      if mine.Some? && mine.value.status == PENDING then Fail(db, 400, MSG_ALREADY_SENT)
      else if mine.Some? && mine.value.status == APPROVED then Fail(db, 400, MSG_ALREADY_FRIENDS)
      else AddAfterClear(db, ClearRejected(db, me, friend), users, me, friend, FindUser(users, friend).value, now)
  }

  /** addFriend once no own request stands in the way (`cleared` is the table then; an
    * error rolls back to `db`): a pending request from the friend is accepted, a
    * friendship is refused, and otherwise a new pending request is stored. */
  function AddAfterClear(db: Db, cleared: Db, users: seq<User>, me: Key, friend: Key, friendUser: User, now: int)
    : Step<FriendshipResponse>
  {
    var received := FindPair(cleared.rows, friend, me);
    if received.Some? && received.value.status == PENDING then AcceptExisting(cleared, me, friend, received.value, now)
    else if received.Some? && received.value.status == APPROVED then Fail(db, 400, MSG_ALREADY_FRIENDS)
    else if ExistsFriendship(cleared.rows, me, friend) then Fail(db, 400, MSG_ALREADY_FRIENDS)
    else if FindUser(users, me).None? then Fail(db, 404, MSG_USER_MISSING)
    else
      var request := Friendship(cleared.nextId, FindUser(users, me).value, friendUser, PENDING, now, None, None);
      Step(Db(cleared.rows + [request], cleared.nextId + 1), Ok(ToResponse(request)))
  }

  /** Accepting request `f` in handleFriendRequest: the row in the other direction
    * (from `a`, the receiver, to `b`, the sender) is approved or created approved, then
    * `f` itself is saved approved. */
  function ApproveBoth(db: Db, f: Friendship, a: Key, b: Key, now: int): Db {
    var reversed := match FindPair(db.rows, a, b)
      case Some(reverse) => Db(Update(db.rows, Approve(reverse, now)), db.nextId)
      case None => Db(db.rows + [ReverseOf(f, db.nextId, now)], db.nextId + 1);
    Db(Update(reversed.rows, Approve(f, now)), reversed.nextId)
  }

  /** removeFriend(me, friend): every row between the two goes. */
  function RemoveFriendSpec(db: Db, users: seq<User>, me: Key, friend: Key): Step<()> {
    if FindUser(users, me).None? then Fail(db, 404, MSG_USER_MISSING)
    else if FindUser(users, friend).None? then Fail(db, 404, MSG_FRIEND_MISSING)
    else
      var between := FindBetween(db.rows, me, friend);
      if |between| == 0 then Fail(db, 404, MSG_NO_RELATION)
      else Step(Db(Without(db.rows, Ids(between)), db.nextId), Ok(()))
  }

  /** cancelFriendRequest(me, id). */
  function CancelSpec(db: Db, me: Key, id: int): Step<()> {
    match FindById(db.rows, id)
    case None => Fail(db, 404, MSG_REQUEST_MISSING)
    case Some(f) =>
      if !Is(f.sender, me) then Fail(db, 403, MSG_NOT_SENDER)
      else if f.status != PENDING then Fail(db, 400, MSG_NOT_PENDING)
      else Step(Db(Without(db.rows, {f.id}), db.nextId), Ok(()))
  }

  /** The name-keyed handleFriendRequest(me, friendName, handleType): the request is
    * looked up by its two users; reject removes the friendship (every row between
    * the two) and reports the request as it was, with the handling filled in. */
  function HandleByNameSpec(db: Db, users: seq<User>, me: string, friendName: string, handleType: string, now: int)
    : Step<FriendshipResponse>
  {
    match FindPair(db.rows, ByName(friendName), ByName(me))
    case None => Fail(db, 404, MSG_REQUEST_MISSING)
    case Some(f) =>
      if f.receiver.username != me then Fail(db, 403, MSG_NOT_RECEIVER)
      else if f.status != PENDING then Fail(db, 400, MSG_HANDLED)
      else if ToLowerAscii(handleType) == ACCEPT then
        Step(ApproveBoth(db, f, ByName(f.receiver.username), ByName(f.sender.username), now), Ok(ToResponse(Approve(f, now))))
      else if ToLowerAscii(handleType) == REJECT then
        var removed := RemoveFriendSpec(db, users, ByName(me), ByName(f.sender.username));
        if removed.result.Err? then Step(removed.db, Err(removed.result.error))
        else Step(removed.db, Ok(ToResponse(f.(handledAt := Some(now), handledType := Some(REJECT)))))
      else Fail(db, 400, MSG_BAD_HANDLE_TYPE)
  }

  /** A request rejected at `now`. */
  function Reject(f: Friendship, now: int): Friendship {
    f.(status := REJECTED, handledAt := Some(now), handledType := Some(REJECT))
  }

  /** The id-keyed handleFriendRequest(me, id, handleType): reject keeps the row, marked
    * REJECTED. */
  function HandleByIdSpec(db: Db, me: int, id: int, handleType: string, now: int): Step<FriendshipResponse> {
    match FindById(db.rows, id)
    case None => Fail(db, 404, MSG_REQUEST_MISSING)
    case Some(f) =>
      if f.receiver.id != me then Fail(db, 403, MSG_NOT_RECEIVER)
      else if f.status != PENDING then Fail(db, 400, MSG_HANDLED)
      else if ToLowerAscii(handleType) == ACCEPT then
        Step(ApproveBoth(db, f, ById(f.receiver.id), ById(f.sender.id), now), Ok(ToResponse(Approve(f, now))))
      else if ToLowerAscii(handleType) == REJECT then
        Step(Db(Update(db.rows, Reject(f, now)), db.nextId), Ok(ToResponse(Reject(f, now))))
      else Fail(db, 400, MSG_BAD_HANDLE_TYPE)
  }

  // ---------------------------------------------------------------------
  // Friend lists and paging

  /** `FriendResponse`, without the user's points and last login time. */
  datatype FriendResponse = FriendResponse(userId: int, username: string, status: string, time: Option<int>)

  datatype FriendList = FriendList(total: int, friends: seq<FriendResponse>)

  /** What the name-keyed friend list reports of a friend. */
  function FriendOf(u: User): FriendResponse {
    FriendResponse(u.id, u.username, StatusName(APPROVED), None)
  }

  /** The users with the given ids, in order; the first unknown id throws. */
  function FriendsOf(users: seq<User>, ids: seq<int>): (r: Result<seq<FriendResponse>, BusinessException>)
    ensures r.Ok? <==> forall i :: 0 <= i < |ids| ==> FindUser(users, ById(ids[i])).Some?
    ensures r.Ok? ==> |r.value| == |ids|
                      && forall i :: 0 <= i < |ids| ==> r.value[i] == FriendOf(FindUser(users, ById(ids[i])).value)
    ensures r.Err? ==> r.error == BusinessException(404, MSG_FRIEND_MISSING)
  {
    if ids == [] then Ok([])
    else match FindUser(users, ById(ids[0]))
      case None => Err(BusinessException(404, MSG_FRIEND_MISSING))
      case Some(u) =>
        match FriendsOf(users, ids[1..])
        case Err(e) => Err(e)
        case Ok(rest) =>
          assert forall i :: 1 <= i < |ids| ==> ids[i] == ids[1..][i - 1];
          Ok([FriendOf(u)] + rest)
  }

  /** The name-keyed getFriendList: the friend ids of the user, paged, each looked up. */
  function FriendListByNameSpec(db: Db, users: seq<User>, me: string, page: nat, size: nat)
    : Result<FriendList, BusinessException>
  {
    if FindUser(users, ByName(me)).None? then Err(BusinessException(404, MSG_USER_MISSING))
    else
      var ids := FriendIds(db.rows, ByName(me));
      match FriendsOf(users, PageOf(ids, page, size))
      case Err(e) => Err(e)
      case Ok(friends) => Ok(FriendList(|ids|, friends))
  }

  /** What the id-keyed friend list reports of an approved row: the user on the other
    * side from `me`, the row's status and its handling time. */
  function FriendItem(f: Friendship, me: int): FriendResponse {
    var u := Other(f, ById(me));
    FriendResponse(u.id, u.username, StatusName(f.status), f.handledAt)
  }

  /** The id-keyed getFriendList: a page of the approved rows with the user. */
  function FriendListByIdSpec(db: Db, users: seq<User>, me: int, page: nat, size: nat)
    : Result<FriendList, BusinessException>
  {
    if FindUser(users, ById(me)).None? then Err(BusinessException(404, MSG_USER_MISSING))
    else
      var rows := Approved(db.rows, ById(me));
      var content := PageOf(rows, page, size);
      Ok(FriendList(|rows|, seq(|content|, i requires 0 <= i < |content| => FriendItem(content[i], me))))
  }

  /** The page the name-keyed getFriendList cuts out of the id list, with its bounds
    * computed in Java `int` as written: `start = page * size` and
    * `end = min(start + size, n)` may wrap around. A negative start with
    * `start < end` makes subList throw (None). */
  function PageAsWritten<T>(xs: seq<T>, page: Int32, size: Int32): (r: Option<seq<T>>)
    requires |xs| <= INT32_MAX
  {
    var start := Wrap32(page * size);
    var end := Min(AddInt32(start, size), |xs|);
    if start >= end then Some([])
    else if start < 0 then None
    else Some(xs[start..end])
  }

  /** While `page * size + size` fits in an `int`, the page as written is the intended
    * one. */
  lemma PageAsWrittenWithinInt32(xs: seq<int>, page: Int32, size: Int32)
    requires |xs| <= INT32_MAX && page >= 0 && size >= 1 && IsInt32(page * size + size)
    ensures PageAsWritten(xs, page, size) == Some(PageOf(xs, page, size))
  {
    assert IsInt32(page * size) by {
      assert 0 <= page * size <= page * size + size;
    }
  }

  /** Page 4294968 of 1000 friend ids (a request Spring accepts) wraps its start to 704:
    * of 2000 ids it returns ids 704 to 1703 where the page is past the end and should be
    * empty. Page 2147484 wraps to a negative start and throws instead of being empty. */
  lemma PageOverflowCounterexample(xs: seq<int>)
    requires |xs| == 2000
    ensures PageOf(xs, 4294968, 1000) == [] && PageOf(xs, 2147484, 1000) == []
    ensures PageAsWritten(xs, 4294968, 1000) == Some(xs[704..1704])
    ensures PageAsWritten(xs, 2147484, 1000) == None
  {
    assert Wrap32(4294968 * 1000) == 704;
    assert AddInt32(704, 1000) == 1704;
    assert Wrap32(2147484 * 1000) == -2147483296;
    assert AddInt32(-2147483296, 1000) == -2147482296;
  }

  /** The intended page is empty exactly when the offset is past the end, and otherwise
    * holds `size` elements or all that remain. */
  lemma PageOfSlices<T>(xs: seq<T>, page: nat, size: nat)
    ensures PageOf(xs, page, size) == [] <==> size == 0 || page * size >= |xs|
    ensures page * size < |xs| ==> |PageOf(xs, page, size)| == Min(size, |xs| - page * size)
  {
  }

  /** Every element is on exactly the page its position says: element j is item
    * j % size of page j / size. */
  lemma PageOfCovers<T>(xs: seq<T>, size: nat, j: nat)
    requires size >= 1 && j < |xs|
    ensures j % size < |PageOf(xs, j / size, size)| && PageOf(xs, j / size, size)[j % size] == xs[j]
  {
    var page := j / size;
    assert page * size + j % size == j;
    assert page * size <= j < page * size + size;
    PageOfSlices(xs, page, size);
  }

  /** The name-keyed friend list: 404 for an unknown user; otherwise the total is the
    * number of friend ids (approved rows with the user) and the page lists, in order,
    * the users whose ids are on the page (ids page * size onwards), each marked
    * approved. */
  lemma FriendListByNameOrder(db: Db, users: seq<User>, me: string, page: nat, size: nat, i: int)
    ensures FindUser(users, ByName(me)).None? ==>
              FriendListByNameSpec(db, users, me, page, size) == Err(BusinessException(404, MSG_USER_MISSING))
    ensures FriendListByNameSpec(db, users, me, page, size).Ok? ==>
              var list := FriendListByNameSpec(db, users, me, page, size).value;
              && list.total == CountFriends(db.rows, ByName(me))
              && |list.friends| == |PageOf(FriendIds(db.rows, ByName(me)), page, size)|
              && (0 <= i < |list.friends| ==>
                    && list.friends[i].userId == PageOf(FriendIds(db.rows, ByName(me)), page, size)[i]
                    && list.friends[i].status == "approved")
  {
    var ids := FriendIds(db.rows, ByName(me));
    var onPage := PageOf(ids, page, size);
    var result := FriendListByNameSpec(db, users, me, page, size);
    if result.Ok? {
      var friends := FriendsOf(users, onPage);
      assert friends.Ok? && result.value == FriendList(|ids|, friends.value);
      if 0 <= i < |onPage| {
        var u := FindUser(users, ById(onPage[i]));
        assert friends.value[i] == FriendOf(u.value);
      }
    }
  }

  /** The id-keyed friend list: 404 for an unknown user; otherwise the total counts the
    * approved rows with the user and item i of the page reports the approved row at
    * offset page * size + i: the user on the other side (the receiver when the user sent
    * it, else the sender) and the row's handling time. */
  lemma FriendListByIdOtherParty(db: Db, users: seq<User>, me: int, page: nat, size: nat, i: int)
    ensures FindUser(users, ById(me)).None? ==>
              FriendListByIdSpec(db, users, me, page, size) == Err(BusinessException(404, MSG_USER_MISSING))
    ensures FriendListByIdSpec(db, users, me, page, size).Ok? ==>
              var list := FriendListByIdSpec(db, users, me, page, size).value;
              var rows := Approved(db.rows, ById(me));
              && list.total == CountFriends(db.rows, ById(me))
              && (0 <= i < |list.friends| ==>
                    && page * size + i < |rows|
                    && rows[page * size + i] in db.rows
                    && Involves(rows[page * size + i], ById(me))
                    && list.friends[i].status == "approved"
                    && list.friends[i].time == rows[page * size + i].handledAt
                    && list.friends[i].userId == (if rows[page * size + i].sender.id == me
                                                  then rows[page * size + i].receiver.id
                                                  else rows[page * size + i].sender.id))
  {
    var rows := Approved(db.rows, ById(me));
    PageOfSlices(rows, page, size);
    if FriendListByIdSpec(db, users, me, page, size).Ok? && 0 <= i < |PageOf(rows, page, size)| {
      var f := rows[page * size + i];
      FilterMembership((x: Friendship) => Involves(x, ById(me)) && x.status == APPROVED, db.rows, f);
    }
  }

  // ---------------------------------------------------------------------
  // The table's invariant

  /** Users have distinct ids and distinct names. */
  predicate UsersUnique(users: seq<User>) {
    forall i, j :: 0 <= i < j < |users| ==> users[i].id != users[j].id && users[i].username != users[j].username
  }

  /** The unique constraint holds and every row id lies below the counter. */
  predicate TableValid(db: Db) {
    Unique(db.rows) && forall i :: 0 <= i < |db.rows| ==> db.rows[i].id < db.nextId
  }

  /** The table is valid, users are unique, and every row is between known users. */
  predicate Consistent(users: seq<User>, db: Db) {
    && TableValid(db) && UsersUnique(users)
    && forall i :: 0 <= i < |db.rows| ==> db.rows[i].sender in users && db.rows[i].receiver in users
  }

  /** Two known users that match one key are the same user. */
  lemma SameUserByKey(users: seq<User>, u: User, v: User, k: Key)
    requires UsersUnique(users) && u in users && v in users && Is(u, k) && Is(v, k)
    ensures u == v
  {
    var p :| 0 <= p < |users| && users[p] == u;
    var q :| 0 <= q < |users| && users[q] == v;
  }

  /** In a consistent table at most one row goes from `a` to `b`, whether the users are
    * named by id or by name. */
  lemma LinkUnique(users: seq<User>, db: Db, a: Key, b: Key, i: int, j: int)
    requires Consistent(users, db) && 0 <= i < |db.rows| && 0 <= j < |db.rows|
    requires Links(db.rows[i], a, b) && Links(db.rows[j], a, b)
    ensures i == j
  {
    SameUserByKey(users, db.rows[i].sender, db.rows[j].sender, a);
    SameUserByKey(users, db.rows[i].receiver, db.rows[j].receiver, b);
  }

  /** A row from `a` to `b` in a consistent table is the one the lookup returns. */
  lemma FoundIsOnly(users: seq<User>, db: Db, a: Key, b: Key, f: Friendship)
    requires Consistent(users, db) && f in db.rows && Links(f, a, b)
    ensures FindPair(db.rows, a, b) == Some(f)
  {
    var g := FindPair(db.rows, a, b).value;
    var i :| 0 <= i < |db.rows| && db.rows[i] == f;
    var j :| 0 <= j < |db.rows| && db.rows[j] == g;
    LinkUnique(users, db, a, b, i, j);
  }

  /** No row goes both ways between two different users named the same way. */
  lemma NotBothWays(f: Friendship, a: Key, b: Key)
    requires SameKind(a, b) && a != b
    ensures !(Links(f, a, b) && Links(f, b, a))
  {
  }

  // ---------------------------------------------------------------------
  // What the operations do

  /** addFriend's refusals before it changes anything: itself is 400, an unknown target
    * 404, an own pending request 400 and an own approved one 400. */
  lemma AddFriendRefusals(db: Db, users: seq<User>, me: Key, friend: Key, now: int)
    ensures me == friend ==> AddFriendSpec(db, users, me, friend, now) == Fail(db, 400, MSG_SELF)
    ensures me != friend && FindUser(users, friend).None? ==>
              AddFriendSpec(db, users, me, friend, now) == Fail(db, 404, MSG_TARGET_MISSING)
    ensures me != friend && FindUser(users, friend).Some? && FindPair(db.rows, me, friend).Some? ==>
              && (FindPair(db.rows, me, friend).value.status == PENDING ==>
                    AddFriendSpec(db, users, me, friend, now) == Fail(db, 400, MSG_ALREADY_SENT))
              && (FindPair(db.rows, me, friend).value.status == APPROVED ==>
                    AddFriendSpec(db, users, me, friend, now) == Fail(db, 400, MSG_ALREADY_FRIENDS))
  {
  }

  /** addFriend past its own-request check changes nothing when it refuses. */
  lemma AddAfterClearErrorKeeps(db: Db, cleared: Db, users: seq<User>, me: Key, friend: Key, friendUser: User, now: int)
    ensures AddAfterClear(db, cleared, users, me, friend, friendUser, now).result.Err? ==>
              AddAfterClear(db, cleared, users, me, friend, friendUser, now).db == db
  {
  }

  /** Whatever addFriend throws, the table is left as it was. */
  lemma AddFriendErrorKeeps(db: Db, users: seq<User>, me: Key, friend: Key, now: int)
    ensures AddFriendSpec(db, users, me, friend, now).result.Err? ==> AddFriendSpec(db, users, me, friend, now).db == db
  {
    if me != friend && FindUser(users, friend).Some? {
      AddAfterClearErrorKeeps(db, ClearRejected(db, me, friend), users, me, friend, FindUser(users, friend).value, now);
    }
  }

  /** The table after the own rejected request is deleted holds only rows of the table
    * before. */
  lemma ClearedWithin(db: Db, me: Key, friend: Key, f: Friendship)
    ensures f in ClearRejected(db, me, friend).rows ==> f in db.rows
  {
  }

  /** Two rows of a valid table with the same id are the same row. */
  lemma SameIdSameRow(db: Db, f: Friendship, g: Friendship)
    requires TableValid(db) && f in db.rows && g in db.rows && f.id == g.id
    ensures f == g
  {
    var i :| 0 <= i < |db.rows| && db.rows[i] == f;
    var j :| 0 <= j < |db.rows| && db.rows[j] == g;
  }

  /** In a consistent table, deleting the own rejected request keeps every row that does
    * not go from `me` to `friend`, and when the own request was missing or rejected no
    * row from `me` to `friend` is left. */
  lemma ClearedExact(users: seq<User>, db: Db, me: Key, friend: Key, f: Friendship)
    requires Consistent(users, db)
    requires FindPair(db.rows, me, friend).None? || FindPair(db.rows, me, friend).value.status == REJECTED
    ensures f in ClearRejected(db, me, friend).rows <==> f in db.rows && !Links(f, me, friend)
  {
    var mine := FindPair(db.rows, me, friend);
    if mine.Some? && f in db.rows && f.id == mine.value.id {
      SameIdSameRow(db, f, mine.value);
    }
    if mine.Some? && f in db.rows && Links(f, me, friend) {
      FoundIsOnly(users, db, me, friend, f);
    }
  }

  /** After the deletion, the friend's request to me is the one of the table before. */
  lemma ReceivedSurvives(users: seq<User>, db: Db, me: Key, friend: Key)
    requires Consistent(users, db) && SameKind(me, friend) && me != friend
    requires FindPair(db.rows, me, friend).None? || FindPair(db.rows, me, friend).value.status == REJECTED
    ensures FindPair(ClearRejected(db, me, friend).rows, friend, me) == FindPair(db.rows, friend, me)
  {
    var cleared := ClearRejected(db, me, friend);
    var found := FindPair(cleared.rows, friend, me);
    if found.Some? {
      ClearedWithin(db, me, friend, found.value);
      FoundIsOnly(users, db, friend, me, found.value);
    } else if FindPair(db.rows, friend, me).Some? {
      var g := FindPair(db.rows, friend, me).value;
      NotBothWays(g, me, friend);
      ClearedExact(users, db, me, friend, g);
    }
  }

  /** Past its first refusals, addFriend continues on the cleared table. */
  lemma AddFriendUnfolds(db: Db, users: seq<User>, me: Key, friend: Key, now: int)
    requires me != friend && FindUser(users, friend).Some?
    requires FindPair(db.rows, me, friend).None? || FindPair(db.rows, me, friend).value.status == REJECTED
    ensures AddFriendSpec(db, users, me, friend, now)
            == AddAfterClear(db, ClearRejected(db, me, friend), users, me, friend, FindUser(users, friend).value, now)
    ensures ClearRejected(db, me, friend).nextId == db.nextId
  {
  }

  /** Once the received request is approved in the cleared table, no row goes from me
    * to the friend and every pending row is one of the table before. */
  lemma NoOwnAfterAccept(users: seq<User>, db: Db, me: Key, friend: Key, request: Friendship, now: int)
    requires Consistent(users, db) && SameKind(me, friend) && me != friend && Links(request, friend, me)
    requires FindPair(db.rows, me, friend).None? || FindPair(db.rows, me, friend).value.status == REJECTED
    ensures var rows := Update(ClearRejected(db, me, friend).rows, Approve(request, now));
            && FindPair(rows, me, friend).None?
            && forall g :: g in rows && g.status == PENDING ==> g in db.rows
  {
    var cleared := ClearRejected(db, me, friend);
    var rows := Update(cleared.rows, Approve(request, now));
    forall k | 0 <= k < |rows|
      ensures !Links(rows[k], me, friend)
      ensures rows[k].status == PENDING ==> rows[k] in db.rows
    {
      if cleared.rows[k].id == request.id {
        NotBothWays(Approve(request, now), me, friend);
      } else {
        ClearedExact(users, db, me, friend, cleared.rows[k]);
      }
    }
  }

  /** addFriend past its own-request check, with a pending request from the friend and
    * no row back once that request is approved. */
  lemma AcceptWithoutReverse(db: Db, cleared: Db, users: seq<User>, me: Key, friend: Key, friendUser: User, now: int,
                             request: Friendship)
    requires FindPair(cleared.rows, friend, me) == Some(request) && request.status == PENDING
    requires FindPair(Update(cleared.rows, Approve(request, now)), me, friend).None?
    ensures AddAfterClear(db, cleared, users, me, friend, friendUser, now)
            == Step(Db(Update(cleared.rows, Approve(request, now)) + [ReverseOf(request, cleared.nextId, now)],
                       cleared.nextId + 1),
                    Ok(ToResponse(Approve(request, now))))
  {
  }

  /** The rows addFriend leaves when it accepts the friend's request: that request
    * approved, the new approved row back, and no pending row that was not there. */
  lemma AcceptedRows(users: seq<User>, db: Db, me: Key, friend: Key, request: Friendship, now: int)
    requires Consistent(users, db) && SameKind(me, friend) && me != friend
    requires FindPair(db.rows, me, friend).None? || FindPair(db.rows, me, friend).value.status == REJECTED
    requires FindPair(db.rows, friend, me) == Some(request)
    ensures var rows := Update(ClearRejected(db, me, friend).rows, Approve(request, now)) + [ReverseOf(request, db.nextId, now)];
            && Approve(request, now) in rows && ReverseOf(request, db.nextId, now) in rows
            && forall g :: g in rows && g.status == PENDING ==> g in db.rows
  {
    var cleared := ClearRejected(db, me, friend);
    var updated := Update(cleared.rows, Approve(request, now));
    ReceivedSurvives(users, db, me, friend);
    NoOwnAfterAccept(users, db, me, friend, request, now);
    var k :| 0 <= k < |cleared.rows| && cleared.rows[k] == request;
    assert updated[k] == Approve(request, now);
    var rows := updated + [ReverseOf(request, db.nextId, now)];
    assert rows[k] == Approve(request, now) && rows[|updated|] == ReverseOf(request, db.nextId, now);
  }

  /** When the friend has a pending request to me, addFriend accepts it: that request is
    * approved and a new approved row from me to the friend is created (the row from me
    * to the friend is always absent at that point, so acceptExistingRequest's update of
    * an existing one is never taken), and no pending row is added. */
  lemma AddFriendAutoAccepts(db: Db, users: seq<User>, me: Key, friend: Key, now: int, request: Friendship)
    requires Consistent(users, db) && SameKind(me, friend) && me != friend && FindUser(users, friend).Some?
    requires FindPair(db.rows, me, friend).None? || FindPair(db.rows, me, friend).value.status == REJECTED
    requires FindPair(db.rows, friend, me) == Some(request) && request.status == PENDING
    ensures var step := AddFriendSpec(db, users, me, friend, now);
            && step.result == Ok(ToResponse(Approve(request, now)))
            && step.db == Db(Update(ClearRejected(db, me, friend).rows, Approve(request, now))
                             + [ReverseOf(request, db.nextId, now)], db.nextId + 1)
            && Approve(request, now) in step.db.rows && Links(Approve(request, now), friend, me)
            && ReverseOf(request, db.nextId, now) in step.db.rows && Links(ReverseOf(request, db.nextId, now), me, friend)
            && forall g :: g in step.db.rows && g.status == PENDING ==> g in db.rows
  {
    var cleared := ClearRejected(db, me, friend);
    var after := Db(Update(cleared.rows, Approve(request, now)) + [ReverseOf(request, db.nextId, now)], db.nextId + 1);
    assert AddFriendSpec(db, users, me, friend, now) == Step(after, Ok(ToResponse(Approve(request, now)))) by {
      ReceivedSurvives(users, db, me, friend);
      NoOwnAfterAccept(users, db, me, friend, request, now);
      AddFriendUnfolds(db, users, me, friend, now);
      AcceptWithoutReverse(db, cleared, users, me, friend, FindUser(users, friend).value, now, request);
    }
    AcceptedRows(users, db, me, friend, request, now);
  }

  /** addFriend past its own-request check refuses when the friend's row to me is
    * approved. */
  lemma AddAfterClearRefuses(db: Db, cleared: Db, users: seq<User>, me: Key, friend: Key, friendUser: User, now: int)
    requires FindPair(cleared.rows, friend, me).Some? && FindPair(cleared.rows, friend, me).value.status == APPROVED
    ensures AddAfterClear(db, cleared, users, me, friend, friendUser, now) == Fail(db, 400, MSG_ALREADY_FRIENDS)
  {
  }

  /** addFriend refuses with 400, changing nothing, when the two are already friends in
    * either direction. */
  lemma AddFriendRefusesFriends(db: Db, users: seq<User>, me: Key, friend: Key, now: int)
    requires Consistent(users, db) && SameKind(me, friend) && ExistsFriendship(db.rows, me, friend)
    ensures AddFriendSpec(db, users, me, friend, now).result.Err?
    ensures AddFriendSpec(db, users, me, friend, now).result.error.code == 400
    ensures AddFriendSpec(db, users, me, friend, now).db == db
  {
    if me == friend {
      assert AddFriendSpec(db, users, me, friend, now) == Fail(db, 400, MSG_SELF);
    } else {
      var i :| 0 <= i < |db.rows| && (Links(db.rows[i], me, friend) || Links(db.rows[i], friend, me))
               && db.rows[i].status == APPROVED;
      var g := db.rows[i];
      assert FindUser(users, friend).Some? by {
        assert Is(g.sender, friend) || Is(g.receiver, friend);
        assert g.sender in users && g.receiver in users;
      }
      var mine := FindPair(db.rows, me, friend);
      if mine.Some? && mine.value.status != REJECTED {
        AddFriendRefusals(db, users, me, friend, now);
      } else {
        assert !Links(g, me, friend) by {
          if Links(g, me, friend) {
            FoundIsOnly(users, db, me, friend, g);
          }
        }
        var cleared := ClearRejected(db, me, friend);
        assert FindPair(cleared.rows, friend, me) == Some(g) by {
          ReceivedSurvives(users, db, me, friend);
          FoundIsOnly(users, db, friend, me, g);
        }
        AddFriendUnfolds(db, users, me, friend, now);
        AddAfterClearRefuses(db, cleared, users, me, friend, FindUser(users, friend).value, now);
      }
    }
  }

  /** addFriend past its own-request check, with no pending or approved request from
    * the friend and no friendship, stores a new pending request from me. */
  lemma AddAfterClearStores(db: Db, cleared: Db, users: seq<User>, me: Key, friend: Key, friendUser: User, now: int)
    requires FindPair(cleared.rows, friend, me).None? || FindPair(cleared.rows, friend, me).value.status == REJECTED
    requires !ExistsFriendship(cleared.rows, me, friend) && FindUser(users, me).Some?
    ensures var request := Friendship(cleared.nextId, FindUser(users, me).value, friendUser, PENDING, now, None, None);
            AddAfterClear(db, cleared, users, me, friend, friendUser, now)
            == Step(Db(cleared.rows + [request], cleared.nextId + 1), Ok(ToResponse(request)))
  {
  }

  /** Otherwise addFriend stores exactly one new pending request from me to the friend
    * (after deleting my rejected one), and it is then the only row from me to the
    * friend. */
  lemma AddFriendSendsRequest(db: Db, users: seq<User>, me: Key, friend: Key, now: int)
    requires Consistent(users, db) && SameKind(me, friend) && me != friend
    requires FindUser(users, friend).Some? && FindUser(users, me).Some?
    requires FindPair(db.rows, me, friend).None? || FindPair(db.rows, me, friend).value.status == REJECTED
    requires FindPair(db.rows, friend, me).None? || FindPair(db.rows, friend, me).value.status == REJECTED
    requires !ExistsFriendship(db.rows, me, friend)
    ensures var request := Friendship(db.nextId, FindUser(users, me).value, FindUser(users, friend).value,
                                      PENDING, now, None, None);
            && Links(request, me, friend)
            && AddFriendSpec(db, users, me, friend, now)
               == Step(Db(ClearRejected(db, me, friend).rows + [request], db.nextId + 1), Ok(ToResponse(request)))
            && forall g :: g in AddFriendSpec(db, users, me, friend, now).db.rows && Links(g, me, friend) ==> g == request
  {
    var cleared := ClearRejected(db, me, friend);
    var request := Friendship(db.nextId, FindUser(users, me).value, FindUser(users, friend).value,
                              PENDING, now, None, None);
    assert FindPair(cleared.rows, friend, me) == FindPair(db.rows, friend, me) by {
      ReceivedSurvives(users, db, me, friend);
    }
    assert !ExistsFriendship(cleared.rows, me, friend) by {
      if ExistsFriendship(cleared.rows, me, friend) {
        var i :| 0 <= i < |cleared.rows| && (Links(cleared.rows[i], me, friend) || Links(cleared.rows[i], friend, me))
                 && cleared.rows[i].status == APPROVED;
        ClearedWithin(db, me, friend, cleared.rows[i]);
        assert false;
      }
    }
    AddFriendUnfolds(db, users, me, friend, now);
    AddAfterClearStores(db, cleared, users, me, friend, FindUser(users, friend).value, now);
    forall g | g in cleared.rows
      ensures !Links(g, me, friend)
    {
      ClearedExact(users, db, me, friend, g);
    }
  }

  /** Approving two different rows of a table by id leaves both approved and adds no
    * pending row. */
  lemma ApproveTwoRows(rows: seq<Friendship>, f: Friendship, r: Friendship, now: int)
    requires f in rows && r in rows && f.id != r.id
    ensures var after := Update(Update(rows, Approve(r, now)), Approve(f, now));
            && Approve(f, now) in after && Approve(r, now) in after && |after| == |rows|
            && forall g :: g in after && g.status == PENDING ==> g in rows
  {
    var k :| 0 <= k < |rows| && rows[k] == f;
    var p :| 0 <= p < |rows| && rows[p] == r;
    var after := Update(Update(rows, Approve(r, now)), Approve(f, now));
    assert after[k] == Approve(f, now) && after[p] == Approve(r, now);
    forall j | 0 <= j < |after| && after[j].status == PENDING
      ensures after[j] in rows
    {
      assert after[j] == rows[j];
    }
  }

  /** Approving a row and appending its approved reverse leaves both in the table and
    * adds no pending row. */
  lemma ApproveWithNewRow(rows: seq<Friendship>, f: Friendship, reverse: Friendship, now: int)
    requires f in rows && reverse.status == APPROVED && reverse.id != f.id
    ensures var after := Update(rows + [reverse], Approve(f, now));
            && Approve(f, now) in after && reverse in after && |after| == |rows| + 1
            && forall g :: g in after && g.status == PENDING ==> g in rows
  {
    var k :| 0 <= k < |rows| && rows[k] == f;
    var after := Update(rows + [reverse], Approve(f, now));
    assert after[k] == Approve(f, now) && after[|rows|] == reverse;
    forall j | 0 <= j < |after| && after[j].status == PENDING
      ensures after[j] in rows
    {
      assert j < |rows| && after[j] == rows[j];
    }
  }

  /** Accepting request `f` (which does not itself go from `a` to `b`) leaves `f`
    * approved and the row from `a` to `b` approved: the existing one, or a new one when
    * there was none. No pending row is added. */
  lemma ApproveBothEffect(db: Db, f: Friendship, a: Key, b: Key, now: int)
    requires TableValid(db) && f in db.rows && !Links(f, a, b)
    ensures var after := ApproveBoth(db, f, a, b, now);
            && Approve(f, now) in after.rows
            && (FindPair(db.rows, a, b).Some? ==>
                  && Approve(FindPair(db.rows, a, b).value, now) in after.rows
                  && after.nextId == db.nextId && |after.rows| == |db.rows|)
            && (FindPair(db.rows, a, b).None? ==>
                  && ReverseOf(f, db.nextId, now) in after.rows
                  && after.nextId == db.nextId + 1 && |after.rows| == |db.rows| + 1)
            && forall g :: g in after.rows && g.status == PENDING ==> g in db.rows
  {
    match FindPair(db.rows, a, b)
    case Some(reverse) =>
      assert f.id != reverse.id by {
        var k :| 0 <= k < |db.rows| && db.rows[k] == f;
        var p :| 0 <= p < |db.rows| && db.rows[p] == reverse;
        assert k != p;
      }
      ApproveTwoRows(db.rows, f, reverse, now);
    case None =>
      ApproveWithNewRow(db.rows, f, ReverseOf(f, db.nextId, now), now);
  }

  /** The name-keyed handleFriendRequest: no request from the friend is 404, a handled
    * one 400 and a handle type other than accept or reject (in any case) 400. The 403
    * for a caller who is not the receiver never happens, since the lookup already
    * fixes the receiver. Whatever it throws, the table is left as it was. */
  lemma HandleByNameCases(db: Db, users: seq<User>, me: string, friendName: string, handleType: string, now: int)
    ensures var found := FindPair(db.rows, ByName(friendName), ByName(me));
            var step := HandleByNameSpec(db, users, me, friendName, handleType, now);
            && (found.None? ==> step == Fail(db, 404, MSG_REQUEST_MISSING))
            && (found.Some? && found.value.status != PENDING ==> step == Fail(db, 400, MSG_HANDLED))
            && (found.Some? && found.value.status == PENDING
                && ToLowerAscii(handleType) != ACCEPT && ToLowerAscii(handleType) != REJECT ==>
                  step == Fail(db, 400, MSG_BAD_HANDLE_TYPE))
            && step.result != Err(BusinessException(403, MSG_NOT_RECEIVER))
            && (step.result.Err? ==> step.db == db)
  {
  }

  /** Accepting a pending request by name approves it and the row back from me to the
    * friend; rejecting it deletes every row between the two and reports the request
    * as still pending, with the handling filled in. */
  lemma HandleByNameEffects(db: Db, users: seq<User>, me: string, friendName: string, handleType: string, now: int,
                            f: Friendship)
    requires TableValid(db) && me != friendName
    requires FindPair(db.rows, ByName(friendName), ByName(me)) == Some(f) && f.status == PENDING
    ensures var step := HandleByNameSpec(db, users, me, friendName, handleType, now);
            ToLowerAscii(handleType) == ACCEPT ==>
              && step.result == Ok(ToResponse(Approve(f, now)))
              && Approve(f, now) in step.db.rows
              && (exists g :: g in step.db.rows && Links(g, ByName(me), ByName(friendName))
                              && g.status == APPROVED && g.handledType == Some(ACCEPT))
              && forall g :: g in step.db.rows && g.status == PENDING ==> g in db.rows
    ensures var step := HandleByNameSpec(db, users, me, friendName, handleType, now);
            ToLowerAscii(handleType) == REJECT
            && FindUser(users, ByName(me)).Some? && FindUser(users, ByName(friendName)).Some? ==>
              && step.result == Ok(ToResponse(f.(handledAt := Some(now), handledType := Some(REJECT))))
              && step.result.value.status == "pending"
              && forall g :: g in step.db.rows <==>
                   g in db.rows && !(Links(g, ByName(me), ByName(friendName)) || Links(g, ByName(friendName), ByName(me)))
  {
    var a, b := ByName(f.receiver.username), ByName(f.sender.username);
    if ToLowerAscii(handleType) == ACCEPT {
      ApproveBothEffect(db, f, a, b, now);
      var reverse := FindPair(db.rows, a, b);
      if reverse.Some? {
        assert Links(Approve(reverse.value, now), ByName(me), ByName(friendName));
      } else {
        assert Links(ReverseOf(f, db.nextId, now), ByName(me), ByName(friendName));
      }
    } else if ToLowerAscii(handleType) == REJECT && FindUser(users, ByName(me)).Some? && FindUser(users, ByName(friendName)).Some? {
      BetweenExact(db.rows, ByName(me), ByName(friendName), f);
      forall g {
        DeleteBetweenExact(db.rows, ByName(me), ByName(friendName), g);
      }
    }
  }

  /** The id-keyed handleFriendRequest: an unknown id is 404, a request to someone else
    * 403, a handled one 400 and another handle type 400; whatever it throws, the table
    * is left as it was. */
  lemma HandleByIdCases(db: Db, me: int, id: int, handleType: string, now: int)
    ensures var found := FindById(db.rows, id);
            var step := HandleByIdSpec(db, me, id, handleType, now);
            && (found.None? ==> step == Fail(db, 404, MSG_REQUEST_MISSING))
            && (found.Some? && found.value.receiver.id != me ==> step == Fail(db, 403, MSG_NOT_RECEIVER))
            && (found.Some? && found.value.receiver.id == me && found.value.status != PENDING ==>
                  step == Fail(db, 400, MSG_HANDLED))
            && (found.Some? && found.value.receiver.id == me && found.value.status == PENDING
                && ToLowerAscii(handleType) != ACCEPT && ToLowerAscii(handleType) != REJECT ==>
                  step == Fail(db, 400, MSG_BAD_HANDLE_TYPE))
            && (step.result.Err? ==> step.db == db)
  {
  }

  /** Accepting a pending request by id approves it and the row back to its sender. */
  lemma HandleByIdAccepts(db: Db, me: int, id: int, handleType: string, now: int, f: Friendship)
    requires TableValid(db) && ToLowerAscii(handleType) == ACCEPT
    requires FindById(db.rows, id) == Some(f) && f.receiver.id == me && f.status == PENDING && f.sender.id != me
    ensures var step := HandleByIdSpec(db, me, id, handleType, now);
            && step.result == Ok(ToResponse(Approve(f, now)))
            && Approve(f, now) in step.db.rows
            && (exists g :: g in step.db.rows && Links(g, ById(me), ById(f.sender.id))
                            && g.status == APPROVED && g.handledType == Some(ACCEPT))
            && forall g :: g in step.db.rows && g.status == PENDING ==> g in db.rows
  {
    var a, b := ById(f.receiver.id), ById(f.sender.id);
    assert HandleByIdSpec(db, me, id, handleType, now) == Step(ApproveBoth(db, f, a, b, now), Ok(ToResponse(Approve(f, now))));
    ApproveBothEffect(db, f, a, b, now);
    var reverse := FindPair(db.rows, a, b);
    if reverse.Some? {
      assert Links(Approve(reverse.value, now), a, b);
    } else {
      assert Links(ReverseOf(f, db.nextId, now), a, b);
    }
  }

  /** Rejecting a pending request by id keeps the row, now REJECTED, and changes no other
    * row. */
  lemma HandleByIdRejects(db: Db, me: int, id: int, handleType: string, now: int, f: Friendship)
    requires ToLowerAscii(handleType) == REJECT
    requires FindById(db.rows, id) == Some(f) && f.receiver.id == me && f.status == PENDING
    ensures var step := HandleByIdSpec(db, me, id, handleType, now);
            && step.result == Ok(ToResponse(Reject(f, now))) && step.result.value.status == "rejected"
            && |step.db.rows| == |db.rows| && Reject(f, now) in step.db.rows
            && forall i :: 0 <= i < |db.rows| && db.rows[i].id != id ==> step.db.rows[i] == db.rows[i]
  {
    HandleRejectUnfolds(db, me, id, handleType, now, f);
    var k :| 0 <= k < |db.rows| && db.rows[k] == f;
    assert Update(db.rows, Reject(f, now))[k] == Reject(f, now);
  }

  /** Rejecting a pending request by id, written out. */
  lemma HandleRejectUnfolds(db: Db, me: int, id: int, handleType: string, now: int, f: Friendship)
    requires ToLowerAscii(handleType) == REJECT
    requires FindById(db.rows, id) == Some(f) && f.receiver.id == me && f.status == PENDING
    ensures HandleByIdSpec(db, me, id, handleType, now)
            == Step(Db(Update(db.rows, Reject(f, now)), db.nextId), Ok(ToResponse(Reject(f, now))))
  {
    assert ToLowerAscii(handleType) != ACCEPT by {
      assert ToLowerAscii(handleType)[0] != ACCEPT[0];
    }
  }

  /** removeFriend: 404 for an unknown user or friend and when nothing lies between
    * them; otherwise exactly the rows between the two, in both directions, go. Whatever
    * it throws, the table is left as it was. */
  lemma RemoveFriendEffect(db: Db, users: seq<User>, me: Key, friend: Key)
    requires Unique(db.rows)
    ensures var step := RemoveFriendSpec(db, users, me, friend);
            && (FindUser(users, me).None? ==> step == Fail(db, 404, MSG_USER_MISSING))
            && (FindUser(users, me).Some? && FindUser(users, friend).None? ==> step == Fail(db, 404, MSG_FRIEND_MISSING))
            && (FindUser(users, me).Some? && FindUser(users, friend).Some?
                && (forall g :: g in db.rows ==> !(Links(g, me, friend) || Links(g, friend, me))) ==>
                  step == Fail(db, 404, MSG_NO_RELATION))
            && (step.result.Err? ==> step.db == db)
            && (step.result.Ok? ==>
                  && (exists g :: g in db.rows && (Links(g, me, friend) || Links(g, friend, me)))
                  && step.db.nextId == db.nextId
                  && forall g :: g in step.db.rows <==> g in db.rows && !(Links(g, me, friend) || Links(g, friend, me)))
  {
    var between := FindBetween(db.rows, me, friend);
    if |between| > 0 {
      BetweenExact(db.rows, me, friend, between[0]);
    }
    forall g | g in db.rows
      ensures Links(g, me, friend) || Links(g, friend, me) ==> g in between
    {
      BetweenExact(db.rows, me, friend, g);
    }
    forall g {
      DeleteBetweenExact(db.rows, me, friend, g);
    }
  }

  /** cancelFriendRequest succeeds exactly for a pending request the caller sent, and then
    * removes that row and no other; an unknown id is 404, someone else's request 403
    * and a handled one 400. */
  lemma CancelEffect(db: Db, me: Key, id: int)
    ensures var found := FindById(db.rows, id);
            var step := CancelSpec(db, me, id);
            && (found.None? ==> step == Fail(db, 404, MSG_REQUEST_MISSING))
            && (found.Some? && !Is(found.value.sender, me) ==> step == Fail(db, 403, MSG_NOT_SENDER))
            && (found.Some? && Is(found.value.sender, me) && found.value.status != PENDING ==>
                  step == Fail(db, 400, MSG_NOT_PENDING))
            && (step.result.Ok? <==> found.Some? && Is(found.value.sender, me) && found.value.status == PENDING)
            && (step.result.Ok? ==> forall g :: g in step.db.rows <==> g in db.rows && g.id != id)
  {
  }

  // ---------------------------------------------------------------------
  // Every operation keeps the table consistent

  /** Two known users with the same id are the same user. */
  lemma SameUserById(users: seq<User>, u: User, v: User)
    requires UsersUnique(users) && u in users && v in users
    ensures u.id == v.id ==> u == v
  {
    if u.id == v.id {
      SameUserByKey(users, u, v, ById(u.id));
    }
  }

  /** Deleting rows keeps the table consistent. */
  lemma WithoutKeepsConsistent(users: seq<User>, db: Db, ids: set<int>)
    requires Consistent(users, db)
    ensures Consistent(users, Db(Without(db.rows, ids), db.nextId))
  {
    var rows := Without(db.rows, ids);
    UniqueWithout(db.rows, ids);
    forall i | 0 <= i < |rows|
      ensures rows[i].id < db.nextId && rows[i].sender in users && rows[i].receiver in users
    {
      assert rows[i] in db.rows;
    }
  }

  /** Saving a stored row with new status and handling, under the same id and users,
    * keeps the table consistent. */
  lemma UpdateKeepsConsistent(users: seq<User>, db: Db, g: Friendship, h: Friendship)
    requires Consistent(users, db) && g in db.rows
    requires h.id == g.id && h.sender == g.sender && h.receiver == g.receiver
    ensures Consistent(users, Db(Update(db.rows, h), db.nextId))
  {
    forall i | 0 <= i < |db.rows| && db.rows[i].id == h.id
      ensures db.rows[i] == g
    {
      SameIdSameRow(db, db.rows[i], g);
    }
    UniqueUpdate(db.rows, h);
  }

  /** Inserting the approved row back from `a` to `b` for a request `f` from `b` to `a`
    * keeps the table consistent when no row goes from `a` to `b`. */
  lemma AppendReverseKeepsConsistent(users: seq<User>, db: Db, f: Friendship, a: Key, b: Key, now: int)
    requires Consistent(users, db) && f.sender in users && f.receiver in users && Links(f, b, a)
    requires FindPair(db.rows, a, b).None?
    ensures Consistent(users, Db(db.rows + [ReverseOf(f, db.nextId, now)], db.nextId + 1))
  {
    var back := ReverseOf(f, db.nextId, now);
    forall i | 0 <= i < |db.rows|
      ensures (db.rows[i].sender.id, db.rows[i].receiver.id) != (back.sender.id, back.receiver.id)
    {
      var g := db.rows[i];
      SameUserById(users, g.sender, back.sender);
      SameUserById(users, g.receiver, back.receiver);
      assert !Links(g, a, b);
    }
    UniqueAppend(db.rows, back);
  }

  /** The rows after `Update` are those before, with the row of the saved id replaced. */
  lemma KeptByUpdate(rows: seq<Friendship>, h: Friendship, f: Friendship)
    requires f in rows && f.id != h.id
    ensures f in Update(rows, h)
  {
    var i :| 0 <= i < |rows| && rows[i] == f;
    assert Update(rows, h)[i] == f;
  }

  /** The saved row is in the table after `Update` when a row with its id was. */
  lemma SavedByUpdate(rows: seq<Friendship>, h: Friendship, f: Friendship)
    requires f in rows && f.id == h.id
    ensures h in Update(rows, h)
  {
    var i :| 0 <= i < |rows| && rows[i] == f;
    assert Update(rows, h)[i] == h;
  }

  /** Accepting a stored request `f` from `b` to `a` keeps the table consistent. */
  lemma ApproveBothKeepsConsistent(users: seq<User>, db: Db, f: Friendship, a: Key, b: Key, now: int)
    requires Consistent(users, db) && f in db.rows && Links(f, b, a)
    ensures Consistent(users, ApproveBoth(db, f, a, b, now))
  {
    match FindPair(db.rows, a, b)
    case Some(reverse) =>
      var mid := Db(Update(db.rows, Approve(reverse, now)), db.nextId);
      UpdateKeepsConsistent(users, db, reverse, Approve(reverse, now));
      if reverse.id == f.id {
        SameIdSameRow(db, reverse, f);
        SavedByUpdate(db.rows, Approve(reverse, now), reverse);
        UpdateKeepsConsistent(users, mid, Approve(reverse, now), Approve(f, now));
      } else {
        KeptByUpdate(db.rows, Approve(reverse, now), f);
        UpdateKeepsConsistent(users, mid, f, Approve(f, now));
      }
    case None =>
      var mid := Db(db.rows + [ReverseOf(f, db.nextId, now)], db.nextId + 1);
      AppendReverseKeepsConsistent(users, db, f, a, b, now);
      UpdateKeepsConsistent(users, mid, f, Approve(f, now));
  }

  /** acceptExistingRequest on a stored request from `friend` to `me` keeps the table
    * consistent. */
  lemma AcceptExistingKeepsConsistent(users: seq<User>, db: Db, me: Key, friend: Key, request: Friendship, now: int)
    requires Consistent(users, db) && request in db.rows && Links(request, friend, me)
    ensures Consistent(users, AcceptExisting(db, me, friend, request, now).db)
  {
    var mid := Db(Update(db.rows, Approve(request, now)), db.nextId);
    UpdateKeepsConsistent(users, db, request, Approve(request, now));
    match FindPair(mid.rows, me, friend)
    case Some(reverse) =>
      UpdateKeepsConsistent(users, mid, reverse, Approve(reverse, now));
    case None =>
      AppendReverseKeepsConsistent(users, mid, request, me, friend, now);
  }

  /** addFriend past its own-request check keeps the table consistent when the cleared
    * table has no row from `me` to `friend`. */
  lemma AddAfterClearKeepsConsistent(db: Db, cleared: Db, users: seq<User>, me: Key, friend: Key, friendUser: User, now: int)
    requires Consistent(users, db) && Consistent(users, cleared) && friendUser in users && Is(friendUser, friend)
    requires forall g :: g in cleared.rows ==> !Links(g, me, friend)
    ensures Consistent(users, AddAfterClear(db, cleared, users, me, friend, friendUser, now).db)
  {
    var received := FindPair(cleared.rows, friend, me);
    if received.Some? && received.value.status == PENDING {
      AcceptExistingKeepsConsistent(users, cleared, me, friend, received.value, now);
    } else if !(received.Some? && received.value.status == APPROVED) && !ExistsFriendship(cleared.rows, me, friend)
              && FindUser(users, me).Some? {
      var meUser := FindUser(users, me).value;
      var request := Friendship(cleared.nextId, meUser, friendUser, PENDING, now, None, None);
      forall i | 0 <= i < |cleared.rows|
        ensures (cleared.rows[i].sender.id, cleared.rows[i].receiver.id) != (request.sender.id, request.receiver.id)
      {
        var g := cleared.rows[i];
        SameUserById(users, g.sender, meUser);
        SameUserById(users, g.receiver, friendUser);
        assert !Links(g, me, friend);
      }
      UniqueAppend(cleared.rows, request);
    }
  }

  /** addFriend keeps the table consistent. */
  lemma AddFriendKeepsConsistent(db: Db, users: seq<User>, me: Key, friend: Key, now: int)
    requires Consistent(users, db)
    ensures Consistent(users, AddFriendSpec(db, users, me, friend, now).db)
  {
    var mine := FindPair(db.rows, me, friend);
    if me != friend && FindUser(users, friend).Some? && (mine.None? || mine.value.status == REJECTED) {
      var cleared := ClearRejected(db, me, friend);
      if mine.Some? {
        WithoutKeepsConsistent(users, db, {mine.value.id});
      }
      forall g | g in cleared.rows
        ensures !Links(g, me, friend)
      {
        ClearedExact(users, db, me, friend, g);
      }
      AddFriendUnfolds(db, users, me, friend, now);
      AddAfterClearKeepsConsistent(db, cleared, users, me, friend, FindUser(users, friend).value, now);
    }
  }

  /** removeFriend keeps the table consistent. */
  lemma RemoveFriendKeepsConsistent(db: Db, users: seq<User>, me: Key, friend: Key)
    requires Consistent(users, db)
    ensures Consistent(users, RemoveFriendSpec(db, users, me, friend).db)
  {
    WithoutKeepsConsistent(users, db, Ids(FindBetween(db.rows, me, friend)));
  }

  /** cancelFriendRequest keeps the table consistent. */
  lemma CancelKeepsConsistent(db: Db, users: seq<User>, me: Key, id: int)
    requires Consistent(users, db)
    ensures Consistent(users, CancelSpec(db, me, id).db)
  {
    WithoutKeepsConsistent(users, db, {id});
  }

  /** The name-keyed handleFriendRequest keeps the table consistent. */
  lemma HandleByNameKeepsConsistent(db: Db, users: seq<User>, me: string, friendName: string, handleType: string, now: int)
    requires Consistent(users, db)
    ensures Consistent(users, HandleByNameSpec(db, users, me, friendName, handleType, now).db)
  {
    match FindPair(db.rows, ByName(friendName), ByName(me))
    case None =>
    case Some(f) =>
      ApproveBothKeepsConsistent(users, db, f, ByName(f.receiver.username), ByName(f.sender.username), now);
      RemoveFriendKeepsConsistent(db, users, ByName(me), ByName(f.sender.username));
  }

  /** The id-keyed handleFriendRequest keeps the table consistent. */
  lemma HandleByIdKeepsConsistent(db: Db, users: seq<User>, me: int, id: int, handleType: string, now: int)
    requires Consistent(users, db)
    ensures Consistent(users, HandleByIdSpec(db, me, id, handleType, now).db)
  {
    match FindById(db.rows, id)
    case None =>
    case Some(f) =>
      ApproveBothKeepsConsistent(users, db, f, ById(f.receiver.id), ById(f.sender.id), now);
      UpdateKeepsConsistent(users, db, f, Reject(f, now));
  }

  // ---------------------------------------------------------------------
  // Friends counted twice

  /** Accepting a request stores the friendship as two approved rows, one in each
    * direction. The name-keyed friend list reads one id per approved row with the
    * user, so afterwards it counts two friends and lists the sender twice. */
  lemma AcceptedFriendListedTwice(a: User, b: User, now: int)
    requires a.id != b.id && a.username != b.username
    ensures var request := Friendship(1, a, b, PENDING, 0, None, None);
            var after := HandleByNameSpec(Db([request], 2), [a, b], b.username, a.username, ACCEPT, now).db;
            && after.rows == [Approve(request, now), ReverseOf(request, 2, now)]
            && FriendListByNameSpec(after, [a, b], b.username, 0, 10) == Ok(FriendList(2, [FriendOf(a), FriendOf(a)]))
  {
    AcceptStoresBothWays(a, b, now);
    BothWaysListedTwice(a, b, now);
  }

  /** b accepting a's one pending request leaves it approved and the approved row back. */
  lemma AcceptStoresBothWays(a: User, b: User, now: int)
    requires a.id != b.id && a.username != b.username
    ensures var request := Friendship(1, a, b, PENDING, 0, None, None);
            HandleByNameSpec(Db([request], 2), [a, b], b.username, a.username, ACCEPT, now).db
            == Db([Approve(request, now), ReverseOf(request, 2, now)], 3)
  {
    var f := Friendship(1, a, b, PENDING, 0, None, None);
    assert ToLowerAscii(ACCEPT) == ACCEPT;
    assert FindPair([f], ByName(a.username), ByName(b.username)) == Some(f);
    assert FindPair([f], ByName(b.username), ByName(a.username)).None?;
    assert Update([f, ReverseOf(f, 2, now)], Approve(f, now)) == [Approve(f, now), ReverseOf(f, 2, now)];
  }

  /** With an approved row each way between a and b, b's name-keyed friend list counts
    * two and lists a twice. */
  lemma BothWaysListedTwice(a: User, b: User, now: int)
    requires a.id != b.id && a.username != b.username
    ensures var request := Friendship(1, a, b, PENDING, 0, None, None);
            var after := Db([Approve(request, now), ReverseOf(request, 2, now)], 3);
            FriendListByNameSpec(after, [a, b], b.username, 0, 10) == Ok(FriendList(2, [FriendOf(a), FriendOf(a)]))
  {
    var f := Friendship(1, a, b, PENDING, 0, None, None);
    BothWaysIds(a, b, now);
    assert PageOf([a.id, a.id], 0, 10) == [a.id, a.id];
    assert FindUser([a, b], ById(a.id)) == Some(a);
    assert FindUser([a, b], ByName(b.username)) == Some(b);
    var friends := FriendsOf([a, b], [a.id, a.id]);
    assert friends.Ok?;
    assert friends.value == [FriendOf(a), FriendOf(a)];
  }

  /** The friend ids of b over an approved row each way between a and b are a's id
    * twice. */
  lemma BothWaysIds(a: User, b: User, now: int)
    requires a.id != b.id && a.username != b.username
    ensures var request := Friendship(1, a, b, PENDING, 0, None, None);
            FriendIds([Approve(request, now), ReverseOf(request, 2, now)], ByName(b.username)) == [a.id, a.id]
  {
    var f := Friendship(1, a, b, PENDING, 0, None, None);
    var rows := [Approve(f, now), ReverseOf(f, 2, now)];
    var k := ByName(b.username);
    var p := (g: Friendship) => Involves(g, k) && g.status == APPROVED;
    FilterCons(p, rows[1], []);
    FilterCons(p, rows[0], [rows[1]]);
    assert rows == [rows[0]] + [rows[1]];
    assert Approved(rows, k) == rows;
    assert Other(rows[0], k) == a && Other(rows[1], k) == a;
  }

  // ---------------------------------------------------------------------
  // The service

  class FriendService {
    const users: seq<User>
    const table: FriendshipTable

    constructor (users: seq<User>, table: FriendshipTable)
      ensures this.users == users && this.table == table
    {
      this.users := users;
      this.table := table;
    }

    function State(): Db
      reads table
    {
      Db(table.rows, table.nextId)
    }

    method AddFriend(me: Key, friend: Key, now: int) returns (r: Result<FriendshipResponse, BusinessException>)
      modifies table
      ensures Step(State(), r) == AddFriendSpec(old(State()), users, me, friend, now)
    {
      if me == friend {
        return Err(BusinessException(400, MSG_SELF));
      }
      var friendUser := FindUser(users, friend);
      if friendUser.None? {
        return Err(BusinessException(404, MSG_TARGET_MISSING));
      }
      var snapshot := table.rows;
      var mine := FindPair(table.rows, me, friend);
      if mine.Some? {
        match mine.value.status {
          case PENDING => return Err(BusinessException(400, MSG_ALREADY_SENT));
          case APPROVED => return Err(BusinessException(400, MSG_ALREADY_FRIENDS));
          case REJECTED => table.Delete(mine.value.id);
        }
      }
      r := AddNewOrAccept(snapshot, me, friend, friendUser.value, now);
    }

    /** addFriend from its fourth step on; `snapshot` is what a rollback restores. */
    method AddNewOrAccept(snapshot: seq<Friendship>, me: Key, friend: Key, friendUser: User, now: int)
      returns (r: Result<FriendshipResponse, BusinessException>)
      modifies table
      ensures Step(State(), r)
              == AddAfterClear(Db(snapshot, old(table.nextId)), old(State()), users, me, friend, friendUser, now)
    {
      var received := FindPair(table.rows, friend, me);
      if received.Some? {
        if received.value.status == PENDING {
          r := AcceptExistingRequest(me, friend, received.value, now);
          return;
        } else if received.value.status == APPROVED {
          table.Rollback(snapshot);
          return Err(BusinessException(400, MSG_ALREADY_FRIENDS));
        } else if ExistsFriendship(table.rows, me, friend) {
          table.Rollback(snapshot);
          return Err(BusinessException(400, MSG_ALREADY_FRIENDS));
        }
      }
      if ExistsFriendship(table.rows, me, friend) {
        table.Rollback(snapshot);
        return Err(BusinessException(400, MSG_ALREADY_FRIENDS));
      }
      var user := FindUser(users, me);
      if user.None? {
        table.Rollback(snapshot);
        return Err(BusinessException(404, MSG_USER_MISSING));
      }
      var saved := table.Insert(user.value, friendUser, PENDING, now, None, None);
      r := Ok(ToResponse(saved));
    }

    method AcceptExistingRequest(me: Key, friend: Key, request: Friendship, now: int)
      returns (r: Result<FriendshipResponse, BusinessException>)
      modifies table
      ensures Step(State(), r) == AcceptExisting(old(State()), me, friend, request, now)
    {
      var saved := Approve(request, now);
      table.SaveExisting(saved);
      var reverse := FindPair(table.rows, me, friend);
      if reverse.Some? {
        table.SaveExisting(Approve(reverse.value, now));
      } else {
        var created := table.Insert(request.receiver, request.sender, APPROVED, now, Some(now), Some(ACCEPT));
      }
      r := Ok(ToResponse(saved));
    }

    /** The accept branch of both handleFriendRequest variants. */
    method AcceptRequest(f: Friendship, a: Key, b: Key, now: int)
      modifies table
      ensures State() == ApproveBoth(old(State()), f, a, b, now)
    {
      var reverse := FindPair(table.rows, a, b);
      if reverse.Some? {
        table.SaveExisting(Approve(reverse.value, now));
      } else {
        var created := table.Insert(f.receiver, f.sender, APPROVED, now, Some(now), Some(ACCEPT));
      }
      table.SaveExisting(Approve(f, now));
    }

    method HandleFriendRequestByName(me: string, friendName: string, handleType: string, now: int)
      returns (r: Result<FriendshipResponse, BusinessException>)
      modifies table
      ensures Step(State(), r) == HandleByNameSpec(old(State()), users, me, friendName, handleType, now)
    {
      var found := FindPair(table.rows, ByName(friendName), ByName(me));
      if found.None? {
        return Err(BusinessException(404, MSG_REQUEST_MISSING));
      }
      var f := found.value;
      if f.receiver.username != me {
        return Err(BusinessException(403, MSG_NOT_RECEIVER));
      }
      if f.status != PENDING {
        return Err(BusinessException(400, MSG_HANDLED));
      }
      var kind := ToLowerAscii(handleType);
      if kind == ACCEPT {
        AcceptRequest(f, ByName(f.receiver.username), ByName(f.sender.username), now);
        r := Ok(ToResponse(Approve(f, now)));
      } else if kind == REJECT {
        var removed := RemoveFriend(ByName(me), ByName(f.sender.username));
        if removed.Err? {
          return Err(removed.error);
        }
        r := Ok(ToResponse(f.(handledAt := Some(now), handledType := Some(REJECT))));
      } else {
        r := Err(BusinessException(400, MSG_BAD_HANDLE_TYPE));
      }
    }

    method HandleFriendRequestById(me: int, id: int, handleType: string, now: int)
      returns (r: Result<FriendshipResponse, BusinessException>)
      modifies table
      ensures Step(State(), r) == HandleByIdSpec(old(State()), me, id, handleType, now)
    {
      var found := FindById(table.rows, id);
      if found.None? {
        return Err(BusinessException(404, MSG_REQUEST_MISSING));
      }
      var f := found.value;
      if f.receiver.id != me {
        return Err(BusinessException(403, MSG_NOT_RECEIVER));
      }
      if f.status != PENDING {
        return Err(BusinessException(400, MSG_HANDLED));
      }
      var kind := ToLowerAscii(handleType);
      if kind == ACCEPT {
        AcceptRequest(f, ById(f.receiver.id), ById(f.sender.id), now);
        r := Ok(ToResponse(Approve(f, now)));
      } else if kind == REJECT {
        var rejected := Reject(f, now);
        table.SaveExisting(rejected);
        r := Ok(ToResponse(rejected));
      } else {
        r := Err(BusinessException(400, MSG_BAD_HANDLE_TYPE));
      }
    }

    method RemoveFriend(me: Key, friend: Key) returns (r: Result<(), BusinessException>)
      modifies table
      ensures Step(State(), r) == RemoveFriendSpec(old(State()), users, me, friend)
    {
      if FindUser(users, me).None? {
        return Err(BusinessException(404, MSG_USER_MISSING));
      }
      if FindUser(users, friend).None? {
        return Err(BusinessException(404, MSG_FRIEND_MISSING));
      }
      var between := FindBetween(table.rows, me, friend);
      if |between| == 0 {
        return Err(BusinessException(404, MSG_NO_RELATION));
      }
      table.DeleteAll(between);
      r := Ok(());
    }

    method CancelFriendRequest(me: Key, id: int) returns (r: Result<(), BusinessException>)
      modifies table
      ensures Step(State(), r) == CancelSpec(old(State()), me, id)
    {
      var found := FindById(table.rows, id);
      if found.None? {
        return Err(BusinessException(404, MSG_REQUEST_MISSING));
      }
      var f := found.value;
      if !Is(f.sender, me) {
        return Err(BusinessException(403, MSG_NOT_SENDER));
      }
      if f.status != PENDING {
        return Err(BusinessException(400, MSG_NOT_PENDING));
      }
      table.Delete(f.id);
      r := Ok(());
    }
  }
}
