/** The user accounts of the backend: registration, login, lookups, the last-login stamp
  * and the points ledger. The users table is modelled in memory; password hashing
  * (BCrypt) is a foreign call, given as the functions `encode` and `matches`. */
module UserService {
  import opened Common

  const MSG_NAME_TAKEN := "用户名已存在"
  const MSG_BAD_LOGIN := "账号不存在或密码错误"
  const MSG_DISABLED := "账号已被禁用"
  const MSG_USER_MISSING := "用户不存在"
  const MSG_NO_CHANGE := "pointChange不能为空"
  const DEFAULT_ROLE := "user"

  /** A user row; `points` is a nullable Java Integer, `lastLoginAt` a nullable instant. */
  datatype User = User(id: int, username: string, password: string, role: string,
                       points: Option<Int32>, enabled: bool, lastLoginAt: Option<int>)

  /** The users table and the next identity value. */
  datatype Db = Db(rows: seq<User>, nextId: int)

  datatype Step<T> = Step(db: Db, result: Result<T, BusinessException>)

  function Fail<T>(db: Db, code: int, message: string): Step<T> {
    Step(db, Err(BusinessException(code, message)))
  }

  /** `PointChangeResponse(userId, username, pointBefore, pointChange, pointAfter)`. */
  datatype PointChange = PointChange(userId: int, username: string, before: Int32, change: Int32, after: Int32)

  /** Ids and names are unique and every id was handed out before. */
  predicate Valid(db: Db) {
    forall i, j :: 0 <= i < |db.rows| && 0 <= j < |db.rows| && i != j ==>
      db.rows[i].id != db.rows[j].id && db.rows[i].username != db.rows[j].username
  }

  predicate IdsBelow(db: Db) {
    forall i :: 0 <= i < |db.rows| ==> db.rows[i].id < db.nextId
  }

  // ---------------------------------------------------------------------
  // Lookups

  /** `findByUsername` in the repository: the first row with the name. */
  function ByName(rows: seq<User>, name: string): (r: Option<User>)
    ensures r.Some? ==> r.value in rows && r.value.username == name
    ensures r.None? <==> forall u :: u in rows ==> u.username != name
  {
    if rows == [] then None
    else if rows[0].username == name then Some(rows[0])
    else ByName(rows[1..], name)
  }

  /** `findById` in the repository: the first row with the id. */
  function ById(rows: seq<User>, id: int): (r: Option<User>)
    ensures r.Some? ==> r.value in rows && r.value.id == id
    ensures r.None? <==> forall u :: u in rows ==> u.id != id
  {
    if rows == [] then None
    else if rows[0].id == id then Some(rows[0])
    else ById(rows[1..], id)
  }

  /** `findByUsername(username)` of the service: 404 when absent. */
  function FindByUsername(db: Db, username: string): Result<User, BusinessException> {
    match ByName(db.rows, username)
    case None => Err(BusinessException(404, MSG_USER_MISSING))
    case Some(u) => Ok(u)
  }

  /** `findById(id)` of the service: 404 when absent. */
  function FindById(db: Db, id: int): Result<User, BusinessException> {
    match ById(db.rows, id)
    case None => Err(BusinessException(404, MSG_USER_MISSING))
    case Some(u) => Ok(u)
  }

  /** In a valid table, a row with the name is the one found. */
  lemma FindByUsernameExact(db: Db, username: string)
    requires Valid(db)
    ensures FindByUsername(db, username).Ok? <==> exists u :: u in db.rows && u.username == username
    ensures FindByUsername(db, username).Err? ==> FindByUsername(db, username) == Err(BusinessException(404, MSG_USER_MISSING))
    ensures forall u :: u in db.rows && u.username == username ==> FindByUsername(db, username) == Ok(u)
  {
    forall u | u in db.rows && u.username == username
      ensures FindByUsername(db, username) == Ok(u)
    {
      var found := ByName(db.rows, username).value;
      var i :| 0 <= i < |db.rows| && db.rows[i] == u;
      var j :| 0 <= j < |db.rows| && db.rows[j] == found;
    }
  }

  /** In a valid table, a row with the id is the one found. */
  lemma FindByIdExact(db: Db, id: int)
    requires Valid(db)
    ensures FindById(db, id).Ok? <==> exists u :: u in db.rows && u.id == id
    ensures FindById(db, id).Err? ==> FindById(db, id) == Err(BusinessException(404, MSG_USER_MISSING))
    ensures forall u :: u in db.rows && u.id == id ==> FindById(db, id) == Ok(u)
  {
    forall u | u in db.rows && u.id == id
      ensures FindById(db, id) == Ok(u)
    {
      var found := ById(db.rows, id).value;
      var i :| 0 <= i < |db.rows| && db.rows[i] == u;
      var j :| 0 <= j < |db.rows| && db.rows[j] == found;
    }
  }

  /** The rows after saving user `u` over the row with its id. */
  function Replace(rows: seq<User>, u: User): (r: seq<User>)
    ensures |r| == |rows|
    ensures forall i :: 0 <= i < |rows| ==> r[i] == if rows[i].id == u.id then u else rows[i]
  {
    if rows == [] then [] else [if rows[0].id == u.id then u else rows[0]] + Replace(rows[1..], u)
  }

  // ---------------------------------------------------------------------
  // The operations, as functions of the table

  /** `register(username, password, role)`: a free name gets a new row with the encoded
    * password, the role or 'user', 0 points and the entity's `enabled` default. */
  function RegisterSpec(db: Db, username: string, password: string, role: Option<string>,
                        encode: string -> string, enabledByDefault: bool): Step<User>
  {
    if ByName(db.rows, username).Some? then Fail(db, 400, MSG_NAME_TAKEN)
    else
      var u := User(db.nextId, username, encode(password), if role.Some? then role.value else DEFAULT_ROLE,
                    Some(0), enabledByDefault, None);
      Step(Db(db.rows + [u], db.nextId + 1), Ok(u))
  }

  /** `authenticate(username, password)`. */
  function Authenticate(db: Db, username: string, password: string, matches: (string, string) -> bool)
    : Result<User, BusinessException>
  {
    match ByName(db.rows, username)
    case None => Err(BusinessException(401, MSG_BAD_LOGIN))
    case Some(u) =>
      if !matches(password, u.password) then Err(BusinessException(401, MSG_BAD_LOGIN))
      else if !u.enabled then Err(BusinessException(401, MSG_DISABLED))
      else Ok(u)
  }

  /** `updateLastLogin(userId)` at instant `now`. */
  function UpdateLastLoginSpec(db: Db, userId: int, now: int): Step<()> {
    match FindById(db, userId)
    case Err(e) => Step(db, Err(e))
    case Ok(u) => Step(Db(Replace(db.rows, u.(lastLoginAt := Some(now))), db.nextId), Ok(()))
  }

  /** The stored points, a null read as 0. */
  function PointsOf(u: User): Int32 {
    if u.points.Some? then u.points.value else 0
  }

  /** `changePoints(username, pointChange)`: after = before + change in Java `int`
    * arithmetic. */
  function ChangePointsSpec(db: Db, username: string, change: Option<Int32>): Step<PointChange> {
    if change.None? then Fail(db, 400, MSG_NO_CHANGE)
    else
      match FindByUsername(db, username)
      case Err(e) => Step(db, Err(e))
      case Ok(u) =>
        var after := AddInt32(PointsOf(u), change.value);
        Step(Db(Replace(db.rows, u.(points := Some(after))), db.nextId),
             Ok(PointChange(u.id, u.username, PointsOf(u), change.value, after)))
  }

  // ---------------------------------------------------------------------
  // Properties

  /** A taken name is refused with 400 and nothing stored; a free one adds exactly one
    * row, with a fresh id, the encoded password, role 'user' unless one was given and 0
    * points, which the name then finds; the table stays valid. */
  lemma RegisterEffect(db: Db, username: string, password: string, role: Option<string>,
                       encode: string -> string, enabledByDefault: bool)
    requires Valid(db) && IdsBelow(db)
    ensures var step := RegisterSpec(db, username, password, role, encode, enabledByDefault);
            && (step.result.Err? <==> exists u :: u in db.rows && u.username == username)
            && (step.result.Err? ==> step == Fail(db, 400, MSG_NAME_TAKEN))
            && (step.result.Ok? ==>
                  var u := step.result.value;
                  && step.db.rows == db.rows + [u]
                  && u.id == db.nextId && u.username == username && u.password == encode(password)
                  && u.role == (if role.Some? then role.value else DEFAULT_ROLE)
                  && u.points == Some(0) && u.lastLoginAt.None?
                  && FindByUsername(step.db, username) == Ok(u)
                  && Valid(step.db) && IdsBelow(step.db))
  {
    var step := RegisterSpec(db, username, password, role, encode, enabledByDefault);
    if step.result.Ok? {
      var u := step.result.value;
      assert forall i :: 0 <= i < |db.rows| ==> db.rows[i].id != u.id && db.rows[i].username != u.username by {
        forall i | 0 <= i < |db.rows|
          ensures db.rows[i].id != u.id && db.rows[i].username != u.username
        {
          assert db.rows[i] in db.rows;
        }
      }
      assert Valid(step.db);
      FindByUsernameExact(step.db, username);
    }
  }

  /** An unknown name and a wrong password are indistinguishable (both 401 with the same
    * message); a disabled account is 401 too; otherwise the user row is returned. */
  lemma AuthenticateCases(db: Db, username: string, password: string, matches: (string, string) -> bool)
    ensures var found := ByName(db.rows, username);
            && (found.None? || !matches(password, found.value.password) ==>
                  Authenticate(db, username, password, matches) == Err(BusinessException(401, MSG_BAD_LOGIN)))
            && (found.Some? && matches(password, found.value.password) && !found.value.enabled ==>
                  Authenticate(db, username, password, matches) == Err(BusinessException(401, MSG_DISABLED)))
            && (Authenticate(db, username, password, matches).Ok? <==>
                  found.Some? && matches(password, found.value.password) && found.value.enabled)
            && (Authenticate(db, username, password, matches).Ok? ==>
                  Authenticate(db, username, password, matches).value == found.value)
  {
  }

  /** In a valid table, the row sharing a known user's id is that user, and a row
    * shares its id exactly when it shares its name. */
  lemma OneRowPerUser(db: Db, u: User, i: int)
    requires Valid(db) && u in db.rows && 0 <= i < |db.rows|
    ensures (db.rows[i].id == u.id) == (db.rows[i].username == u.username)
    ensures db.rows[i].id == u.id ==> db.rows[i] == u
  {
    var j :| 0 <= j < |db.rows| && db.rows[j] == u;
  }

  /** In a valid table a row's name finds that row. */
  lemma NameFindsRow(db: Db, u: User)
    requires Valid(db) && u in db.rows
    ensures ByName(db.rows, u.username) == Some(u)
  {
    FindByUsernameExact(db, u.username);
  }

  /** Saving a user over its own row keeps the table valid, and the user's name then
    * finds the saved row. */
  lemma ReplaceKeepsValid(db: Db, u: User, v: User)
    requires Valid(db) && u in db.rows && v.id == u.id && v.username == u.username
    ensures Valid(Db(Replace(db.rows, v), db.nextId))
    ensures ByName(Replace(db.rows, v), u.username) == Some(v)
  {
    var after := Db(Replace(db.rows, v), db.nextId);
    forall i, j | 0 <= i < |after.rows| && 0 <= j < |after.rows| && i != j
      ensures after.rows[i].id != after.rows[j].id && after.rows[i].username != after.rows[j].username
    {
      assert db.rows[i].id != db.rows[j].id && db.rows[i].username != db.rows[j].username;
      OneRowPerUser(db, u, i);
      OneRowPerUser(db, u, j);
    }
    var k :| 0 <= k < |db.rows| && db.rows[k] == u;
    assert after.rows[k] == v;
    FindByUsernameExact(after, u.username);
  }

  /** updateLastLogin changes the user's lastLoginAt and nothing else. */
  lemma UpdateLastLoginEffect(db: Db, userId: int, now: int)
    requires Valid(db)
    ensures var step := UpdateLastLoginSpec(db, userId, now);
            && (ById(db.rows, userId).None? ==> step == Fail(db, 404, MSG_USER_MISSING))
            && (step.result.Ok? ==>
                  && step.db.nextId == db.nextId && |step.db.rows| == |db.rows|
                  && forall i :: 0 <= i < |db.rows| ==>
                       step.db.rows[i] == if db.rows[i].id == userId then db.rows[i].(lastLoginAt := Some(now))
                                          else db.rows[i])
  {
    var step := UpdateLastLoginSpec(db, userId, now);
    if step.result.Ok? {
      var u := ById(db.rows, userId).value;
      forall i | 0 <= i < |db.rows|
        ensures db.rows[i].id == userId ==> db.rows[i] == u
      {
        OneRowPerUser(db, u, i);
      }
    }
  }

  /** A null change is 400 and an unknown name 404, both leaving the table as it was;
    * otherwise the user's points become before + change (in Java `int` arithmetic,
    * exact while no overflow), no other row changes, and the response carries the
    * user, before, change and after. */
  lemma ChangePointsEffect(db: Db, username: string, change: Option<Int32>)
    requires Valid(db)
    ensures var step := ChangePointsSpec(db, username, change);
            && (change.None? ==> step == Fail(db, 400, MSG_NO_CHANGE))
            && (change.Some? && ByName(db.rows, username).None? ==> step == Fail(db, 404, MSG_USER_MISSING))
            && (step.result.Ok? ==>
                  var u := ByName(db.rows, username).value;
                  var pc := step.result.value;
                  && pc == PointChange(u.id, username, PointsOf(u), change.value, pc.after)
                  && pc.after == AddInt32(PointsOf(u), change.value)
                  && (IsInt32(PointsOf(u) + change.value) ==> pc.after == PointsOf(u) + change.value)
                  && step.db.nextId == db.nextId && |step.db.rows| == |db.rows|
                  && forall i :: 0 <= i < |db.rows| ==>
                       step.db.rows[i] == if db.rows[i].username == username then u.(points := Some(pc.after))
                                          else db.rows[i])
  {
    var step := ChangePointsSpec(db, username, change);
    if step.result.Ok? {
      var u := ByName(db.rows, username).value;
      forall i | 0 <= i < |db.rows|
        ensures (db.rows[i].id == u.id) == (db.rows[i].username == username)
      {
        OneRowPerUser(db, u, i);
      }
    }
  }

  /** changePoints for a user the name finds. */
  lemma ChangePointsFound(db: Db, username: string, u: User, change: Int32)
    requires ByName(db.rows, username) == Some(u)
    ensures ChangePointsSpec(db, username, Some(change))
            == Step(Db(Replace(db.rows, u.(points := Some(AddInt32(PointsOf(u), change)))), db.nextId),
                    Ok(PointChange(u.id, u.username, PointsOf(u), change, AddInt32(PointsOf(u), change))))
  {
  }

  /** changePoints for a row of a valid table. */
  lemma ChangePointsOfRow(db: Db, u: User, change: Int32)
    requires Valid(db) && u in db.rows
    ensures ChangePointsSpec(db, u.username, Some(change))
            == Step(Db(Replace(db.rows, u.(points := Some(AddInt32(PointsOf(u), change)))), db.nextId),
                    Ok(PointChange(u.id, u.username, PointsOf(u), change, AddInt32(PointsOf(u), change))))
  {
    NameFindsRow(db, u);
    ChangePointsFound(db, u.username, u, change);
  }

  /** Adding a change and then its negation gives the start back, without overflow. */
  lemma AddThenSubtract(a: Int32, c: Int32)
    requires IsInt32(a + c) && IsInt32(-(c as int))
    ensures AddInt32(a, c) == a + c && AddInt32(AddInt32(a, c), -c) == a
  {
  }

  /** Taking back a change restores the points (a null count becoming 0), as long as
    * neither step overflows. */
  lemma ChangePointsUndo(db: Db, username: string, change: Int32)
    requires ByName(db.rows, username).Some? && IsInt32(-(change as int))
    requires IsInt32(PointsOf(ByName(db.rows, username).value) + change)
    ensures var first := ChangePointsSpec(db, username, Some(change));
            var second := ChangePointsSpec(first.db, username, Some(-change));
            && second.result.Ok?
            && ByName(second.db.rows, username).Some?
            && PointsOf(ByName(second.db.rows, username).value) == PointsOf(ByName(db.rows, username).value)
  {
    var u := ByName(db.rows, username).value;
    ChangePointsTwice(db, username, u, change, -change);
    AddThenSubtract(PointsOf(u), change);
  }

  /** Two changes in a row: both succeed and the name finds the row with the two
    * changes added in turn. */
  lemma ChangePointsTwice(db: Db, username: string, u: User, a: Int32, b: Int32)
    requires ByName(db.rows, username) == Some(u)
    ensures var first := ChangePointsSpec(db, username, Some(a));
            var second := ChangePointsSpec(first.db, username, Some(b));
            && second.result.Ok?
            && ByName(second.db.rows, username) == Some(u.(points := Some(AddInt32(AddInt32(PointsOf(u), a), b))))
  {
    var v := u.(points := Some(AddInt32(PointsOf(u), a)));
    ChangePointsFound(db, username, u, a);
    var first := Db(Replace(db.rows, v), db.nextId);
    ReplaceFinds(db.rows, u, v);
    var w := v.(points := Some(AddInt32(PointsOf(v), b)));
    ChangePointsFound(first, username, v, b);
    ReplaceFinds(first.rows, v, w);
  }

  /** Replacing the row a name finds by one with the same id and name: the name then
    * finds the new row. */
  lemma {:induction false} ReplaceFinds(rows: seq<User>, u: User, v: User)
    requires ByName(rows, u.username) == Some(u) && v.id == u.id && v.username == u.username
    ensures ByName(Replace(rows, v), u.username) == Some(v)
  {
    if rows[0].username != u.username {
      ReplaceFinds(rows[1..], u, v);
      assert Replace(rows, v)[1..] == Replace(rows[1..], v);
    }
  }

  // ---------------------------------------------------------------------
  // The service over its table

  class UserStore {
    var rows: seq<User>
    var nextId: int

    constructor (initial: Db)
      ensures State() == initial
    {
      rows := initial.rows;
      nextId := initial.nextId;
    }

    function State(): Db
      reads this
    {
      Db(rows, nextId)
    }

    method Register(username: string, password: string, role: Option<string>,
                    encode: string -> string, enabledByDefault: bool)
      returns (r: Result<User, BusinessException>)
      modifies this
      ensures Step(State(), r) == RegisterSpec(old(State()), username, password, role, encode, enabledByDefault)
    {
      if ByName(rows, username).Some? {
        return Err(BusinessException(400, MSG_NAME_TAKEN));
      }
      var u := User(nextId, username, encode(password), if role.Some? then role.value else DEFAULT_ROLE,
                    Some(0), enabledByDefault, None);
      rows := rows + [u];
      nextId := nextId + 1;
      return Ok(u);
    }

    method UpdateLastLogin(userId: int, now: int) returns (r: Result<(), BusinessException>)
      modifies this
      ensures Step(State(), r) == UpdateLastLoginSpec(old(State()), userId, now)
    {
      var found := FindById(State(), userId);
      if found.Err? {
        return Err(found.error);
      }
      var u := found.value.(lastLoginAt := Some(now));
      rows := Replace(rows, u);
      return Ok(());
    }

    method ChangePoints(username: string, change: Option<Int32>) returns (r: Result<PointChange, BusinessException>)
      modifies this
      ensures Step(State(), r) == ChangePointsSpec(old(State()), username, change)
    {
      if change.None? {
        return Err(BusinessException(400, MSG_NO_CHANGE));
      }
      var found := FindByUsername(State(), username);
      if found.Err? {
        return Err(found.error);
      }
      var u := found.value;
      var before := PointsOf(u);
      var after := AddInt32(before, change.value);
      rows := Replace(rows, u.(points := Some(after)));
      return Ok(PointChange(u.id, u.username, before, change.value, after));
    }
  }
}
