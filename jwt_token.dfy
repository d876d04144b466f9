/** The token helpers of the backend: the bearer token is taken from the Authorization
  * header, and the userId claim of a parsed token is coerced to a Java `long`.
  *
  * Signing and verifying a token (jjwt) is a foreign call: its outcome, the claims of
  * a well-signed unexpired token or the reason it was refused, is an input here. */
module JwtToken {
  import opened Common
  import opened JavaValue

  /** The scheme prefix of section 2.1 of RFC 6750, with its single space. */
  const BEARER_PREFIX := "Bearer "
  const USER_ID := "userId"
  const MSG_NO_USER_ID := "Token中未找到用户ID"
  const MSG_BAD_USER_ID := "无法解析用户ID"
  const MSG_NO_TOKEN := "未找到Token"
  const MSG_INVALID_TOKEN := "无效的Token"

  /** What the helpers throw: a JwtException with its message, the ExpiredJwtException
    * rethrown from the parser, or the NumberFormatException of Long.parseLong. */
  datatype JwtError = JwtException(message: string) | ExpiredJwt | NumberFormat(text: string)

  /** The claims of a token the parser accepted: the claim map, the subject and the
    * expiration instant (in milliseconds). */
  datatype Claims = Claims(values: map<string, Value>, subject: string, expiration: int)

  /** The outcome of `parseClaimsJws(token)`. */
  datatype Parsed = Accepted(claims: Claims) | Expired | Invalid

  /** `getTokenFromRequest`: the text after the 7-character prefix "Bearer ", or null. */
  function TokenFromHeader(header: Option<string>): (r: Option<string>)
    ensures r.Some? <==> header.Some? && StartsWith(header.value, BEARER_PREFIX)
    ensures r.Some? ==> header.value == BEARER_PREFIX + r.value
  {
    if header.Some? && StartsWith(header.value, BEARER_PREFIX) then
      assert header.value == BEARER_PREFIX + header.value[7..];
      Some(header.value[7..])
    else None
  }

  /** The Authorization header the frontend sends for a token gives that token back. */
  lemma BearerRoundTrip(token: string)
    ensures TokenFromHeader(Some(BEARER_PREFIX + token)) == Some(token)
  {
    assert (BEARER_PREFIX + token)[..7] == BEARER_PREFIX;
    assert (BEARER_PREFIX + token)[7..] == token;
  }

  /** `getClaimsFromToken`: an expired token's exception is rethrown, any other failure
    * becomes JwtException("无效的Token"). */
  function ClaimsOf(p: Parsed): (r: Result<Claims, JwtError>)
    ensures r.Ok? <==> p.Accepted?
    ensures p.Accepted? ==> r.value == p.claims
    ensures p.Expired? ==> r == Err(ExpiredJwt)
    ensures p.Invalid? ==> r == Err(JwtException(MSG_INVALID_TOKEN))
  {
    match p
    case Accepted(c) => Ok(c)
    case Expired => Err(ExpiredJwt)
    case Invalid => Err(JwtException(MSG_INVALID_TOKEN))
  }

  /** The userId claim as a `long`: a Long as it is, an Integer widened, a String parsed;
    * a missing claim and a claim of any other type are JwtExceptions. */
  function CoerceUserId(claim: Value): Result<Int64, JwtError> {
    match claim
    case VNull => Err(JwtException(MSG_NO_USER_ID))
    case VLong(l) => Ok(l)
    case VInt(i) => Ok(i)
    case VString(s) =>
      var n := ParseLong(s);
      if n.Some? then Ok(n.value) else Err(NumberFormat(s))
    case _ => Err(JwtException(MSG_BAD_USER_ID))
  }

  /** `getUserIdFromToken`. */
  function UserIdFromToken(p: Parsed): Result<Int64, JwtError> {
    match ClaimsOf(p)
    case Err(e) => Err(e)
    case Ok(c) => CoerceUserId(Get(c.values, USER_ID))
  }

  /** `getUserIdFromRequest`, for the header and the parser's verdict on each token. */
  function UserIdFromRequest(header: Option<string>, parse: string -> Parsed): Result<Int64, JwtError> {
    match TokenFromHeader(header)
    case None => Err(JwtException(MSG_NO_TOKEN))
    case Some(token) => UserIdFromToken(parse(token))
  }

  /** The claim conversion, case by case. */
  lemma CoerceCases(claim: Value)
    ensures claim.VNull? ==> CoerceUserId(claim) == Err(JwtException(MSG_NO_USER_ID))
    ensures claim.VLong? ==> CoerceUserId(claim) == Ok(claim.l)
    ensures claim.VInt? ==> CoerceUserId(claim) == Ok(claim.i as int)
    ensures claim.VString? ==>
              (CoerceUserId(claim).Ok? <==> ParseLong(claim.s).Some?)
              && (CoerceUserId(claim).Ok? ==> CoerceUserId(claim).value == ParseLong(claim.s).value)
              && (CoerceUserId(claim).Err? ==> CoerceUserId(claim) == Err(NumberFormat(claim.s)))
    ensures claim.VBool? || claim.VList? || claim.VMap? || claim.VOther? ==>
              CoerceUserId(claim) == Err(JwtException(MSG_BAD_USER_ID))
  {
  }

  /** A token without a userId claim (absent or null) is refused. */
  lemma MissingUserIdRefused(c: Claims)
    requires USER_ID !in c.values || c.values[USER_ID] == VNull
    ensures UserIdFromToken(Accepted(c)) == Err(JwtException(MSG_NO_USER_ID))
  {
  }

  /** A user id stored in the token comes back in every form the JSON decoder may give it:
    * a Long, an Integer when it fits in 32 bits, or its decimal text. */
  lemma UserIdRoundTrip(c: Claims, id: Int64)
    requires USER_ID in c.values
    requires c.values[USER_ID] == VLong(id) || (IsInt32(id) && c.values[USER_ID] == VInt(id))
             || c.values[USER_ID] == VString(IntToString(id))
    ensures UserIdFromToken(Accepted(c)) == Ok(id)
  {
    ParseLongRoundTrip(id);
  }

  /** Without a bearer token in the header, the request has no user; otherwise its user
    * is the token's. */
  lemma UserIdFromRequestCases(header: Option<string>, parse: string -> Parsed)
    ensures TokenFromHeader(header).None? ==> UserIdFromRequest(header, parse) == Err(JwtException(MSG_NO_TOKEN))
    ensures header.None? ==> UserIdFromRequest(header, parse) == Err(JwtException(MSG_NO_TOKEN))
    ensures TokenFromHeader(header).Some? ==>
              UserIdFromRequest(header, parse) == UserIdFromToken(parse(header.value[7..]))
  {
  }

  /** `getUsernameFromToken`: the subject. */
  function UsernameFromToken(p: Parsed): Result<string, JwtError> {
    match ClaimsOf(p)
    case Err(e) => Err(e)
    case Ok(c) => Ok(c.subject)
  }

  /** `validateToken(token, user)` at instant `now`: the subject is the user's name and
    * the expiration is not before now. */
  function ValidateToken(p: Parsed, username: string, now: int): Result<bool, JwtError> {
    match UsernameFromToken(p)
    case Err(e) => Err(e)
    case Ok(subject) =>
      var expiration := ClaimsOf(p).value.expiration;
      Ok(subject == username && !(expiration < now))
  }

  /** For a token the parser accepts, validateToken holds exactly when the subject is the
    * user's name and the token has not expired; a token the parser refuses as expired
    * throws instead of giving false, and any other refusal throws "无效的Token". */
  lemma ValidateTokenIff(p: Parsed, username: string, now: int)
    ensures p.Accepted? ==>
              && ValidateToken(p, username, now).Ok?
              && (ValidateToken(p, username, now).value <==>
                    p.claims.subject == username && p.claims.expiration >= now)
    ensures p.Expired? ==> ValidateToken(p, username, now) == Err(ExpiredJwt)
    ensures p.Invalid? ==> ValidateToken(p, username, now) == Err(JwtException(MSG_INVALID_TOKEN))
  {
  }
}
