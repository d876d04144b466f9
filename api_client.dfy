/** The HTTP client every API call goes through: the backend's `{ code, message, data }`
  * envelope is unpacked, the stored token is attached to each request, and a failed
  * response becomes an ApiError (clearing the login state on 401 and 403). */
module ApiClient {
  import opened Common
  import opened Json
  import AuthStorage

  const MSG_BAD_FORMAT := "响应格式不正确"
  const MSG_REQUEST_FAILED := "请求失败"
  const AUTHORIZATION := "Authorization"
  const BEARER := "Bearer "

  /** `new ApiError(message, { httpStatus, code, details })`. */
  datatype ApiError = ApiError(message: string, httpStatus: Option<int>, code: Option<Json>, details: Option<Json>)

  /** The envelope's code when it is a number (`typeof code === 'number'`). */
  function NumericCode(resp: Option<Json>): (r: Option<int>)
    ensures r.Some? ==> Present(resp) && Get(resp.value, "code") == Some(JNum(r.value))
  {
    if Present(resp) && Get(resp.value, "code").Some? && Get(resp.value, "code").value.JNum? then
      Some(Get(resp.value, "code").value.n)
    else None
  }

  /** `unwrapApiResponse(apiResponse)`: the data of a 2xx envelope, an error otherwise. */
  function UnwrapApiResponse(resp: Option<Json>): (r: Result<Option<Json>, ApiError>)
  {
    match NumericCode(resp)
    case None => Err(ApiError(MSG_BAD_FORMAT, None, None, resp))
    case Some(code) =>
      if 200 <= code < 300 then Ok(Get(resp.value, "data"))
      else Err(ApiError(JsString(Or(Get(resp.value, "message"), JStr(MSG_REQUEST_FAILED))), None, Some(JNum(code)), resp))
  }

  /** A missing or falsy envelope, or one whose code is not a number, is a format error;
    * a code from 200 to 299 gives the data unchanged; any other code is an error that
    * carries the code, the envelope and its message (or '请求失败'). */
  lemma UnwrapCases(resp: Option<Json>)
    ensures UnwrapApiResponse(resp).Ok? <==> NumericCode(resp).Some? && 200 <= NumericCode(resp).value < 300
    ensures !Present(resp) ==> UnwrapApiResponse(resp) == Err(ApiError(MSG_BAD_FORMAT, None, None, resp))
    ensures Present(resp) && (Get(resp.value, "code").None? || !Get(resp.value, "code").value.JNum?) ==>
              UnwrapApiResponse(resp) == Err(ApiError(MSG_BAD_FORMAT, None, None, resp))
    ensures UnwrapApiResponse(resp).Ok? ==> UnwrapApiResponse(resp).value == Get(resp.value, "data")
    ensures NumericCode(resp).Some? && !(200 <= NumericCode(resp).value < 300) ==>
              var e := UnwrapApiResponse(resp).error;
              && e.code == Some(JNum(NumericCode(resp).value)) && e.details == resp && e.httpStatus.None?
              && (Present(Get(resp.value, "message")) ==> e.message == JsString(resp.value.fields["message"]))
              && (!Present(Get(resp.value, "message")) ==> e.message == MSG_REQUEST_FAILED)
  {
  }

  /** The envelope the backend builds for a success (a 2xx code with message and data)
    * unwraps to exactly its data. */
  lemma UnwrapSuccessEnvelope(code: int, message: Json, data: Json)
    requires 200 <= code < 300
    ensures UnwrapApiResponse(Some(JObj(map["code" := JNum(code), "message" := message, "data" := data]))) == Ok(Some(data))
  {
    var env := JObj(map["code" := JNum(code), "message" := message, "data" := data]);
    assert Get(env, "code") == Some(JNum(code));
    assert Get(env, "data") == Some(data);
  }

  /** An error envelope never unwraps to data: the caller sees its code and message. */
  lemma UnwrapErrorEnvelope(code: int, message: string, data: Json)
    requires !(200 <= code < 300) && message != ""
    ensures UnwrapApiResponse(Some(JObj(map["code" := JNum(code), "message" := JStr(message), "data" := data])))
            == Err(ApiError(message, None, Some(JNum(code)),
                            Some(JObj(map["code" := JNum(code), "message" := JStr(message), "data" := data]))))
  {
    var env := JObj(map["code" := JNum(code), "message" := JStr(message), "data" := data]);
    assert Get(env, "code") == Some(JNum(code));
    assert Get(env, "message") == Some(JStr(message));
  }

  // ---------------------------------------------------------------------
  // Interceptors

  /** The Authorization header value for a stored token; none for ''. */
  function AuthorizationFor(token: string): (r: Option<string>)
    ensures r.Some? <==> token != ""
    ensures r.Some? ==> StartsWith(r.value, BEARER) && r.value[|BEARER|..] == token
  {
    if token != "" then Some(BEARER + token) else None
  }

  /** A request configuration; axios may hand it over without a headers object. */
  class RequestConfig {
    var headers: Option<map<string, string>>

    constructor (headers: Option<map<string, string>>)
      ensures this.headers == headers
    {
      this.headers := headers;
    }
  }

  /** The request interceptor: with a stored token the Authorization header is set to
    * 'Bearer ' + token (creating the headers object if needed); without one the
    * configuration is left alone. */
  method InterceptRequest(config: RequestConfig, ls: AuthStorage.LocalStorage)
    modifies config
    ensures AuthStorage.GetToken(ls) == "" ==> config.headers == old(config.headers)
    ensures AuthStorage.GetToken(ls) != "" ==>
              config.headers == Some((if old(config.headers).Some? then old(config.headers).value else map[])
                                     [AUTHORIZATION := BEARER + AuthStorage.GetToken(ls)])
  {
    var token := AuthStorage.GetToken(ls);
    if token != "" {
      var headers := if config.headers.Some? then config.headers.value else map[];
      config.headers := Some(headers[AUTHORIZATION := BEARER + token]);
    }
  }

  /** A status that ends the login state. */
  predicate EndsSession(status: Option<int>) {
    status == Some(401) || status == Some(403)
  }

  /** `apiBody?.message || error?.message || (httpStatus ? '请求失败（HTTP n）' : '请求失败')`,
    * as the ApiError's message text. */
  function ErrorMessage(status: Option<int>, body: Option<Json>, errorMessage: Option<Json>): Json {
    Or(GetOpt(body, "message"), Or(errorMessage,
       JStr(if status.Some? && status.value != 0 then "请求失败（HTTP " + IntToString(status.value) + "）"
            else MSG_REQUEST_FAILED)))
  }

  /** The message is taken from the first of: the body's message, the error's own
    * message, the HTTP status, and the fixed text. */
  lemma ErrorMessageOrder(status: Option<int>, body: Option<Json>, errorMessage: Option<Json>)
    ensures Present(GetOpt(body, "message")) ==> ErrorMessage(status, body, errorMessage) == GetOpt(body, "message").value
    ensures !Present(GetOpt(body, "message")) && Present(errorMessage) ==>
              ErrorMessage(status, body, errorMessage) == errorMessage.value
    ensures !Present(GetOpt(body, "message")) && !Present(errorMessage) && status.Some? && status.value != 0 ==>
              ErrorMessage(status, body, errorMessage) == JStr("请求失败（HTTP " + IntToString(status.value) + "）")
    ensures !Present(GetOpt(body, "message")) && !Present(errorMessage) && (status.None? || status.value == 0) ==>
              ErrorMessage(status, body, errorMessage) == JStr(MSG_REQUEST_FAILED)
    ensures Truthy(ErrorMessage(status, body, errorMessage))
  {
  }

  /** The response error interceptor: 401 and 403 clear the login state (any other status
    * leaves storage alone), and the rejection is an ApiError with the chosen message,
    * the status, the body's code and the body. */
  method InterceptResponseError(status: Option<int>, body: Option<Json>, errorMessage: Option<Json>,
                                ls: AuthStorage.LocalStorage) returns (e: ApiError)
    modifies ls
    ensures EndsSession(status) ==> ls.items == AuthStorage.AfterClear(old(ls.items))
    ensures !EndsSession(status) ==> ls.items == old(ls.items)
    ensures e == ApiError(JsString(ErrorMessage(status, body, errorMessage)), status, GetOpt(body, "code"), body)
  {
    if EndsSession(status) {
      AuthStorage.ClearAuth(ls);
    }
    e := ApiError(JsString(ErrorMessage(status, body, errorMessage)), status, GetOpt(body, "code"), body);
  }
}
