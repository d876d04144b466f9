/** The login state kept in the browser's localStorage under two keys: the JWT token
  * (plain text) and the auth object (JSON text).
  *
  * A stored item is either plain text or the text `JSON.stringify(v)` produced for a
  * value `v`; `JSON.parse` gives `v` back for the latter, and any plain text at the
  * auth key counts as text `JSON.parse` rejects. */
module AuthStorage {
  import opened Common
  import opened Json

  const TOKEN_KEY := "campusguess.token"
  const AUTH_KEY := "campusguess.auth"

  datatype Item = Text(s: string) | JsonText(v: Json)

  type Items = map<string, Item>

  /** What this module writes at the token key is plain text. */
  predicate TokenIsText(items: Items) {
    TOKEN_KEY in items ==> items[TOKEN_KEY].Text?
  }

  // ---------------------------------------------------------------------
  // The storage after each operation, and what the getters read

  /** `getToken()`: the stored token, or '' when there is none. */
  function TokenOf(items: Items): (r: string)
    ensures TOKEN_KEY !in items ==> r == ""
    ensures TOKEN_KEY in items && items[TOKEN_KEY].Text? ==> r == items[TOKEN_KEY].s
  {
    if TOKEN_KEY in items && items[TOKEN_KEY].Text? then items[TOKEN_KEY].s else ""
  }

  /** `getAuth()`: the parsed auth object; null (None) when the item is missing, empty
    * or does not parse. */
  function AuthOf(items: Items): (r: Option<Json>)
    ensures r.Some? <==> AUTH_KEY in items && items[AUTH_KEY].JsonText?
    ensures r.Some? ==> r.value == items[AUTH_KEY].v
  {
    if AUTH_KEY in items && items[AUTH_KEY].JsonText? then Some(items[AUTH_KEY].v) else None
  }

  /** `getCurrentUserInfo()`: `auth?.userInfo ?? null`, null and undefined both None. */
  function CurrentUserInfo(items: Items): (r: Option<Json>)
    ensures r.Some? ==> r.value != JNull && GetOpt(AuthOf(items), "userInfo") == r
    ensures GetOpt(AuthOf(items), "userInfo").Some? && GetOpt(AuthOf(items), "userInfo").value != JNull ==>
              r == GetOpt(AuthOf(items), "userInfo")
  {
    var u := GetOpt(AuthOf(items), "userInfo");
    if u.Some? && u.value != JNull then u else None
  }

  /** `auth?.userInfo?.username`. */
  function Username(auth: Option<Json>): Option<Json> {
    GetOpt(GetOpt(auth, "userInfo"), "username")
  }

  /** `name || auth?.userInfo?.username || ''`. */
  function DisplayNameOr(name: Option<Json>, auth: Option<Json>): (r: Json)
    ensures Present(name) ==> r == name.value
    ensures !Present(name) && Present(Username(auth)) ==> r == Username(auth).value
    ensures !Present(name) && !Present(Username(auth)) ==> r == JStr("")
  {
    Or(name, Or(Username(auth), JStr("")))
  }

  /** `getDisplayName()`. */
  function DisplayNameOf(items: Items): Json {
    DisplayNameOr(GetOpt(AuthOf(items), "displayName"), AuthOf(items))
  }

  /** `setToken(token)`: a falsy token removes the key; anything else is stored as text. */
  function AfterSetToken(items: Items, token: Option<Json>): (r: Items)
  {
    if !Present(token) then items - {TOKEN_KEY} else items[TOKEN_KEY := Text(JsString(token.value))]
  }

  /** `clearAuth()`. */
  function AfterClear(items: Items): (r: Items)
  {
    items - {TOKEN_KEY, AUTH_KEY}
  }

  /** The members `{...v}` copies; only objects are modelled as having any. */
  function Spread(v: Json): map<string, Json> {
    if v.JObj? then v.fields else map[]
  }

  /** The object setAuth stores: the given one with displayName defaulted. */
  function Normalized(auth: Json): (r: Json)
    ensures r.JObj? && "displayName" in r.fields
  {
    JObj(Spread(auth)["displayName" := DisplayNameOr(Get(auth, "displayName"), Some(auth))])
  }

  /** `setAuth(auth)`. */
  function AfterSetAuth(items: Items, auth: Option<Json>): (r: Items)
  {
    if !Present(GetOpt(auth, "token")) then AfterClear(items)
    else
      var n := Normalized(auth.value);
      AfterSetToken(items, Get(n, "token"))[AUTH_KEY := JsonText(n)]
  }

  /** `setDisplayName(name)`. */
  function AfterSetDisplayName(items: Items, name: Option<Json>): (r: Items)
  {
    var auth := AuthOf(items);
    if !Present(auth) then items
    else items[AUTH_KEY := JsonText(JObj(Spread(auth.value)["displayName" := DisplayNameOr(name, auth)]))]
  }

  // ---------------------------------------------------------------------
  // Properties

  /** setToken('') (or any falsy token) removes the token so getToken reads ''; any
    * other token is what getToken reads next. No other key changes. */
  lemma SetTokenRoundTrip(items: Items, token: Option<Json>, k: string)
    requires k != TOKEN_KEY
    ensures !Present(token) ==> TOKEN_KEY !in AfterSetToken(items, token) && TokenOf(AfterSetToken(items, token)) == ""
    ensures Present(token) ==> TokenOf(AfterSetToken(items, token)) == JsString(token.value)
    ensures token.Some? && token.value.JStr? && token.value.s != "" ==>
              TokenOf(AfterSetToken(items, token)) == token.value.s
    ensures (k in AfterSetToken(items, token) <==> k in items)
            && (k in items ==> AfterSetToken(items, token)[k] == items[k])
  {
  }

  /** clearAuth removes both keys and nothing else. */
  lemma ClearRemovesOnlyAuthKeys(items: Items, k: string)
    ensures TOKEN_KEY !in AfterClear(items) && AUTH_KEY !in AfterClear(items)
    ensures TokenOf(AfterClear(items)) == "" && AuthOf(AfterClear(items)).None?
    ensures k != TOKEN_KEY && k != AUTH_KEY ==>
              (k in AfterClear(items) <==> k in items) && (k in items ==> AfterClear(items)[k] == items[k])
  {
  }

  /** setAuth without a token is clearAuth. */
  lemma SetAuthWithoutTokenClears(items: Items, auth: Option<Json>)
    requires !Present(GetOpt(auth, "token"))
    ensures AfterSetAuth(items, auth) == AfterClear(items)
  {
  }

  /** After setAuth with a token, getToken reads that token, getAuth reads back the
    * object stored (the given one with its display name defaulted) and getDisplayName
    * the given name, else the user name, else ''. */
  lemma SetAuthRoundTrip(items: Items, auth: Json)
    requires Present(Get(auth, "token"))
    ensures TokenOf(AfterSetAuth(items, Some(auth))) == JsString(auth.fields["token"])
    ensures AuthOf(AfterSetAuth(items, Some(auth))) == Some(Normalized(auth))
    ensures Get(Normalized(auth), "token") == Get(auth, "token")
    ensures Get(Normalized(auth), "userInfo") == Get(auth, "userInfo")
    ensures DisplayNameOf(AfterSetAuth(items, Some(auth))) == DisplayNameOr(Get(auth, "displayName"), Some(auth))
  {
    var n := Normalized(auth);
    assert Get(n, "token") == Get(auth, "token");
    var after := AfterSetAuth(items, Some(auth));
    assert AuthOf(after) == Some(n);
    assert GetOpt(Some(n), "displayName") == Some(DisplayNameOr(Get(auth, "displayName"), Some(auth)));
    assert Username(Some(n)) == Username(Some(auth));
  }

  /** setDisplayName does nothing without a stored auth object; otherwise it stores the
    * name (an empty one falling back to the user name) and leaves the token alone. */
  lemma SetDisplayNameEffect(items: Items, name: Option<Json>)
    ensures !Present(AuthOf(items)) ==> AfterSetDisplayName(items, name) == items
    ensures TokenOf(AfterSetDisplayName(items, name)) == TokenOf(items)
    ensures Present(AuthOf(items)) ==>
              && GetOpt(AuthOf(AfterSetDisplayName(items, name)), "displayName") == Some(DisplayNameOr(name, AuthOf(items)))
              && (AuthOf(items).value.JObj? ==>
                    Username(AuthOf(AfterSetDisplayName(items, name))) == Username(AuthOf(items)))
  {
  }

  /** Every operation keeps plain text at the token key. */
  lemma OperationsKeepTokenText(items: Items, token: Option<Json>, auth: Option<Json>, name: Option<Json>)
    requires TokenIsText(items)
    ensures TokenIsText(AfterSetToken(items, token))
    ensures TokenIsText(AfterClear(items))
    ensures TokenIsText(AfterSetAuth(items, auth))
    ensures TokenIsText(AfterSetDisplayName(items, name))
  {
  }

  // ---------------------------------------------------------------------
  // The storage object and the module's functions over it

  class LocalStorage {
    var items: Items

    constructor (initial: Items)
      ensures items == initial
    {
      items := initial;
    }
  }

  function GetToken(ls: LocalStorage): (r: string)
    reads ls
  {
    TokenOf(ls.items)
  }

  function GetAuth(ls: LocalStorage): (r: Option<Json>)
    reads ls
  {
    AuthOf(ls.items)
  }

  function GetCurrentUserInfo(ls: LocalStorage): (r: Option<Json>)
    reads ls
  {
    CurrentUserInfo(ls.items)
  }

  function GetDisplayName(ls: LocalStorage): (r: Json)
    reads ls
  {
    DisplayNameOf(ls.items)
  }

  method SetToken(ls: LocalStorage, token: Option<Json>)
    modifies ls
    ensures ls.items == AfterSetToken(old(ls.items), token)
  {
    if !Present(token) {
      ls.items := ls.items - {TOKEN_KEY};
      return;
    }
    ls.items := ls.items[TOKEN_KEY := Text(JsString(token.value))];
  }

  method ClearAuth(ls: LocalStorage)
    modifies ls
    ensures ls.items == AfterClear(old(ls.items))
  {
    ls.items := ls.items - {TOKEN_KEY};
    ls.items := ls.items - {AUTH_KEY};
  }

  method SetAuth(ls: LocalStorage, auth: Option<Json>)
    modifies ls
    ensures ls.items == AfterSetAuth(old(ls.items), auth)
  {
    if !Present(GetOpt(auth, "token")) {
      ClearAuth(ls);
      return;
    }
    var normalized := Normalized(auth.value);
    SetToken(ls, Get(normalized, "token"));
    ls.items := ls.items[AUTH_KEY := JsonText(normalized)];
  }

  method SetDisplayName(ls: LocalStorage, name: Option<Json>)
    modifies ls
    ensures ls.items == AfterSetDisplayName(old(ls.items), name)
  {
    var auth := GetAuth(ls);
    if !Present(auth) {
      return;
    }
    var next := JObj(Spread(auth.value)["displayName" := DisplayNameOr(name, auth)]);
    ls.items := ls.items[AUTH_KEY := JsonText(next)];
  }
}
