/** Parsed JSON values as the frontend and backend see them after decoding, with the
  * JavaScript conversions the frontend applies to them (truthiness, `||`, `String(...)`).
  * Numbers are integers; the application only copies fractional numbers around. */
module Json {
  import opened Common

  datatype Json =
    | JNull
    | JBool(b: bool)
    | JNum(n: int)
    | JStr(s: string)
    | JArr(items: seq<Json>)
    | JObj(fields: map<string, Json>)

  /** `v.key` (with optional chaining): the member when `v` is an object holding it,
    * `undefined` (None) otherwise. */
  function Get(v: Json, key: string): (r: Option<Json>)
    ensures r.Some? <==> v.JObj? && key in v.fields
  {
    if v.JObj? && key in v.fields then Some(v.fields[key]) else None
  }

  /** `opt?.key` where `opt` may itself be undefined. */
  function GetOpt(v: Option<Json>, key: string): Option<Json> {
    if v.Some? then Get(v.value, key) else None
  }

  /** JavaScript truthiness of a JSON value. */
  predicate Truthy(v: Json) {
    match v
    case JNull => false
    case JBool(b) => b
    case JNum(n) => n != 0
    case JStr(s) => s != ""
    case JArr(_) => true
    case JObj(_) => true
  }

  /** Truthiness of a possibly undefined value. */
  predicate Present(v: Option<Json>) {
    v.Some? && Truthy(v.value)
  }

  /** JavaScript `v || fallback`. */
  function Or(v: Option<Json>, fallback: Json): (r: Json)
    ensures Present(v) ==> r == v.value
    ensures !Present(v) ==> r == fallback
  {
    if Present(v) then v.value else fallback
  }

  /** `Number.isFinite(v) ? v : null` — JSON numbers are always finite. */
  function SafeNumber(v: Option<Json>): (r: Option<int>)
    ensures r.Some? <==> v.Some? && v.value.JNum?
    ensures r.Some? ==> v.value == JNum(r.value)
  {
    if v.Some? && v.value.JNum? then Some(v.value.n) else None
  }

  /** `safeNumber(v) ?? fallback`. */
  function NumberOr(v: Option<Json>, fallback: int): int {
    match SafeNumber(v)
    case Some(n) => n
    case None => fallback
  }

  /** JavaScript `String(v)`. Arrays are joined with ",", null elements contributing
    * nothing; every plain object reads "[object Object]". */
  function JsString(v: Json): string {
    match v
    case JNull => "null"
    case JBool(b) => if b then "true" else "false"
    case JNum(n) => IntToString(n)
    case JStr(s) => s
    case JArr(items) => JoinItems(items)
    case JObj(_) => "[object Object]"
  }

  function JoinItems(items: seq<Json>): string
    decreases items
  {
    if items == [] then ""
    else
      var head := if items[0].JNull? then "" else JsString(items[0]);
      if |items| == 1 then head else head + "," + JoinItems(items[1..])
  }

  /** `String(v ?? '')` for a value that may be undefined. */
  function TextOf(v: Option<Json>): string {
    if v.Some? then JsString(v.value) else ""
  }

  /** `String(v || '')`: the text of a truthy value, and "" for any falsy one. */
  function TextOr(v: Option<Json>): (r: string)
    ensures !Present(v) ==> r == ""
    ensures v.Some? && v.value.JStr? ==> r == v.value.s
  {
    JsString(Or(v, JStr("")))
  }
}
