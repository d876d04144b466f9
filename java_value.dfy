/** The Java objects the backend finds in a decoded JSON document (a Jackson map or a
  * jjwt claim set), and the few `java.lang` operations applied to them. */
module JavaValue {
  import opened Common

  datatype Value =
    | VNull
    | VBool(b: bool)              // java.lang.Boolean
    | VInt(i: Int32)              // java.lang.Integer
    | VLong(l: Int64)             // java.lang.Long
    | VString(s: string)          // java.lang.String
    | VList(items: seq<Value>)    // java.util.List
    | VMap(entries: map<string, Value>)  // java.util.Map with string keys
    | VOther(text: string)        // an object of any other class, by its toString()

  /** `m.get(k)`: null both for a missing key and for a key mapped to null. */
  function Get(m: map<string, Value>, k: string): (r: Value)
    ensures k !in m ==> r == VNull
    ensures k in m ==> r == m[k]
  {
    if k in m then m[k] else VNull
  }

  /** `o.toString()` for the classes whose text is part of this model; null has no text
    * (the call would throw), and the text of a list or map is not modelled. */
  function ToText(v: Value): (r: Option<string>)
    ensures v.VString? ==> r == Some(v.s)
    ensures v.VNull? || v.VList? || v.VMap? ==> r.None?
  {
    match v
    case VNull => None
    case VBool(b) => Some(if b then "true" else "false")
    case VInt(i) => Some(IntToString(i))
    case VLong(l) => Some(IntToString(l))
    case VString(s) => Some(s)
    case VList(_) => None
    case VMap(_) => None
    case VOther(text) => Some(text)
  }

  /** `Boolean.parseBoolean(s)`: true exactly for "true" in any letter case. The only
    * letters of "true" have no non-ASCII case partners, so lowering ASCII letters
    * decides `equalsIgnoreCase` here. */
  predicate ParseBoolean(s: string) {
    ToLowerAscii(s) == "true"
  }

  lemma ParseBooleanExamples()
    ensures ParseBoolean("true") && ParseBoolean("TRUE") && ParseBoolean("True")
    ensures !ParseBoolean("") && !ParseBoolean("yes") && !ParseBoolean("1") && !ParseBoolean(" true")
  {
    assert ToLowerAscii("TRUE") == "true";
    assert ToLowerAscii("True") == "true";
    assert ToLowerAscii("yes")[0] == 'y';
    assert ToLowerAscii("1")[0] == '1';
    assert ToLowerAscii(" true")[0] == ' ';
  }
}
