/** The image host client: `fetchImageByKey` asks the host for its image list and picks
  * the entry with the given key. The HTTP exchange is an input: it threw, or it gave a
  * body (possibly none). */
module ImageClient {
  import opened Common
  import opened JavaValue

  datatype Reply = Threw | Responded(body: Option<map<string, Value>>)

  /** The `status` member read as a flag: a Boolean as it is, a String through
    * Boolean.parseBoolean, anything else false. */
  predicate StatusOk(body: map<string, Value>) {
    match Get(body, "status")
    case VBool(b) => b
    case VString(s) => ParseBoolean(s)
    case _ => false
  }

  /** The value expected to hold the image list: `data`, or `data.data` when `data` is a
    * map with a non-null `data` member. */
  function ListValue(body: map<string, Value>): (r: Value)
    ensures Get(body, "data").VMap? && Get(Get(body, "data").entries, "data") != VNull ==>
              r == Get(Get(body, "data").entries, "data")
    ensures !(Get(body, "data").VMap? && Get(Get(body, "data").entries, "data") != VNull) ==> r == Get(body, "data")
  {
    var data := Get(body, "data");
    if data.VMap? && Get(data.entries, "data") != VNull then Get(data.entries, "data") else data
  }

  /** The element matches when it is a map whose `key` is non-null and reads as `key`. */
  predicate Matches(v: Value, key: string) {
    v.VMap? && Get(v.entries, "key") != VNull && ToText(Get(v.entries, "key")) == Some(key)
  }

  /** The first matching element of the list. */
  function FirstMatch(items: seq<Value>, key: string): (r: Option<map<string, Value>>)
    ensures r.None? <==> forall i :: 0 <= i < |items| ==> !Matches(items[i], key)
    ensures r.Some? ==> exists i :: 0 <= i < |items| && items[i] == VMap(r.value) && Matches(items[i], key)
                                    && forall j :: 0 <= j < i ==> !Matches(items[j], key)
  {
    if items == [] then None
    else if Matches(items[0], key) then Some(items[0].entries)
    else
      var rest := FirstMatch(items[1..], key);
      assert forall i :: 1 <= i < |items| ==> items[i] == items[1..][i - 1];
      if rest.Some? then
        var k :| 0 <= k < |items[1..]| && items[1..][k] == VMap(rest.value) && Matches(items[1..][k], key)
                 && forall j :: 0 <= j < k ==> !Matches(items[1..][j], key);
        assert items[k + 1] == VMap(rest.value);
        rest
      else rest
  }

  /** `fetchImageByKey(key)` as a function of the host's reply. */
  function Fetch(reply: Reply, key: string): Option<map<string, Value>> {
    if reply.Threw? || reply.body.None? then None
    else if !StatusOk(reply.body.value) then None
    else
      var list := ListValue(reply.body.value);
      if !list.VList? then None else FirstMatch(list.items, key)
  }

  /** A failed exchange, a missing body, a false status and a value that is not a list
    * all give null; otherwise the result is the first matching map of the list, and
    * null when none matches. */
  lemma FetchCases(reply: Reply, key: string)
    ensures reply.Threw? || (reply.Responded? && reply.body.None?) ==> Fetch(reply, key).None?
    ensures reply.Responded? && reply.body.Some? && !StatusOk(reply.body.value) ==> Fetch(reply, key).None?
    ensures reply.Responded? && reply.body.Some? && StatusOk(reply.body.value) ==>
              var list := ListValue(reply.body.value);
              && (!list.VList? ==> Fetch(reply, key).None?)
              && (list.VList? ==> Fetch(reply, key) == FirstMatch(list.items, key))
  {
  }

  /** A found image is an element of the host's list whose key reads as the one asked
    * for, and no earlier element matches. */
  lemma FetchFound(reply: Reply, key: string)
    requires Fetch(reply, key).Some?
    ensures reply.Responded? && reply.body.Some? && StatusOk(reply.body.value)
    ensures var list := ListValue(reply.body.value);
            && list.VList?
            && exists i :: 0 <= i < |list.items| && list.items[i] == VMap(Fetch(reply, key).value)
                           && Matches(list.items[i], key)
                           && forall j :: 0 <= j < i ==> !Matches(list.items[j], key)
  {
  }

  /** The status flag, case by case. */
  lemma StatusCases(body: map<string, Value>)
    ensures Get(body, "status") == VBool(true) ==> StatusOk(body)
    ensures Get(body, "status").VString? ==> (StatusOk(body) <==> ParseBoolean(Get(body, "status").s))
    ensures !Get(body, "status").VBool? && !Get(body, "status").VString? ==> !StatusOk(body)
    ensures Get(body, "status") == VBool(false) ==> !StatusOk(body)
  {
  }

  /** The service's scan of the host's reply: a failed request gives nothing; otherwise
    * the list is scanned in order, returning at the first element that is a map with
    * the key. */
  method FetchImageByKey(reply: Reply, key: string) returns (r: Option<map<string, Value>>)
    ensures r == Fetch(reply, key)
  {
    if reply.Threw? {
      return None;
    }
    var body := reply.body;
    if body.None? {
      return None;
    }
    var statusObj := Get(body.value, "status");
    var status := false;
    if statusObj.VBool? {
      status := statusObj.b;
    } else if statusObj.VString? {
      status := ParseBoolean(statusObj.s);
    }
    if !status {
      return None;
    }
    var data := Get(body.value, "data");
    var listObj := data;
    if data.VMap? {
      var inner := Get(data.entries, "data");
      if inner != VNull {
        listObj := inner;
      }
    }
    if !listObj.VList? {
      return None;
    }
    var list := listObj.items;
    var i := 0;
    while i < |list|
      invariant 0 <= i <= |list|
      invariant forall j :: 0 <= j < i ==> !Matches(list[j], key)
    {
      var o := list[i];
      if o.VMap? {
        var k := Get(o.entries, "key");
        if k != VNull && ToText(k) == Some(key) {
          FirstMatchAt(list, key, i);
          return Some(o.entries);
        }
      }
      i := i + 1;
    }
    return None;
  }

  /** The first matching index determines the first match. */
  lemma {:induction false} FirstMatchAt(items: seq<Value>, key: string, i: nat)
    requires i < |items| && Matches(items[i], key)
    requires forall j :: 0 <= j < i ==> !Matches(items[j], key)
    ensures FirstMatch(items, key) == Some(items[i].entries)
  {
    if i > 0 {
      assert forall j :: 0 <= j < i - 1 ==> items[1..][j] == items[j + 1];
      FirstMatchAt(items[1..], key, i - 1);
    }
  }
}
