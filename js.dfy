/** JSON values and the pieces of JavaScript's semantics the scripts rely on: truthiness,
    `||` and `&&`, property access, `for … of` over `x || []`, `String(x)` and
    `JSON.stringify`'s treatment of `undefined`.

    A JavaScript value that may be `undefined` is an `Option<Json>`: `None` is `undefined`.
    Numbers are integers; objects keep their members in enumeration order with distinct keys,
    as `JSON.parse` produces them. */
module Js {
  import opened Wrappers
  import Text

  datatype Json =
    | JNull
    | JBool(b: bool)
    | JNumber(n: int)
    | JString(s: string)
    | JArray(items: seq<Json>)
    | JObject(members: seq<Member>)

  datatype Member = Member(key: string, value: Json)

  /** Whether a value is `null` or `undefined`: reading a property of it throws. */
  predicate Nullish(v: Option<Json>) {
    v.None? || v.value.JNull?
  }

  /** JavaScript's conversion to boolean (`if (v)`, `!v`, `v || w`). */
  predicate Truthy(v: Option<Json>) {
    match v
    case None => false
    case Some(JNull) => false
    case Some(JBool(b)) => b
    case Some(JNumber(n)) => n != 0
    case Some(JString(s)) => s != ""
    case Some(JArray(_)) => true
    case Some(JObject(_)) => true
  }

  /** `v || w`. */
  function Or(v: Option<Json>, w: Option<Json>): (r: Option<Json>)
    ensures Truthy(v) ==> r == v
    ensures !Truthy(v) ==> r == w
  {
    if Truthy(v) then v else w
  }

  /** The value of the member `k` of the members `ms`. */
  function Lookup(ms: seq<Member>, k: string): (r: Option<Json>)
    ensures r.Some? <==> exists i | 0 <= i < |ms| :: ms[i].key == k
    ensures r.Some? ==> exists i | 0 <= i < |ms| :: ms[i].key == k && ms[i].value == r.value
  {
    if ms == [] then None
    else if ms[|ms| - 1].key == k then Some(ms[|ms| - 1].value)
    else Lookup(ms[..|ms| - 1], k)
  }

  /** `v.k` (and `v[k]`) on a value that is neither `null` nor `undefined`: an object's member,
      the `length` of an array or a string, and `undefined` otherwise. */
  function Get(v: Option<Json>, k: string): (r: Option<Json>)
    requires !Nullish(v)
    ensures r.Some? && v.value.JObject? ==>
      exists i | 0 <= i < |v.value.members| :: v.value.members[i].value == r.value
    ensures v.value.JObject? ==> r == Lookup(v.value.members, k)
    ensures v.value.JArray? ==> r == if k == "length" then Some(JNumber(|v.value.items|)) else None
    ensures v.value.JString? ==> r == if k == "length" then Some(JNumber(|v.value.s|)) else None
    ensures v.value.JBool? || v.value.JNumber? ==> r.None?
  {
    match v.value
    case JObject(ms) => Lookup(ms, k)
    case JArray(items) => if k == "length" then Some(JNumber(|items|)) else None
    case JString(s) => if k == "length" then Some(JNumber(|s|)) else None
    case _ => None
  }

  /** `v && v.k`: `v` itself when it is falsy, its member `k` otherwise. */
  function GetIfTruthy(v: Option<Json>, k: string): (r: Option<Json>)
    ensures !Truthy(v) ==> r == v
    ensures Truthy(v) ==> r == Get(v, k)
  {
    if Truthy(v) then Get(v, k) else v
  }

  predicate IsArray(v: Option<Json>) {
    v.Some? && v.value.JArray?
  }

  /** The values `for (const x of v || [])` visits; `None` where the loop throws because the
      value is truthy but not iterable (a number, `true` or a plain object). A string is
      iterated character by character. */
  function Iterate(v: Option<Json>): (r: Option<seq<Json>>)
    ensures !Truthy(v) ==> r == Some([])
    ensures IsArray(v) ==> r == Some(v.value.items)
    ensures r.Some? && v.Some? && v.value.JString? ==>
      |r.value| == |v.value.s| && forall i | 0 <= i < |r.value| :: r.value[i] == JString([v.value.s[i]])
    ensures r.None? <==> Truthy(v) && !v.value.JArray? && !v.value.JString?
  {
    if !Truthy(v) then Some([])
    else match v.value
      case JArray(items) => Some(items)
      case JString(s) => Some(Characters(s))
      case _ => None
  }

  /** The one-character strings of `s`, in order. */
  function Characters(s: string): (r: seq<Json>)
    ensures |r| == |s| && forall i | 0 <= i < |s| :: r[i] == JString([s[i]])
  {
    if s == [] then [] else Characters(s[..|s| - 1]) + [JString([s[|s| - 1]])]
  }

  /** `String(v)`, which is also what a template literal `${v}` inserts. */
  function Show(v: Option<Json>): string {
    match v
    case None => "undefined"
    case Some(j) => ShowValue(j)
  }

  function ShowValue(j: Json): string {
    match j
    case JNull => "null"
    case JBool(b) => if b then "true" else "false"
    case JNumber(n) => Text.IntToString(n)
    case JString(s) => s
    case JArray(items) => ShowItems(items)
    case JObject(_) => "[object Object]"
  }

  /** `items.join(',')`, where `null` elements show as the empty string. */
  function ShowItems(items: seq<Json>): string {
    if items == [] then ""
    else
      var last := if items[|items| - 1].JNull? then "" else ShowValue(items[|items| - 1]);
      if |items| == 1 then last else ShowItems(items[..|items| - 1]) + "," + last
  }

  /** An object literal as `JSON.stringify` sees it: members whose value is `undefined` are
      dropped. */
  function Object(fields: seq<(string, Option<Json>)>): (r: Json)
    ensures r.JObject?
    ensures forall k :: Lookup(r.members, k).Some? ==> exists i | 0 <= i < |fields| :: fields[i].0 == k
  {
    if fields == [] then JObject([])
    else
      var front := Object(fields[..|fields| - 1]);
      var (k, v) := fields[|fields| - 1];
      match v
      case None => front
      case Some(j) => JObject(front.members + [Member(k, j)])
  }

  /** Every object in `v`, at any depth, has pairwise distinct keys: so are all the values
      `JSON.parse` produces (a repeated key keeps its last value) and all object literals. */
  predicate WellKeyed(v: Json) {
    match v
    case JArray(items) => forall i | 0 <= i < |items| :: WellKeyed(items[i])
    case JObject(ms) => DistinctKeys(ms) && forall i | 0 <= i < |ms| :: WellKeyed(ms[i].value)
    case _ => true
  }

  predicate DistinctKeys(ms: seq<Member>) {
    forall i, j | 0 <= i < j < |ms| :: ms[i].key != ms[j].key
  }

  /** An object literal with distinct names whose defined values are well keyed is well keyed,
      and each of its members is one of the literal's fields. */
  lemma {:induction false} ObjectWellKeyed(fields: seq<(string, Option<Json>)>)
    requires forall i, j | 0 <= i < j < |fields| :: fields[i].0 != fields[j].0
    requires forall i | 0 <= i < |fields| && fields[i].1.Some? :: WellKeyed(fields[i].1.value)
    ensures WellKeyed(Object(fields))
    ensures forall m | m in Object(fields).members :: exists i | 0 <= i < |fields| :: fields[i] == (m.key, Some(m.value))
  {
    if fields != [] {
      var n := |fields| - 1;
      var front := Object(fields[..n]);
      ObjectWellKeyed(fields[..n]);
      var (k, v) := fields[n];
      if v.Some? {
        var ms := front.members + [Member(k, v.value)];
        forall i | 0 <= i < |front.members|
          ensures front.members[i].key != k
        {
          var m := front.members[i];
          assert m in front.members;
          var j :| 0 <= j < |fields[..n]| && fields[..n][j] == (m.key, Some(m.value));
        }
        assert Object(fields).members == ms;
      }
    }
  }

  /** An array literal as `JSON.stringify` sees it: `undefined` elements become `null`. */
  function Array(items: seq<Option<Json>>): (r: Json)
    ensures r.JArray? && |r.items| == |items|
    ensures forall i | 0 <= i < |items| :: r.items[i] == items[i].GetOr(JNull)
  {
    JArray(seq(|items|, i requires 0 <= i < |items| => items[i].GetOr(JNull)))
  }

  function Str(s: string): Option<Json> {
    Some(JString(s))
  }

  function Num(n: int): Option<Json> {
    Some(JNumber(n))
  }
}
