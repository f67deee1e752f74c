/** The JSON-shaped values the two structured formats exchange: what
    Python's `json.loads` produces, without floating-point numbers. Objects
    keep their members in insertion order, as Python dicts do. */
module Json {
  import opened Wrappers
  import Assoc
  import Text

  datatype Json =
    | JNull
    | JBool(b: bool)
    | JInt(i: int)
    | JStr(s: string)
    | JObject(members: seq<(string, Json)>)
    | JArray(items: seq<Json>)

  type Members = seq<(string, Json)>

  /** Every object, at any depth, has distinct member names, as every
      value `json.loads` produces does. */
  predicate DistinctKeys(v: Json) {
    match v
    case JObject(ms) => Assoc.UniqueKeys(ms) && forall i :: 0 <= i < |ms| ==> DistinctKeys(ms[i].1)
    case JArray(xs) => forall i :: 0 <= i < |xs| ==> DistinctKeys(xs[i])
    case _ => true
  }

  /** Python truthiness: `None`, `False`, `0` and empty containers are false. */
  predicate Truthy(v: Json) {
    match v
    case JNull => false
    case JBool(b) => b
    case JInt(i) => i != 0
    case JStr(s) => |s| > 0
    case JObject(ms) => |ms| > 0
    case JArray(xs) => |xs| > 0
  }

  /** Exactly six values are false: `None`, `False`, `0`, and the empty
      string, dict and list. */
  lemma FalsyValues(v: Json)
    ensures !Truthy(v) <==> v in [JNull, JBool(false), JInt(0), JStr(""), JObject([]), JArray([])]
  {
  }

  /** What a Python `for x in v` walks over: the items of a list, the keys
      of a dict, the one-character strings of a string. Any other value is
      not iterable. */
  function Iterate(v: Json): (r: Option<seq<Json>>)
    ensures v.JArray? ==> r == Some(v.items)
    ensures r.Some? <==> v.JArray? || v.JObject? || v.JStr?
    ensures r.Some? ==> |r.value| == match v
                                     case JArray(xs) => |xs|
                                     case JObject(ms) => |ms|
                                     case JStr(s) => |s|
                                     case _ => 0
    ensures v.JObject? && r.Some? ==> forall i :: 0 <= i < |v.members| ==> r.value[i] == JStr(v.members[i].0)
    ensures v.JStr? && r.Some? ==> forall i :: 0 <= i < |v.s| ==> r.value[i] == JStr([v.s[i]])
  {
    match v
    case JArray(xs) => Some(xs)
    case JObject(ms) => Some(seq(|ms|, i requires 0 <= i < |ms| => JStr(ms[i].0)))
    case JStr(s) => Some(seq(|s|, i requires 0 <= i < |s| => JStr([s[i]])))
    case _ => None
  }

  /** Python's `str` of a scalar. */
  function ScalarStr(v: Json): string
    requires !v.JObject? && !v.JArray?
  {
    match v
    case JNull => "None"
    case JBool(b) => if b then "True" else "False"
    case JInt(i) => Text.IntToString(i)
    case JStr(s) => s
  }

  /** Python's `repr` of a value nested inside a container. String escaping
      is simplified to plain single quotes. */
  function Repr(v: Json): string {
    match v
    case JStr(s) => "'" + s + "'"
    case JObject(ms) =>
      "{" + Text.Join(seq(|ms|, i requires 0 <= i < |ms| => "'" + ms[i].0 + "': " + Repr(ms[i].1)), ", ") + "}"
    case JArray(xs) =>
      "[" + Text.Join(seq(|xs|, i requires 0 <= i < |xs| => Repr(xs[i])), ", ") + "]"
    case _ => ScalarStr(v)
  }

  /** Python's `str(v)`, which an f-string applies to an interpolated value. */
  function PyStr(v: Json): string {
    if v.JObject? || v.JArray? then Repr(v) else ScalarStr(v)
  }
}
