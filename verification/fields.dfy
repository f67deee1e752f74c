/** Reading and writing the typed fields of a JSON object, the way the
    structured parsers call `dict.get` with a default. A field whose value
    has the wrong type reads as None: the parser reports it as ill-shaped
    input. */
module Fields {
  import opened Wrappers
  import opened Json
  import Assoc

  /** A string field that falls back to `default` when absent. */
  function StringField(ms: Members, key: string, default: string): (r: Option<string>)
    ensures !Assoc.HasKey(ms, key) ==> r == Some(default)
    ensures forall s :: Assoc.Get(ms, key) == Some(JStr(s)) ==> r == Some(s)
    ensures r.None? <==> Assoc.HasKey(ms, key) && !Assoc.Get(ms, key).value.JStr?
  {
    var v: Option<Json> := Assoc.Get(ms, key);
    match v
    case None => Some(default)
    case Some(JStr(s)) => Some(s)
    case Some(_) => None
  }

  /** A value that is a string or null, absent meaning null. */
  function OptionalString(v: Option<Json>): (r: Option<Option<string>>)
    ensures r == Some(None) <==> v.None? || v == Some(JNull)
    ensures forall s :: r == Some(Some(s)) <==> v == Some(JStr(s))
  {
    match v
    case None => Some(None)
    case Some(JNull) => Some(None)
    case Some(JStr(s)) => Some(Some(s))
    case Some(_) => None
  }

  /** How an optional string is written out: the string, or null. */
  function OptionalJson(d: Option<string>): (r: Json)
    ensures r.JNull? <==> d.None?
    ensures OptionalString(Some(r)) == Some(d)
  {
    match d
    case None => JNull
    case Some(s) => JStr(s)
  }

  /** A flag field read by truthiness, absent meaning false. */
  function Flag(ms: Members, key: string): (r: bool)
    ensures !Assoc.HasKey(ms, key) ==> !r
    ensures Assoc.Get(ms, key) == Some(JBool(true)) ==> r
    ensures Assoc.Get(ms, key) == Some(JBool(false)) ==> !r
  {
    Truthy(Assoc.GetOr(ms, key, JBool(false)))
  }
}
