/** Python values as the notifier sees them: parsed JSON documents and the
    dictionaries it builds from them. A Python dict is keyed by any hashable
    value, so objects here are keyed by Json values; a dict that came out of
    a JSON parse simply has only JStr keys. */
module PyJson {

  datatype Option<+T> = None | Some(value: T)

  /** The outcome of a Python computation: a value, or an exception that
      escapes to the caller (which exception it is does not matter to the
      notifier: every handler it has catches them all alike). */
  datatype Result<+T> = Ok(value: T) | Raised

  datatype Json =
    | JNull
    | JBool(b: bool)
    | JNum(n: int)
    | JStr(s: string)
    | JArr(elems: seq<Json>)
    | JObj(fields: map<Json, Json>)

  /** Python `j[key]` for a string key: a dict lookup. A missing key
      (KeyError) or a value that is not a dict (TypeError) raises. */
  function Index(j: Json, key: string): (r: Option<Json>)
    ensures r.Some? <==> j.JObj? && JStr(key) in j.fields
  {
    if j.JObj? && JStr(key) in j.fields then Some(j.fields[JStr(key)]) else None
  }

  /** One more subscript in a chain `j[k0][k1]...`: fails once any step has. */
  function Then(j: Option<Json>, key: string): (r: Option<Json>)
    ensures r.Some? ==> j.Some? && Index(j.value, key) == r
  {
    match j
    case None => None
    case Some(v) => Index(v, key)
  }

  /** Python truthiness: `not j` holds. */
  predicate Falsy(j: Json)
  {
    match j
    case JNull => true
    case JBool(b) => !b
    case JNum(n) => n == 0
    case JStr(s) => s == []
    case JArr(elems) => elems == []
    case JObj(fields) => fields == map[]
  }

  /** Lists and dicts cannot be dict keys (TypeError: unhashable type). */
  predicate Hashable(j: Json)
  {
    !j.JArr? && !j.JObj?
  }

  /** `p` occurs as a contiguous piece of `t` (Python's `p in t` on strings). */
  predicate Occurs(p: string, t: string)
    decreases |t|
  {
    |p| <= |t| && (t[..|p|] == p || (t != [] && Occurs(p, t[1..])))
  }

  /** Python `key in j` for a string key: membership among a dict's keys or a
      list's elements, a substring test on a string, and a TypeError on any
      other value. */
  function Contains(j: Json, key: string): (r: Result<bool>)
    ensures r.Raised? <==> !(j.JObj? || j.JArr? || j.JStr?)
    ensures j.JObj? ==> r == Ok(JStr(key) in j.fields)
  {
    match j
    case JObj(fields) => Ok(JStr(key) in fields)
    case JArr(elems) => Ok(JStr(key) in elems)
    case JStr(s) => Ok(Occurs(key, s))
    case _ => Raised
  }
}
