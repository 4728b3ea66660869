/**
  The values `json.loads` produces, and the two Python operations the
  front end applies to them without knowing their shape: the guarded
  lookup `key in x and x[key]` and the subscript `x[0]`.
 */
module Json {
  import opened Wrappers
  import opened Text

  /** A decoded JSON value. An object is a Python dict: a repeated key keeps its last value. */
  datatype Json =
    | JNull
    | JBool(b: bool)
    | JNum(n: real)
    | JStr(s: string)
    | JArr(items: seq<Json>)
    | JObj(fields: map<string, Json>)

  /** Python truthiness (`if x:`) of a decoded value: only None, False, zero and empty containers are false. */
  predicate Truthy(j: Json)
    ensures !Truthy(j) <==>
      j == JNull || j == JBool(false) || j == JNum(0.0) || j == JStr([]) || j == JArr([]) || j == JObj(map[])
  {
    match j
    case JNull => false
    case JBool(b) => b
    case JNum(n) => n != 0.0
    case JStr(s) => s != []
    case JArr(a) => a != []
    case JObj(m) => m != map[]
  }

  /** Outcome of `key in x` followed by `x[key]`. */
  datatype Lookup = Missing | Hit(value: Json) | Raises

  /**
    `key in x and x[key]`: a key test on a dict, an element test on a list
    and a substring test on a str; the subscript then fails on a list or a
    str (TypeError), and `in` itself fails on a number, a bool or None.
   */
  function Member(x: Json, key: string): (r: Lookup)
    ensures r.Hit? <==> x.JObj? && key in x.fields
    ensures r.Hit? ==> r.value == x.fields[key]
    ensures r.Missing? <==>
      (x.JObj? && key !in x.fields) || (x.JArr? && JStr(key) !in x.items) || (x.JStr? && !Contains(x.s, key))
  {
    match x
    case JObj(m) => if key in m then Hit(m[key]) else Missing
    case JArr(a) => if JStr(key) in a then Raises else Missing
    case JStr(s) => if Contains(s, key) then Raises else Missing
    case _ => Raises
  }

  /**
    `x[0]`, with None where Python raises: the first element of a list, the
    first character of a str (as a one-character str); an IndexError on an
    empty list or str, a KeyError on a dict (its keys are strings) and a
    TypeError on anything else.
   */
  function Index0(x: Json): (r: Option<Json>)
    ensures r.Some? <==> (x.JArr? && x.items != []) || (x.JStr? && x.s != [])
    ensures r.Some? && x.JArr? ==> r.value == x.items[0]
    ensures r.Some? && x.JStr? ==> r.value == JStr([x.s[0]])
  {
    match x
    case JArr(a) => if |a| > 0 then Some(a[0]) else None
    case JStr(s) => if |s| > 0 then assert s[..1] == [s[0]]; Some(JStr(s[..1])) else None
    case _ => None
  }
}
