/**
  Already-parsed response bodies and the few Gson accessors the client uses.
  A body that Gson cannot parse is `Unparsable`; every accessor that would
  throw in Gson (missing member, wrong element type, JSON null) yields `None`.
 */
module Json {
  import opened Outcomes

  /** JSON values; numbers are integers (the client only reads integral fields). */
  datatype Json =
    | JNull
    | JBool(b: bool)
    | JNum(n: int)
    | JStr(s: string)
    | JArr(items: seq<Json>)
    | JObj(fields: map<string, Json>)

  /** A response body: either the parse tree or a parse failure. */
  datatype Body = Parsed(root: Json) | Unparsable

  /** `obj.get(key)`: the member, when `j` is an object that has it. */
  function Member(j: Json, key: string): (r: Option<Json>)
    ensures r.Some? <==> j.JObj? && key in j.fields
    ensures r.Some? ==> r.value == j.fields[key]
  {
    if j.JObj? && key in j.fields then Some(j.fields[key]) else None
  }

  /** `obj.getAsJsonObject(key)`: the member, which must itself be an object. */
  function ObjectMember(j: Json, key: string): (r: Option<Json>)
    ensures r.Some? ==> r.value.JObj? && Member(j, key) == Some(r.value)
    ensures Member(j, key).Some? && Member(j, key).value.JObj? ==> r.Some?
  {
    match Member(j, key)
    case Some(v) => if v.JObj? then Some(v) else None
    case None => None
  }

  /** `obj.getAsJsonArray(key)`: the elements of the member, which must be an array. */
  function ArrayMember(j: Json, key: string): (r: Option<seq<Json>>)
    ensures r.Some? <==> Member(j, key).Some? && Member(j, key).value.JArr?
    ensures r.Some? ==> Member(j, key) == Some(JArr(r.value))
  {
    match Member(j, key)
    case Some(v) => if v.JArr? then Some(v.items) else None
    case None => None
  }

  /**
    `JsonElement.getAsString()`: a string primitive gives its text, a boolean
    its literal, a one-element array the string of that element; anything
    else throws.
   */
  function AsString(j: Json): (r: Option<string>)
    ensures j.JStr? ==> r == Some(j.s)
    ensures j.JNull? || j.JObj? || j.JNum? ==> r.None?
    ensures j.JArr? && |j.items| != 1 ==> r.None?
  {
    match j
    case JStr(s) => Some(s)
    case JBool(b) => Some(if b then "true" else "false")
    case JArr(items) => if |items| == 1 then AsString(items[0]) else None
    case _ => None
  }

  /**
    `JsonElement.getAsInt()` before Gson's 32-bit narrowing (which the
    Memory module applies explicitly): an integer primitive gives its value,
    a one-element array the value of that element; anything else throws.
   */
  function AsInt(j: Json): (r: Option<int>)
    ensures j.JNum? ==> r == Some(j.n)
    ensures j.JNull? || j.JObj? || j.JBool? ==> r.None?
    ensures j.JArr? && |j.items| != 1 ==> r.None?
  {
    match j
    case JNum(n) => Some(n)
    case JArr(items) => if |items| == 1 then AsInt(items[0]) else None
    case _ => None
  }
}
