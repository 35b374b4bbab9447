/** Values as they arrive in a request body or a loosely typed database
    column, with the JavaScript conversions the handlers apply to them:
    truthiness, `String(v)` and property access. Numbers are integers. */
module Json {
  import opened Wrappers
  import opened Strings
  import opened Records

  datatype JsonValue =
    | JNull
    | JBool(b: bool)
    | JNum(n: int)
    | JStr(s: string)
    | JArr(items: seq<JsonValue>)
    | JObj(fields: seq<(string, JsonValue)>)

  /** A value used as a condition; a missing property (`None`) is
      `undefined`, which is falsy. */
  predicate Truthy(v: Option<JsonValue>)
  {
    match v
    case None => false
    case Some(JNull) => false
    case Some(JBool(b)) => b
    case Some(JNum(n)) => n != 0
    case Some(JStr(s)) => s != ""
    case Some(JArr(_)) => true
    case Some(JObj(_)) => true
  }

  /** `v.name`: the property of an object, `undefined` for anything else. */
  function Field(v: JsonValue, name: string): Option<JsonValue>
  {
    match v
    case JObj(fields) => Get(fields, name)
    case _ => None
  }

  /** `String(v)`. An array joins its elements with commas, null elements
      giving the empty string. */
  function ToStr(v: JsonValue): string
  {
    match v
    case JNull => "null"
    case JBool(b) => if b then "true" else "false"
    case JNum(n) => IntToString(n)
    case JStr(s) => s
    case JArr(items) => Join(seq(|items|, i requires 0 <= i < |items| => if items[i] == JNull then "" else ToStr(items[i])), ",")
    case JObj(_) => "[object Object]"
  }

  /** `parseInt(v)`: `parseInt` of `String(v)`. */
  function ParseIntValue(v: JsonValue): Option<int>
  {
    ParseInt(ToStr(v))
  }

  /** A number converts to its own value. */
  lemma {:induction false} ParseIntOfNumber(n: int)
    ensures ParseIntValue(JNum(n)) == Some(n)
  {
    ParseIntOfIntToString(n);
  }
}
