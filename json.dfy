/**
 * Decoded JSON values as both the Python backends and the TypeScript client
 * see them, with each language's notion of truthiness. Numbers are integers.
 */
module Json {
  import opened Strings

  datatype Json =
    | JNull
    | JBool(b: bool)
    | JNum(n: int)
    | JStr(s: string)
    | JArr(items: seq<Json>)
    | JObj(fields: map<string, Json>)

  /** Python's `bool(v)`: empty strings, lists and dicts are false. */
  predicate PyTruthy(v: Json) {
    match v
    case JNull => false
    case JBool(b) => b
    case JNum(n) => n != 0
    case JStr(s) => s != ""
    case JArr(xs) => xs != []
    case JObj(m) => m != map[]
  }

  /** JavaScript's `!!v`: every array and object is true. */
  predicate JsTruthy(v: Json) {
    match v
    case JNull => false
    case JBool(b) => b
    case JNum(n) => n != 0
    case JStr(s) => s != ""
    case JArr(_) => true
    case JObj(_) => true
  }

  /** Python's `d.get(key)` on a dict, with a missing key read as None. */
  function Get(m: map<string, Json>, key: string): Json {
    if key in m then m[key] else JNull
  }

  /** JavaScript's `String(v)` and template-literal conversion. */
  function JsString(v: Json): string {
    match v
    case JNull => "null"
    case JBool(b) => if b then "true" else "false"
    case JNum(n) => IntToString(n)
    case JStr(s) => s
    case JArr(xs) => JsJoinItems(xs)
    case JObj(_) => "[object Object]"
  }

  /** `Array.prototype.join(",")`: null elements print as the empty string. */
  function JsJoinItems(xs: seq<Json>): string
    decreases xs
  {
    if xs == [] then ""
    else
      var head := if xs[0].JNull? then "" else JsString(xs[0]);
      if |xs| == 1 then head else head + "," + JsJoinItems(xs[1..])
  }
}
