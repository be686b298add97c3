/**
 * Parsed JSON values as the client sees them after `JSON.parse`, the
 * JavaScript conversions applied to them (property access, truthiness,
 * `String(v)`), and the host primitives the model takes as given.
 */
module Json {
  import opened Wrappers
  import opened Text

  /** A parsed JSON value; numbers are exact rationals. */
  datatype Json =
    | JNull
    | JBool(b: bool)
    | JNumber(n: real)
    | JString(s: string)
    | JArray(items: seq<Json>)
    | JObject(fields: map<string, Json>)

  /**
   * What the model does not define itself: `JSON.parse` (None when it would
   * throw a SyntaxError), Zod's `uuid()` and `email()` checks, and the
   * decimal text JavaScript gives a number.
   */
  datatype Host = Host(
    parse: string -> Option<Json>,
    isUuid: string -> bool,
    isEmail: string -> bool,
    numberText: real -> string)

  /** `v.key` (or `v?.key`): only objects have own properties; anything else gives undefined. */
  function Get(v: Json, key: string): (r: Option<Json>)
    ensures r.Some? <==> v.JObject? && key in v.fields
  {
    if v.JObject? && key in v.fields then Some(v.fields[key]) else None
  }

  /** JavaScript truthiness of a JSON value. */
  predicate Truthy(v: Json) {
    match v
    case JNull => false
    case JBool(b) => b
    case JNumber(n) => n != 0.0
    case JString(s) => s != ""
    case JArray(_) => true
    case JObject(_) => true
  }

  /** Number.isInteger. */
  predicate IsInteger(n: real) {
    n == n.Floor as real
  }

  /** `String(v)`: arrays join their elements with "," (null elements as ""), objects print as "[object Object]". */
  function ToJsString(v: Json, host: Host): string
    decreases v
  {
    match v
    case JNull => "null"
    case JBool(b) => if b then "true" else "false"
    case JNumber(n) => host.numberText(n)
    case JString(s) => s
    case JArray(items) =>
      Join(seq(|items|, i requires 0 <= i < |items| =>
        if items[i].JNull? then "" else ToJsString(items[i], host)), ",")
    case JObject(_) => "[object Object]"
  }
}
