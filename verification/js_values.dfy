/** The slice of JavaScript value semantics the application relies on:
    `undefined` as an `Option`, parsed JSON payloads, and truthiness. */
module JsValues {

  /** A value that may be `undefined` (or `null`, where the code treats the two alike). */
  datatype Option<+T> = None | Some(value: T) {
    function GetOr(default: T): T {
      match this
      case Some(v) => v
      case None => default
    }
  }

  /** A JSON value as it arrives in a response body. Numbers are integers
      here; the code never inspects a fractional number. */
  datatype Json =
    | JNull
    | JBool(b: bool)
    | JNumber(n: int)
    | JString(s: string)
    | JArray(items: seq<Json>)
    | JObject(fields: map<string, Json>)

  /** JavaScript truthiness of a present value: `null`, `false`, `0` and `""`
      are falsy; every array and object is truthy, even an empty one. */
  predicate Truthy(j: Json) {
    match j
    case JNull => false
    case JBool(b) => b
    case JNumber(n) => n != 0
    case JString(s) => s != ""
    case JArray(_) => true
    case JObject(_) => true
  }

  /** Truthiness of a possibly-undefined value. */
  predicate TruthyOpt(o: Option<Json>) {
    o.Some? && Truthy(o.value)
  }

  /** Truthiness of a possibly-undefined string: present and non-empty. */
  predicate TruthyString(o: Option<string>) {
    o.Some? && o.value != ""
  }

  /** Optional chaining `j?.[key]`: only an object has named members; every
      other value (and `null`) yields `undefined`. */
  function Member(j: Option<Json>, key: string): (r: Option<Json>)
    ensures r.Some? <==> j.Some? && j.value.JObject? && key in j.value.fields
    ensures r.Some? ==> r.value == j.value.fields[key]
  {
    match j
    case Some(JObject(m)) => if key in m then Some(m[key]) else None
    case _ => None
  }

  /** Optional chaining `j?.[0]`: the first element of an array, if any. */
  function First(j: Option<Json>): (r: Option<Json>)
    ensures r.Some? <==> j.Some? && j.value.JArray? && |j.value.items| > 0
    ensures r.Some? ==> r.value == j.value.items[0]
  {
    match j
    case Some(JArray(items)) => if |items| > 0 then Some(items[0]) else None
    case _ => None
  }
}
