/**
 * JSON values as `JSON.parse` returns them, with the JavaScript notions of
 * truthiness and property access that the plan generator relies on.
 */
module JsonValue {
  import opened Wrappers

  datatype Json =
    | JNull
    | JBool(b: bool)
    | JNumber(n: real)
    | JString(s: string)
    | JArray(elems: seq<Json>)
    | JObject(fields: map<string, Json>)

  /** JavaScript truthiness: null, false, 0 and "" are falsy; arrays and objects are truthy. */
  predicate Truthy(j: Json) {
    match j
    case JNull => false
    case JBool(b) => b
    case JNumber(n) => n != 0.0
    case JString(s) => s != ""
    case JArray(_) => true
    case JObject(_) => true
  }

  /** Truthiness of a value that may be `undefined` (`None`). */
  predicate OptTruthy(o: Option<Json>) {
    o.Some? && Truthy(o.value)
  }

  /** `j?.[key]`: the property `key` of an object, `undefined` for anything else or a missing key. */
  function Member(j: Json, key: string): (r: Option<Json>)
    ensures r.Some? <==> j.JObject? && key in j.fields
    ensures r.Some? ==> r.value == j.fields[key]
  {
    if j.JObject? && key in j.fields then Some(j.fields[key]) else None
  }

  /** `o?.[key]` on a value that may itself be `undefined`. */
  function OptMember(o: Option<Json>, key: string): (r: Option<Json>)
    ensures r.Some? <==> o.Some? && o.value.JObject? && key in o.value.fields
    ensures r.Some? ==> r.value == o.value.fields[key]
  {
    if o.Some? then Member(o.value, key) else None
  }

  /**
   * The own properties an object spread `{...j}` copies. Other values are
   * taken to spread to nothing, which is what `null`, `undefined`, booleans
   * and numbers do.
   */
  function Spread(j: Json): (r: map<string, Json>)
    ensures j.JObject? ==> r == j.fields
    ensures !j.JObject? ==> r == map[]
  {
    if j.JObject? then j.fields else map[]
  }

  /** `truthy(j.key)`: the check the handlers apply to `plan.weeks` and `weekData.week`. */
  predicate HasTruthyMember(j: Json, key: string) {
    OptTruthy(Member(j, key))
  }
}
