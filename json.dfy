/**
 * A JSON value, as both serde_json::Value (backend) and a parsed JavaScript
 * value (frontend) see it. Numbers are integers: floating point is not modelled.
 */
module Json {
  import opened Wrappers

  datatype Json =
    | JNull
    | JBool(b: bool)
    | JNumber(n: int)
    | JString(str: string)
    | JArray(items: seq<Json>)
    | JObject(fields: map<string, Json>)

  /** Property read that yields nothing on a missing key or a non-object
      (serde's Value::get, JavaScript's `v.key` giving undefined). */
  function Get(v: Json, key: string): (r: Option<Json>)
    ensures r.Some? <==> v.JObject? && key in v.fields
    ensures r.Some? ==> r.value == v.fields[key]
  {
    if v.JObject? && key in v.fields then Some(v.fields[key]) else None
  }

  /** serde's `v[key]`: Null for a missing key or a non-object. */
  function Index(v: Json, key: string): (r: Json)
    ensures Get(v, key).Some? ==> r == Get(v, key).value
    ensures Get(v, key).None? ==> r == JNull
  {
    match Get(v, key)
    case Some(x) => x
    case None => JNull
  }
}
