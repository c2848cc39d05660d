/** The part of JSON and of JavaScript value conversion that the front end
    observes in server replies. */
module Json {
  import opened Wrappers

  /** A property value of a parsed reply object. */
  datatype Json = JStr(s: string) | JBool(b: bool) | JNull

  /** A parsed reply object: a missing key reads as `undefined`. */
  type Object = map<string, Json>

  /** `obj.key`: None for `undefined`. */
  function Field(obj: Object, key: string): (r: Option<Json>)
    ensures r.Some? <==> key in obj
  {
    if key in obj then Some(obj[key]) else None
  }

  /** JavaScript truthiness of a property value. */
  predicate Truthy(v: Option<Json>) {
    match v
    case None => false
    case Some(JStr(s)) => s != ""
    case Some(JBool(b)) => b
    case Some(JNull) => false
  }

  /** `String(v)`: the text a value becomes in `+` concatenation and in
      `atob(v)`. */
  function ToJsString(v: Option<Json>): string {
    match v
    case None => "undefined"
    case Some(JStr(s)) => s
    case Some(JBool(b)) => if b then "true" else "false"
    case Some(JNull) => "null"
  }

  /** What `TextEncoder.encode(v)` encodes: its argument is optional with
      default "", so `undefined` encodes as the empty string. */
  function EncoderInput(v: Option<Json>): string {
    if v.None? then "" else ToJsString(v)
  }

  /** `{ key: v }` followed by `JSON.stringify`: a property whose value is
      `undefined` is dropped from the serialized body. */
  function Put(obj: Object, key: string, v: Option<Json>): (r: Object)
    ensures v.Some? ==> r == obj[key := v.value]
    ensures v.None? ==> r == obj
  {
    match v
    case None => obj
    case Some(x) => obj[key := x]
  }
}
