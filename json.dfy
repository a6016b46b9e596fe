/**
 * Parsed JSON values, as the validators receive them from JSON.parse, with the
 * JavaScript notions they test: truthiness, `typeof`, Array.isArray and
 * property reads (an absent property reads as undefined).
 */
module Json {
  import opened Wrappers

  datatype Json =
    | JNull
    | JBool(b: bool)
    | JNum(n: real)
    | JStr(s: string)
    | JArr(items: seq<Json>)
    | JObj(fields: map<string, Json>)

  /** JavaScript truthiness: null, false, 0 and "" are falsy; arrays and objects are truthy. */
  predicate TruthyValue(v: Json) {
    match v
    case JNull => false
    case JBool(b) => b
    case JNum(n) => n != 0.0
    case JStr(s) => |s| > 0
    case _ => true
  }

  /** `typeof v` */
  function TypeOf(v: Json): string {
    match v
    case JBool(_) => "boolean"
    case JNum(_) => "number"
    case JStr(_) => "string"
    case _ => "object"
  }

  /** `v[key]` for the named properties the validators read; None is undefined. */
  function Get(v: Json, key: string): (r: Option<Json>)
    ensures r.Some? ==> v.JObj? && key in v.fields && r.value == v.fields[key]
    ensures v.JObj? && key in v.fields ==> r.Some?
  {
    if v.JObj? && key in v.fields then Some(v.fields[key]) else None
  }

  /** Truthiness of a property read, undefined being falsy. */
  predicate TruthyField(v: Json, key: string) {
    var f := Get(v, key);
    f.Some? && TruthyValue(f.value)
  }
}
