/** The JavaScript values a configuration entry can hold, and their
 *  truthiness (ToBoolean, section 7.1.2 of ECMA-262). */
module JsValues {

  datatype JsValue =
    | Undefined
    | Null
    | Bool(b: bool)
    | Number(x: real)
    | NaN
    | Str(s: string)
    | Array(items: seq<JsValue>)
    | Object(fields: map<string, JsValue>)

  /** `!v` is false: every object and array is truthy, even an empty one;
   *  the empty string, 0, NaN, false, null and undefined are not. The
   *  ensures are the ToBoolean table of ECMA-262, one row per kind of
   *  value, so callers can use it without unfolding the match. */
  predicate Truthy(v: JsValue)
    ensures v.Undefined? || v.Null? || v.NaN? ==> !Truthy(v)
    ensures v.Bool? ==> (Truthy(v) <==> v.b)
    ensures v.Array? || v.Object? ==> Truthy(v)
    ensures v.Str? ==> (Truthy(v) <==> v.s != "")
    ensures v.Number? ==> (Truthy(v) <==> v.x != 0.0)
  {
    match v
    case Undefined | Null | NaN => false
    case Bool(b) => b
    case Number(x) => x != 0.0
    case Str(s) => s != ""
    case Array(_) | Object(_) => true
  }
}
