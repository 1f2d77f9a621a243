/** The JavaScript values the game's arithmetic passes around: a number, the
    IEEE not-a-number value, or `undefined` (a hole in an array, a missing
    entry). Numbers are exact reals; infinities are not modelled. */
module JsValues {

  datatype JsValue = Num(value: real) | NaN | Undefined

  datatype Option<T> = None | Some(value: T)

  /** Reading `a[i]`: `undefined` past the end. */
  function Get(a: seq<JsValue>, i: nat): (v: JsValue)
    ensures i >= |a| ==> v == Undefined
  {
    if i < |a| then a[i] else Undefined
  }

  /** `Number.isNaN`: true only for the not-a-number value. */
  predicate IsNaN(v: JsValue) { v.NaN? }

  /** `a + b`: a number only when both are; `undefined` and NaN give NaN. */
  function Add(a: JsValue, b: JsValue): (r: JsValue)
    ensures r.Num? <==> a.Num? && b.Num?
    ensures r.Num? ==> r.value == a.value + b.value
  {
    if a.Num? && b.Num? then Num(a.value + b.value) else NaN
  }

  /** `a - k` for a literal number k. */
  function SubConst(a: JsValue, k: real): (r: JsValue)
    ensures r.Num? <==> a.Num?
    ensures r.Num? ==> r.value == a.value - k
  {
    if a.Num? then Num(a.value - k) else NaN
  }

  function AbsReal(x: real): (r: real)
    ensures r >= 0.0 && (r == x || r == -x)
  {
    if x < 0.0 then -x else x
  }

  /** `Math.abs(1 - v)`. */
  function AbsOneMinus(a: JsValue): (r: JsValue)
    ensures r.Num? <==> a.Num?
    ensures r.Num? ==> r.value == AbsReal(1.0 - a.value)
  {
    if a.Num? then Num(AbsReal(1.0 - a.value)) else NaN
  }
}
