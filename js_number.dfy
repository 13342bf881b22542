/**
 * JavaScript numbers as far as the parser and the extent reducer can observe
 * them: not-a-number, the two infinities and finite values. Rounding and the
 * sign of zero are not modelled; finite values are exact reals.
 */
module JsNumber {

  datatype Num = NaN | NegInf | Fin(r: real) | PosInf

  /** `a <= b` on non-NaN numbers; NaN is below and above nothing. */
  predicate Le(a: Num, b: Num) {
    match (a, b)
    case (NaN, _) => false
    case (_, NaN) => false
    case (NegInf, _) => true
    case (_, PosInf) => true
    case (Fin(x), Fin(y)) => x <= y
    case _ => false
  }

  predicate Lt(a: Num, b: Num) {
    Le(a, b) && a != b
  }

  /** `Math.min(a, b)`: NaN if either operand is NaN, otherwise the smaller. */
  function JsMin(a: Num, b: Num): (r: Num)
    ensures r.NaN? <==> a.NaN? || b.NaN?
    ensures !r.NaN? ==> Le(r, a) && Le(r, b) && (r == a || r == b)
  {
    if a.NaN? || b.NaN? then NaN else if Le(a, b) then a else b
  }

  /** `Math.max(a, b)`: NaN if either operand is NaN, otherwise the larger. */
  function JsMax(a: Num, b: Num): (r: Num)
    ensures r.NaN? <==> a.NaN? || b.NaN?
    ensures !r.NaN? ==> Le(a, r) && Le(b, r) && (r == a || r == b)
  {
    if a.NaN? || b.NaN? then NaN else if Le(a, b) then b else a
  }

  /** On non-NaN numbers `Le` is a total order. */
  lemma LeTotalOrder(a: Num, b: Num, c: Num)
    requires !a.NaN? && !b.NaN? && !c.NaN?
    ensures Le(a, a)
    ensures Le(a, b) || Le(b, a)
    ensures Le(a, b) && Le(b, a) ==> a == b
    ensures Le(a, b) && Le(b, c) ==> Le(a, c)
  {
  }
}
