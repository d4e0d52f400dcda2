/**
 JavaScript numbers as the workout code sees them: a finite value or one of
 the three non-finite IEEE values. Finite values are exact reals, so rounding
 and negative zero are not modelled.
 */
module JsNumbers {

  datatype Number = Finite(value: real) | PositiveInfinity | NegativeInfinity | NaN

  /** `Number.isFinite(x)` */
  predicate IsFinite(x: Number) {
    x.Finite?
  }

  /** `x >= 0`: every comparison with NaN is false, and +Infinity exceeds everything */
  predicate AtLeastZero(x: Number) {
    match x
    case Finite(v) => v >= 0.0
    case PositiveInfinity => true
    case NegativeInfinity => false
    case NaN => false
  }

  /**
   JavaScript `a / b` for finite operands: the exact quotient when the divisor
   is nonzero, otherwise an infinity signed like the dividend, or NaN for 0 / 0.
   */
  function Divide(a: real, b: real): (q: Number)
    ensures q.Finite? <==> b != 0.0
    ensures q.Finite? ==> q.value * b == a
    ensures q == NaN <==> a == 0.0 && b == 0.0
    ensures q == PositiveInfinity <==> a > 0.0 && b == 0.0
  {
    if b != 0.0 then Finite(a / b)
    else if a > 0.0 then PositiveInfinity
    else if a < 0.0 then NegativeInfinity
    else NaN
  }

  /** A finite quotient is the one real that multiplied by the divisor gives the dividend. */
  lemma DivideIsInverseOfMultiply(a: real, b: real, q: real)
    ensures Divide(a, b) == Finite(q) <==> b != 0.0 && q * b == a
  {
    if b != 0.0 && q * b == a {
      assert (a / b) * b == a;
      assert (q - a / b) * b == 0.0;
    }
  }
}
