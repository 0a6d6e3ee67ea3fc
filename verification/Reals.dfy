/** Products of real numbers, kept apart from linear reasoning. */
module Reals {
  function Abs(x: real): real {
    if x < 0.0 then -x else x
  }

  function Mul(a: real, b: real): real {
    a * b
  }

  lemma MulAddLeft(a: real, b: real, c: real)
    ensures Mul(a + b, c) == Mul(a, c) + Mul(b, c)
  {
  }

  lemma MulSubLeft(a: real, b: real, c: real)
    ensures Mul(a - b, c) == Mul(a, c) - Mul(b, c)
  {
  }

  lemma MulSubRight(a: real, b: real, c: real)
    ensures Mul(a, b - c) == Mul(a, b) - Mul(a, c)
  {
  }

  lemma MulMonotone(a: real, b: real, c: real)
    requires c > 0.0
    ensures a < b ==> Mul(a, c) < Mul(b, c)
    ensures a <= b ==> Mul(a, c) <= Mul(b, c)
  {
  }

  lemma MulComm(a: real, b: real)
    ensures Mul(a, b) == Mul(b, a)
  {
  }

  lemma DivMul(v: real, s: real)
    requires s > 0.0
    ensures Mul(v / s, s) == v
  {
  }

  /** A factor within bounds keeps the product within bounds. */
  lemma MulBound(a: real, b: real, bound: real)
    requires Abs(a) <= bound && b > 0.0
    ensures Abs(Mul(a, b)) <= Mul(bound, b)
  {
  }

  lemma MulBounds(a: real, b: real, boundA: real, boundB: real)
    requires Abs(a) <= boundA && Abs(b) <= boundB
    ensures Abs(Mul(a, b)) <= Mul(boundA, boundB)
  {
  }

  lemma MulZero(a: real)
    ensures Mul(0.0, a) == 0.0 && Mul(a, 0.0) == 0.0
  {
  }

  lemma MulNotNegative(a: real, b: real)
    requires a >= 0.0 && b >= 0.0
    ensures Mul(a, b) >= 0.0
  {
  }

  lemma DivRange(v: real, s: real, low: real, high: real)
    requires s > 0.0 && Mul(low, s) <= v <= Mul(high, s)
    ensures low <= v / s <= high
  {
  }
}
