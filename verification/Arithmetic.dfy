/** Facts about products and quotients. */
module Arithmetic {
  /** Different multiples of d are at least d apart. */
  lemma {:induction false} MultiplesApart(a: nat, b: nat, d: nat)
    requires a < b
    ensures a * d + d <= b * d
    decreases b
  {
    assert b * d == (b - 1) * d + d;
    if a < b - 1 {
      MultiplesApart(a, b - 1, d);
    }
  }

  /** Quotient and remainder are unique. */
  lemma Euclid(x: nat, q: nat, r: nat, d: nat)
    requires x == q * d + r && r < d
    ensures x / d == q && x % d == r
  {
    assert x == x / d * d + x % d;
    if x / d < q {
      MultiplesApart(x / d, q, d);
    } else if q < x / d {
      MultiplesApart(q, x / d, d);
    }
  }

  /** Remainder, kept apart from linear reasoning. */
  function Rem(a: nat, d: nat): nat
    requires d > 0
  {
    a % d
  }

  /** Of the numbers from a up to a + d, only a has a's remainder. */
  lemma NextWithRemainder(a: nat, b: nat, d: nat)
    requires d > 0 && a <= b < a + d && Rem(b, d) == Rem(a, d)
    ensures a == b
  {
    assert a == a / d * d + a % d && b == b / d * d + b % d;
    if a / d < b / d {
      MultiplesApart(a / d, b / d, d);
    } else if b / d < a / d {
      MultiplesApart(b / d, a / d, d);
    }
  }

  lemma OneTurn(a: nat, d: nat)
    requires d > 0
    ensures Rem(a + d, d) == Rem(a, d)
  {
    assert a == a / d * d + a % d;
    Euclid(a + d, a / d + 1, a % d, d);
  }

  lemma SmallRemainder(a: nat, d: nat)
    requires a < d
    ensures Rem(a, d) == a
  {
  }

  lemma RemainderAtMost(a: nat, d: nat)
    requires d > 0
    ensures Rem(a, d) <= a && Rem(a, d) < d
  {
  }
}
