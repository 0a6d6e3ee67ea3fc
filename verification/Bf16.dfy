/**
 bf16 and f32 as bit patterns and as real numbers, and the conversion between them.  A pattern
 is split into a sign bit and a magnitude; bf16 magnitudes are the f32 magnitudes that are
 multiples of 65536.
 */
module Bf16 {
  import opened Words
  import opened Reals

  const SIGN_16: nat := 0x8000
  const SIGN_32: nat := 0x8000_0000
  const INFINITY: nat := 0x7F80
  const MAX_FINITE: nat := 0x7F7F

  function Pow2(k: int): (p: real)
    ensures p > 0.0
    decreases if k < 0 then -k else k
  {
    if k == 0 then 1.0 else if k > 0 then 2.0 * Pow2(k - 1) else Pow2(k + 1) / 2.0
  }

  lemma Pow2Step(k: int)
    ensures Pow2(k + 1) == 2.0 * Pow2(k)
  {
  }

  /** Exponent step of a magnitude with exponent field e: subnormals share the first. */
  function Quantum(e: nat): real {
    Pow2((if e == 0 then 1 else e) - 150)
  }

  /** Value of a magnitude of 31 bits: 8 of exponent, 23 of fraction. */
  function Mag(m: nat): real {
    var e, f := m / 0x80_0000, m % 0x80_0000;
    (if e == 0 then f else 0x80_0000 + f) as real * Quantum(e)
  }

  function F32Value(bits: nat): real {
    if bits < SIGN_32 then Mag(bits) else -Mag(bits - SIGN_32)
  }

  /** Value of the k-th bf16 magnitude. */
  function Grid(k: nat): real {
    Mag(k * 65536)
  }

  function Bf16Value(h: nat): real {
    if h < SIGN_16 then Grid(h) else -Grid(h - SIGN_16)
  }

  predicate Finite(h: nat) {
    h < 2 * SIGN_16 && (if h < SIGN_16 then h else h - SIGN_16) < INFINITY
  }

  /** The conversion as the program does it, on 32-bit words. */
  function F32ToBf16(bits: nat): nat {
    (bits + (bits / 65536 % 2 + 0x7FFF)) % TWO_32 / 65536
  }

  // ---------------------------------------------------------------- the grid of bf16 values

  lemma Fields(q: nat, d: nat)
    requires d < 65536
    ensures (q * 65536 + d) / 0x80_0000 == q / 128
    ensures (q * 65536 + d) % 0x80_0000 == q % 128 * 65536 + d
  {
  }

  /** Significand of the q-th bf16 magnitude. */
  function Significand(q: nat): nat {
    (if q / 128 == 0 then 0 else 0x80_0000) + q % 128 * 65536
  }

  lemma GridValue(q: nat)
    ensures Grid(q) == Significand(q) as real * Quantum(q / 128)
  {
  }

  function Steps(d: nat, u: real): real {
    d as real * u
  }

  /** Between two neighbours of the grid the value is linear. */
  lemma Within(q: nat, d: nat)
    requires d < 65536
    ensures Mag(q * 65536 + d) == Grid(q) + Steps(d, Quantum(q / 128))
  {
    hide Quantum, Grid;
    GridValue(q);
    Fields(q, d);
    Distribute(Significand(q), d, Quantum(q / 128));
  }

  lemma Distribute(a: nat, b: nat, u: real)
    ensures (a + b) as real * u == a as real * u + b as real * u
  {
  }

  lemma NextGrid(q: nat)
    ensures Grid(q + 1) == Grid(q) + 65536.0 * Quantum(q / 128)
  {
    hide Grid, Mag, Pow2;
    GridValue(q);
    GridValue(q + 1);
    if q % 128 < 127 {
      assert (q + 1) / 128 == q / 128 && (q + 1) % 128 == q % 128 + 1;
      Distribute(Significand(q), 65536, Quantum(q / 128));
    } else {
      assert (q + 1) / 128 == q / 128 + 1 && (q + 1) % 128 == 0;
      NextQuantum(q / 128);
    }
  }

  lemma NextQuantum(e: nat)
    ensures Quantum(e + 1) == if e == 0 then Quantum(e) else 2.0 * Quantum(e)
  {
  }

  lemma {:induction false} GridIncreases(a: nat, b: nat)
    requires a <= b
    ensures Grid(a) <= Grid(b) && (a < b ==> Grid(a) < Grid(b))
    decreases b - a
  {
    hide Grid;
    if a < b {
      GridIncreases(a, b - 1);
      NextGrid(b - 1);
    }
  }

  lemma TwentyThree()
    ensures Pow2(-23) * 8388608.0 == 1.0
  {
    assert Pow2(-8) == 1.0 / 256.0;
    assert Pow2(-16) == Pow2(-8) / 256.0;
    assert Pow2(-23) == Pow2(-16) / 128.0;
  }

  /** Some patterns everybody knows: one, minus two, one half, three and a quarter. */
  lemma KnownValues()
    ensures F32Value(0x3F80_0000) == 1.0 && Bf16Value(0x3F80) == 1.0 && Bf16Value(0xC000) == -2.0
    ensures Bf16Value(0x3F00) == 0.5 && Bf16Value(0x4050) == 3.25 && Bf16Value(0x8000) == 0.0
  {
    hide Pow2;
    TwentyThree();
    Pow2Step(-23);
    Pow2Step(-24);
  }

  // ---------------------------------------------------------------- rounding a bit pattern

  /** Round up when the dropped half is more than half, or exactly half and the kept part is odd. */
  predicate RoundsUp(q: nat, d: nat) {
    d > 0x8000 || (d == 0x8000 && q % 2 == 1)
  }

  lemma ConversionRounds(sign: nat, q: nat, d: nat)
    requires sign <= 1 && q < INFINITY && d < 65536
    ensures F32ToBf16(sign * SIGN_32 + q * 65536 + d) == sign * SIGN_16 + q + (if RoundsUp(q, d) then 1 else 0)
  {
  }

  lemma PickNearest(lo: real, hi: real, x: real, other: real, up: bool)
    requires lo <= x < hi && (other <= lo || hi <= other)
    requires if up then hi - x <= x - lo else x - lo <= hi - x
    ensures var pick := if up then hi else lo;
            && Abs(pick - x) <= Abs(other - x)
            && (Abs(pick - x) == Abs(other - x) ==> other == pick || (x - lo == hi - x && other == if up then lo else hi))
  {
  }

  /** The rounded magnitude is a nearest grid point, and the even one of two. */
  lemma RoundedIsNearest(q: nat, d: nat, k: nat)
    requires d < 65536
    ensures var r := q + (if RoundsUp(q, d) then 1 else 0);
            var x := Mag(q * 65536 + d);
            && Abs(Grid(r) - x) <= Abs(Grid(k) - x)
            && (Abs(Grid(r) - x) == Abs(Grid(k) - x) && k != r ==> r % 2 == 0)
  {
    hide Grid, Mag, Pow2, Quantum, Abs;
    var x := Mag(q * 65536 + d);
    Neighbours(q, d);
    if k <= q {
      GridIncreases(k, q);
    } else {
      GridIncreases(q + 1, k);
    }
    PickNearest(Grid(q), Grid(q + 1), x, Grid(k), RoundsUp(q, d));
  }

  lemma Neighbours(q: nat, d: nat)
    requires d < 65536
    ensures var x := Mag(q * 65536 + d);
            && Grid(q) <= x < Grid(q + 1)
            && (d < 0x8000 ==> x - Grid(q) < Grid(q + 1) - x)
            && (d == 0x8000 ==> x - Grid(q) == Grid(q + 1) - x)
            && (d > 0x8000 ==> x - Grid(q) > Grid(q + 1) - x)
  {
    hide Grid, Mag, Pow2, Quantum, Steps;
    QuantumPositive(q / 128);
    Within(q, d);
    NextGrid(q);
    Compare(d, Quantum(q / 128));
  }

  lemma QuantumPositive(e: nat)
    ensures Quantum(e) > 0.0
  {
  }

  lemma Compare(d: nat, u: real)
    requires u > 0.0
    ensures d < 0x8000 ==> Steps(d, u) < 65536.0 * u - Steps(d, u)
    ensures d == 0x8000 ==> Steps(d, u) == 65536.0 * u - Steps(d, u)
    ensures d > 0x8000 ==> Steps(d, u) > 65536.0 * u - Steps(d, u)
    ensures Steps(d, u) >= 0.0 && (d < 65536 ==> 65536.0 * u - Steps(d, u) > 0.0)
  {
    hide Steps;
    var x := d as real;
    assert Steps(d, u) == x * u by {
      StepsIsProduct(d, u);
    }
    CompareReal(x, u);
  }

  lemma StepsIsProduct(d: nat, u: real)
    ensures Steps(d, u) == d as real * u
  {
  }

  lemma CompareReal(x: real, u: real)
    requires u > 0.0 && x >= 0.0
    ensures x < 32768.0 ==> x * u < 65536.0 * u - x * u
    ensures x == 32768.0 ==> x * u == 65536.0 * u - x * u
    ensures x > 32768.0 ==> x * u > 65536.0 * u - x * u
    ensures x * u >= 0.0 && (x < 65536.0 ==> 65536.0 * u - x * u > 0.0)
  {
  }

  // ---------------------------------------------------------------- rounding a real number

  /** h is a finite bf16 number nearest to x. */
  ghost predicate RoundsTo(x: real, h: nat) {
    Finite(h) && forall k: nat :: Finite(k) ==> Abs(Bf16Value(h) - x) <= Abs(Bf16Value(k) - x)
  }

  /** A value that is already bf16 is stored exactly. */
  lemma ExactWhenBf16(x: real, h: nat, k: nat)
    requires RoundsTo(x, h) && Finite(k) && x == Bf16Value(k)
    ensures Bf16Value(h) == x
  {
  }

  /** Every number between two grid points lies between two neighbours. */
  lemma {:induction false} FindNeighbours(x: real, a: nat, b: nat) returns (q: nat)
    requires a < b && Grid(a) <= x < Grid(b)
    ensures a <= q < b && Grid(q) <= x < Grid(q + 1)
    decreases b - a
  {
    hide Grid;
    if x < Grid(b - 1) {
      q := FindNeighbours(x, a, b - 1);
    } else {
      q := b - 1;
    }
  }

  lemma NormalStep(q: nat)
    requires q >= 128
    ensures 0x80_0000 as real * Quantum(q / 128) <= Grid(q)
  {
  }

  /** The pattern with the other sign. */
  function Negated(h: nat): nat {
    if h < SIGN_16 then h + SIGN_16 else h - SIGN_16
  }

  lemma NegatedRoundsTo(x: real, h: nat)
    requires RoundsTo(x, h)
    ensures RoundsTo(-x, Negated(h)) && Bf16Value(Negated(h)) == -Bf16Value(h)
  {
    hide Grid;
    forall k: nat | Finite(k) ensures Abs(Bf16Value(Negated(h)) + x) <= Abs(Bf16Value(k) + x) {
      assert Finite(Negated(k)) && Bf16Value(Negated(k)) == -Bf16Value(k);
    }
  }

  lemma PositiveError(x: real, h: nat)
    requires RoundsTo(x, h) && Grid(128) <= x <= Grid(MAX_FINITE)
    ensures Abs(Bf16Value(h) - x) <= x / 256.0
  {
    hide Grid, Quantum;
    if x < Grid(MAX_FINITE) {
      var q := FindNeighbours(x, 128, MAX_FINITE);
      NormalStep(q);
      NextGrid(q);
      assert Abs(Bf16Value(h) - x) <= Abs(Bf16Value(q) - x);
      assert Abs(Bf16Value(h) - x) <= Abs(Bf16Value(q + 1) - x);
    } else {
      QuantumPositive(MAX_FINITE / 128);
      NormalStep(MAX_FINITE);
      ExactWhenBf16(x, h, MAX_FINITE);
    }
  }

  /** Rounding a normal number of either sign to bf16 changes it by at most 2^-8 of itself. */
  lemma RelativeError(x: real, h: nat)
    requires RoundsTo(x, h) && Grid(128) <= Abs(x) <= Grid(MAX_FINITE)
    ensures Abs(Bf16Value(h) - x) <= Abs(x) / 256.0
  {
    hide Grid, RoundsTo, Bf16Value;
    if x < 0.0 {
      NegatedRoundsTo(x, h);
      PositiveError(-x, Negated(h));
    } else {
      PositiveError(x, h);
    }
  }

  /** A nearest finite bf16 number, and of two different nearest ones the one with an even pattern. */
  ghost predicate RoundsToEven(x: real, h: nat) {
    && RoundsTo(x, h)
    && forall k: nat :: Finite(k) && Abs(Bf16Value(k) - x) == Abs(Bf16Value(h) - x) && Bf16Value(k) != Bf16Value(h) ==> h % 2 == 0
  }

  /** Compared with every number of either sign, the rounded magnitude is nearest and ties go to even. */
  lemma RoundedAmongAll(q: nat, d: nat, k: nat)
    requires d < 65536 && Finite(k)
    ensures var x, r := Mag(q * 65536 + d), q + (if RoundsUp(q, d) then 1 else 0);
            && Abs(Grid(r) - x) <= Abs(Bf16Value(k) - x)
            && (Abs(Bf16Value(k) - x) == Abs(Grid(r) - x) && Bf16Value(k) != Grid(r) ==> r % 2 == 0)
  {
    hide Grid, Mag;
    var m := if k < SIGN_16 then k else k - SIGN_16;
    Neighbours(q, d);
    ZeroGrid();
    GridIncreases(0, q);
    GridIncreases(0, m);
    RoundedIsNearest(q, d, m);
    RoundedIsNearest(q, d, 0);
  }

  /**
   The program's conversion is roundTiesToEven for both signs: the result is a nearest finite
   bf16 number, and of two nearest ones the even one, unless it overflows to infinity.
   */
  lemma ConversionRoundsTo(sign: nat, q: nat, d: nat)
    requires sign <= 1 && q < INFINITY && d < 65536 && q + (if RoundsUp(q, d) then 1 else 0) < INFINITY
    ensures RoundsToEven(F32Value(sign * SIGN_32 + q * 65536 + d), F32ToBf16(sign * SIGN_32 + q * 65536 + d))
  {
    hide Grid, Mag, F32ToBf16, RoundsUp;
    ConversionRounds(sign, q, d);
    var x, r := Mag(q * 65536 + d), q + (if RoundsUp(q, d) then 1 else 0);
    if sign == 0 {
      forall k: nat | Finite(k)
        ensures Abs(Grid(r) - x) <= Abs(Bf16Value(k) - x)
        ensures Abs(Bf16Value(k) - x) == Abs(Grid(r) - x) && Bf16Value(k) != Grid(r) ==> r % 2 == 0
      {
        RoundedAmongAll(q, d, k);
      }
    } else {
      forall k: nat | Finite(k)
        ensures Abs(-Grid(r) + x) <= Abs(Bf16Value(k) + x)
        ensures Abs(Bf16Value(k) + x) == Abs(-Grid(r) + x) && Bf16Value(k) != -Grid(r) ==> r % 2 == 0
      {
        RoundedAmongAll(q, d, Negated(k));
        assert Bf16Value(Negated(k)) == -Bf16Value(k);
      }
    }
  }

  /** Magnitudes up to the largest finite bf16 number do not overflow. */
  lemma StaysFinite(q: nat, d: nat)
    requires d < 65536 && Mag(q * 65536 + d) <= Grid(MAX_FINITE)
    ensures q + (if RoundsUp(q, d) then 1 else 0) < INFINITY
  {
    hide Grid, Mag, Quantum;
    Within(q, d);
    QuantumPositive(q / 128);
    assert d > 0 ==> Steps(d, Quantum(q / 128)) > 0.0;
    if q > MAX_FINITE {
      GridIncreases(MAX_FINITE, q);
    }
  }

  /** On every f32 number of the finite bf16 range the program's conversion is roundTiesToEven. */
  lemma ConversionRoundsInRange(bits: nat)
    requires bits < TWO_32 && Abs(F32Value(bits)) <= Grid(MAX_FINITE)
    ensures RoundsToEven(F32Value(bits), F32ToBf16(bits))
  {
    hide Grid, Mag, F32ToBf16, RoundsUp, RoundsToEven;
    var sign, m := bits / SIGN_32, bits % SIGN_32;
    var q, d := m / 65536, m % 65536;
    assert bits == sign * SIGN_32 + q * 65536 + d;
    MagNotNegative(m);
    StaysFinite(q, d);
    ConversionRoundsTo(sign, q, d);
  }

  lemma MagNotNegative(m: nat)
    ensures Mag(m) >= 0.0
  {
    hide Mag, Grid;
    Neighbours(m / 65536, m % 65536);
    GridIncreases(0, m / 65536);
    ZeroGrid();
  }

  // ---------------------------------------------------------------- every number can be rounded

  lemma NearestOfNeighbours(x: real, q: nat, k: nat)
    requires 0.0 <= x && Grid(q) <= x < Grid(q + 1) && Finite(k)
    ensures var up := Grid(q + 1) - x <= x - Grid(q);
            Abs(Grid(if up then q + 1 else q) - x) <= Abs(Bf16Value(k) - x)
  {
    hide Grid;
    var m := if k < SIGN_16 then k else k - SIGN_16;
    ZeroGrid();
    GridIncreases(0, q);
    GridIncreases(0, m);
    if m <= q {
      GridIncreases(m, q);
    } else {
      GridIncreases(q + 1, m);
    }
    PickNearest(Grid(q), Grid(q + 1), x, Bf16Value(k), Grid(q + 1) - x <= x - Grid(q));
  }

  lemma PositiveCanBeRounded(x: real) returns (h: nat)
    requires 0.0 <= x <= Grid(MAX_FINITE)
    ensures RoundsTo(x, h)
  {
    hide Grid;
    if x == Grid(MAX_FINITE) {
      h := MAX_FINITE;
    } else {
      ZeroGrid();
      var q := FindNeighbours(x, 0, MAX_FINITE);
      h := if Grid(q + 1) - x <= x - Grid(q) then q + 1 else q;
      forall k: nat | Finite(k) ensures Abs(Bf16Value(h) - x) <= Abs(Bf16Value(k) - x) {
        NearestOfNeighbours(x, q, k);
      }
    }
  }

  /** Every number of the finite range has a nearest bf16 number. */
  lemma CanBeRounded(x: real)
    requires Abs(x) <= Grid(MAX_FINITE)
    ensures exists h: nat :: RoundsTo(x, h)
  {
    hide Grid, RoundsTo;
    if x < 0.0 {
      var h := PositiveCanBeRounded(-x);
      NegatedRoundsTo(-x, h);
      assert - -x == x;
    } else {
      var h := PositiveCanBeRounded(x);
    }
  }

  predicate IsPattern(x: real, bits: nat) {
    bits < TWO_32 && F32Value(bits) == x
  }

  /** The program's conversion on f32 numbers, continued to a nearest number for every other one. */
  ghost function Convert(x: real): nat {
    if exists bits: nat :: IsPattern(x, bits) then
      var bits: nat :| IsPattern(x, bits);
      F32ToBf16(bits)
    else if exists h: nat :: RoundsTo(x, h) then
      var h: nat :| RoundsTo(x, h);
      h
    else 0
  }

  lemma ConvertRounds(x: real)
    requires Abs(x) <= Grid(MAX_FINITE)
    ensures RoundsTo(x, Convert(x))
    ensures (exists bits: nat :: IsPattern(x, bits)) ==> exists bits: nat :: IsPattern(x, bits) && Convert(x) == F32ToBf16(bits)
  {
    hide Grid, RoundsTo, F32ToBf16, F32Value;
    CanBeRounded(x);
    if exists bits: nat :: IsPattern(x, bits) {
      var bits: nat :| IsPattern(x, bits) && Convert(x) == F32ToBf16(bits);
      ConversionRoundsInRange(bits);
    }
  }

  lemma ZeroGrid()
    ensures Grid(0) == 0.0
  {
  }
}
