/** The NF4 codebook and the four-probe search for the nearest level. */
module Nf4 {
  import opened Reals

  const LEVELS: seq<real> := [
    -1.0, -0.6961928, -0.5250731, -0.3949175, -0.2844414, -0.1847734, -0.0910500, 0.0,
    0.0795803, 0.1609302, 0.2461123, 0.3379152, 0.4407098, 0.5626170, 0.7229568, 1.0]

  /** Half the widest gap between neighbouring levels. */
  const HALF_GAP: real := 0.1519036

  function Level(i: nat): real
    requires i < 16
  {
    LEVELS[i]
  }

  /** Midpoint between level i and the next. */
  function Boundary(i: nat): real
    requires i < 15
  {
    (Level(i) + Level(i + 1)) / 2.0
  }

  /** Four comparisons halve the fifteen boundaries. */
  function Nf4Quantize(x: real): (i: nat)
    ensures i < 16
  {
    var i := if x >= Boundary(7) then 8 else 0;
    var i := i + if x >= Boundary(i + 3) then 4 else 0;
    var i := i + if x >= Boundary(i + 1) then 2 else 0;
    i + if x >= Boundary(i) then 1 else 0
  }

  /** The search ends between the boundaries on either side of the level it returns. */
  lemma SearchBrackets(x: real)
    ensures var i := Nf4Quantize(x);
            (i > 0 ==> Boundary(i - 1) <= x) && (i < 15 ==> x < Boundary(i))
  {
  }

  lemma {:induction false} LevelsIncrease(a: nat, b: nat)
    requires a <= b < 16
    ensures Level(a) <= Level(b)
    decreases b
  {
  }

  /** For every input the search returns a nearest level. */
  lemma Nf4IsNearest(x: real, k: nat)
    requires k < 16
    ensures Abs(x - Level(Nf4Quantize(x))) <= Abs(x - Level(k))
  {
    hide Nf4Quantize;
    var i := Nf4Quantize(x);
    SearchBrackets(x);
    if k < i {
      LevelsIncrease(k, i - 1);
      LevelsIncrease(i - 1, i);
    } else if k > i {
      LevelsIncrease(i + 1, k);
      LevelsIncrease(i, i + 1);
    }
  }

  /** Every level is found again. */
  lemma LevelsAreFixed(k: nat)
    requires k < 16
    ensures Nf4Quantize(Level(k)) == k
  {
  }

  /** Inside the codebook's range the nearest level is at most half a gap away. */
  lemma Nf4Error(x: real)
    requires -1.0 <= x <= 1.0
    ensures Abs(x - Level(Nf4Quantize(x))) <= HALF_GAP
  {
  }
}
