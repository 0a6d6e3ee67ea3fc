/** Sums across the lanes of a wave and the waves of a block, in exact arithmetic. */
module Reduce {
  /** Every lane adds the value of the lane whose number differs in the highest bit. */
  function Exchange(v: seq<real>): (r: seq<real>)
    requires |v| % 2 == 0
    ensures |r| == |v|
  {
    var h := |v| / 2;
    seq(|v|, i requires 0 <= i < |v| => v[i] + v[if i < h then i + h else i - h])
  }

  /** Exchanges over the highest bit, then the next, down to the lowest. */
  function Butterfly(v: seq<real>): (r: seq<real>)
    requires |v| > 0
    ensures |r| == |v|
    decreases |v|
  {
    if |v| % 2 != 0 then v
    else Butterfly(Exchange(v)[..|v| / 2]) + Butterfly(Exchange(v)[|v| / 2..])
  }

  function Total(v: seq<real>): real {
    if v == [] then 0.0 else Total(v[..|v| - 1]) + v[|v| - 1]
  }

  predicate Width(w: nat) {
    w == 1 || w == 2 || w == 4 || w == 8 || w == 16
  }

  lemma {:induction false} TotalOfHalves(a: seq<real>, b: seq<real>, s: seq<real>)
    requires |a| == |b| == |s| && forall i :: 0 <= i < |s| ==> s[i] == a[i] + b[i]
    ensures Total(s) == Total(a) + Total(b)
  {
    if s != [] {
      var n := |s| - 1;
      TotalOfHalves(a[..n], b[..n], s[..n]);
    }
  }

  lemma {:induction false} TotalOfConcat(a: seq<real>, b: seq<real>)
    ensures Total(a + b) == Total(a) + Total(b)
  {
    if b == [] {
      assert a + b == a;
    } else {
      assert (a + b)[..|a + b| - 1] == a + b[..|b| - 1];
      TotalOfConcat(a, b[..|b| - 1]);
    }
  }

  /** Each half of the lanes then adds up to what all lanes added up to. */
  lemma ExchangeKeepsTotal(v: seq<real>)
    requires |v| % 2 == 0
    ensures Total(Exchange(v)[..|v| / 2]) == Total(v) && Total(Exchange(v)[|v| / 2..]) == Total(v)
  {
    hide Total;
    var h, s := |v| / 2, Exchange(v);
    TotalOfHalves(v[..h], v[h..], s[..h]);
    TotalOfHalves(v[h..], v[..h], s[h..]);
    assert v[..h] + v[h..] == v;
    TotalOfConcat(v[..h], v[h..]);
  }

  /** After the butterfly every lane of the sub-wave holds the sum of all its lanes. */
  lemma {:induction false} ButterflySums(v: seq<real>, lane: nat)
    requires Width(|v|) && lane < |v|
    ensures Butterfly(v)[lane] == Total(v)
    decreases |v|
  {
    hide Total, Exchange;
    if |v| > 1 {
      var h := |v| / 2;
      ExchangeKeepsTotal(v);
      if lane < h {
        ButterflySums(Exchange(v)[..h], lane);
      } else {
        ButterflySums(Exchange(v)[h..], lane - h);
      }
    } else {
      TotalOfOne(v);
    }
  }

  lemma TotalOfOne(v: seq<real>)
    requires |v| == 1
    ensures Total(v) == v[0]
  {
  }

  // ---------------------------------------------------------------- waves and blocks

  /** Two rows of sixteen lanes: a butterfly in each row, then every lane adds the first lane of the other row. */
  function Wave32(v: seq<real>): (r: seq<real>)
    requires |v| == 32
    ensures |r| == 32
  {
    var low, high := Butterfly(v[..16]), Butterfly(v[16..]);
    seq(32, i requires 0 <= i < 32 => if i < 16 then low[i] + high[0] else high[i - 16] + low[0])
  }

  /** Every lane of the wave holds the sum of all 32. */
  lemma Wave32Sums(v: seq<real>, lane: nat)
    requires |v| == 32 && lane < 32
    ensures Wave32(v)[lane] == Total(v)
  {
    hide Butterfly, Total;
    assert v[..16] + v[16..] == v;
    TotalOfConcat(v[..16], v[16..]);
    ButterflySums(v[..16], if lane < 16 then lane else 0);
    ButterflySums(v[16..], if lane < 16 then 0 else lane - 16);
  }

  /** Eight waves through shared memory; every thread gets the block's sum. */
  method BlockReduceSum256(v: seq<real>) returns (sum: real)
    requires |v| == 256
    ensures sum == Total(v)
  {
    hide Wave32;
    var shared: seq<real> := [];
    for wave := 0 to 8
      invariant |shared| == wave && Total(shared) == Total(v[..32 * wave])
    {
      var lanes := v[32 * wave..32 * wave + 32];
      Wave32Sums(lanes, 0);
      assert v[..32 * (wave + 1)] == v[..32 * wave] + lanes;
      TotalOfConcat(v[..32 * wave], lanes);
      TotalOfOne([Wave32(lanes)[0]]);
      TotalOfConcat(shared, [Wave32(lanes)[0]]);
      shared := shared + [Wave32(lanes)[0]];
    }
    assert v[..256] == v;
    sum := 0.0;
    for i := 0 to 8
      invariant sum == Total(shared[..i])
    {
      assert shared[..i + 1] == shared[..i] + [shared[i]];
      TotalOfConcat(shared[..i], [shared[i]]);
      TotalOfOne([shared[i]]);
      sum := sum + shared[i];
    }
    assert shared[..8] == shared;
  }
}
