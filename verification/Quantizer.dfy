/** The quantisers: groups of bf16 weights to packed bytes, and the error they guarantee. */
module Quantizer {
  import opened Arithmetic
  import opened Reals
  import opened LittleEndian
  import opened Bf16
  import opened Nf4
  import opened Quant

  function Max(a: real, b: real): real {
    if a >= b then a else b
  }

  function Min(a: real, b: real): real {
    if a <= b then a else b
  }

  function MaxAbs(s: seq<real>): (m: real)
    ensures m >= 0.0
  {
    if s == [] then 0.0 else Max(MaxAbs(s[..|s| - 1]), Abs(s[|s| - 1]))
  }

  lemma {:induction false} MaxAbsBounds(s: seq<real>, i: nat)
    requires i < |s|
    ensures Abs(s[i]) <= MaxAbs(s)
  {
    if i < |s| - 1 {
      MaxAbsBounds(s[..|s| - 1], i);
    }
  }

  lemma {:induction false} MaxAbsAtMost(s: seq<real>, bound: real)
    requires bound >= 0.0 && forall i :: 0 <= i < |s| ==> Abs(s[i]) <= bound
    ensures MaxAbs(s) <= bound
  {
    if s != [] {
      MaxAbsAtMost(s[..|s| - 1], bound);
    }
  }

  lemma {:induction false} MaxAbsAttained(s: seq<real>) returns (i: nat)
    requires MaxAbs(s) > 0.0
    ensures i < |s| && MaxAbs(s) == Abs(s[i])
  {
    var n := |s| - 1;
    if Abs(s[n]) == MaxAbs(s) {
      i := n;
    } else {
      i := MaxAbsAttained(s[..n]);
    }
  }

  function Values(src: seq<nat>): (v: seq<real>)
    ensures |v| == |src|
  {
    seq(|src|, i requires 0 <= i < |src| => Bf16Value(src[i]))
  }

  // ---------------------------------------------------------------- numeric range

  lemma {:induction false} Pow2Monotone(a: int, b: int)
    requires a <= b
    ensures Pow2(a) <= Pow2(b)
    decreases b - a
  {
    if a < b {
      Pow2Monotone(a, b - 1);
      Pow2Step(b - 1);
    }
  }

  lemma TinyPower()
    ensures Pow2(-149) * 8388608.0 <= TINY
  {
    assert Pow2(-8) == 1.0 / 256.0;
    assert Pow2(-16) == Pow2(-8) / 256.0;
    assert Pow2(-24) == Pow2(-16) / 256.0;
    assert Pow2(-32) == Pow2(-24) / 256.0;
    assert Pow2(-40) == Pow2(-32) / 256.0;
    assert Pow2(-48) == Pow2(-40) / 256.0;
    assert Pow2(-56) == Pow2(-48) / 256.0;
    assert Pow2(-64) == Pow2(-56) / 256.0;
    Pow2Monotone(-149, -64);
  }

  /** The smallest scale is a normal bf16 number, far from overflow. */
  lemma TinyInRange()
    ensures Grid(128) <= TINY <= Grid(MAX_FINITE)
  {
    hide Grid;
    GridValue(128);
    GridValue(MAX_FINITE);
    TinyPower();
    Pow2Monotone(0, 104);
  }

  /** A conversion that rounds every number in the finite range. */
  ghost predicate Rounds(toBf16: real -> nat) {
    forall x: real :: Abs(x) <= Grid(MAX_FINITE) ==> RoundsTo(x, toBf16(x))
  }

  /** There is such a conversion, and it can be the program's on the numbers that are f32 patterns. */
  lemma SuchAConversionExists()
    ensures exists toBf16: real -> nat ::
              && Rounds(toBf16)
              && forall x: real :: (exists bits: nat :: IsPattern(x, bits)) && Abs(x) <= Grid(MAX_FINITE) ==>
                   exists bits: nat :: IsPattern(x, bits) && toBf16(x) == F32ToBf16(bits)
  {
    hide Grid, RoundsTo, F32ToBf16, IsPattern, Convert;
    forall x: real | Abs(x) <= Grid(MAX_FINITE)
      ensures RoundsTo(x, Convert(x))
      ensures (exists bits: nat :: IsPattern(x, bits)) ==> exists bits: nat :: IsPattern(x, bits) && Convert(x) == F32ToBf16(bits)
    {
      ConvertRounds(x);
    }
    assert Rounds(Convert);
  }

  predicate AllFinite(src: seq<nat>) {
    forall i :: 0 <= i < |src| ==> Finite(src[i])
  }

  lemma FiniteBound(h: nat)
    requires Finite(h)
    ensures Abs(Bf16Value(h)) <= Grid(MAX_FINITE)
  {
    hide Grid;
    var m := if h < SIGN_16 then h else h - SIGN_16;
    GridIncreases(m, MAX_FINITE);
    GridIncreases(0, m);
    ZeroGrid();
  }

  lemma ValuesBound(src: seq<nat>)
    requires AllFinite(src)
    ensures MaxAbs(Values(src)) <= Grid(MAX_FINITE)
  {
    hide Grid, Bf16Value, MaxAbs;
    var v := Values(src);
    forall i | 0 <= i < |v| ensures Abs(v[i]) <= Grid(MAX_FINITE) {
      FiniteBound(src[i]);
    }
    GridIncreases(0, MAX_FINITE);
    ZeroGrid();
    MaxAbsAtMost(v, Grid(MAX_FINITE));
  }

  // ---------------------------------------------------------------- RNF4

  /** First scale of a group. */
  function Scale1(v: seq<real>): (a: real)
    ensures a >= TINY
  {
    Max(MaxAbs(v), TINY)
  }

  function Residual(x: real, a1: real): real
    requires a1 > 0.0
  {
    x - Mul(Level(Nf4Quantize(x / a1)), a1)
  }

  function Residuals(v: seq<real>, a1: real): (r: seq<real>)
    requires a1 > 0.0
    ensures |r| == |v|
  {
    seq(|v|, i requires 0 <= i < |v| => Residual(v[i], a1))
  }

  function Scale2(v: seq<real>): (a: real)
    ensures a >= TINY
  {
    Max(MaxAbs(Residuals(v, Scale1(v))), TINY)
  }

  /** The stored first scale is exact unless the whole group is below the smallest scale. */
  function Off1(v: seq<real>): real {
    if MaxAbs(v) >= TINY then 0.0 else TINY / 256.0
  }

  /** m is the largest absolute value. */
  ghost predicate Largest(v: seq<real>, m: real) {
    (forall i :: 0 <= i < |v| ==> Abs(v[i]) <= m) && exists i :: 0 <= i < |v| && Abs(v[i]) == m
  }

  /** The error bound of a group whose largest absolute value is m. */
  function Rnf4Bound(m: real): real {
    (0.1519036 + 1.0 / 256.0) * Max(0.1519036 * Max(m, 0.0000000001), 0.0000000001)
    + if m >= 0.0000000001 then 0.0 else 0.0000000001 / 256.0
  }

  lemma LargestIsMaxAbs(v: seq<real>, m: real)
    requires Largest(v, m)
    ensures m == MaxAbs(v)
  {
    hide MaxAbs;
    MaxAbsAtMost(v, m);
    var i: nat :| i < |v| && Abs(v[i]) == m;
    MaxAbsBounds(v, i);
  }

  lemma Rnf4BoundOfGroup(v: seq<real>, m: real)
    requires Largest(v, m)
    ensures Mul(HALF_GAP + 1.0 / 256.0, Max(Mul(HALF_GAP, Scale1(v)), TINY)) + Off1(v) == Rnf4Bound(m)
  {
    hide MaxAbs;
    LargestIsMaxAbs(v, m);
  }

  lemma Scale2Bound(v: seq<real>)
    ensures Scale2(v) <= Max(Mul(HALF_GAP, Scale1(v)), TINY)
  {
    hide Mul, MaxAbs, Nf4Quantize, Level;
    var r := Residuals(v, Scale1(v));
    forall i | 0 <= i < |r| ensures Abs(r[i]) <= Mul(HALF_GAP, Scale1(v)) {
      MaxAbsBounds(v, i);
      ScaledNf4(v[i], Scale1(v));
    }
    MulNotNegative(HALF_GAP, Scale1(v));
    MaxAbsAtMost(r, Mul(HALF_GAP, Scale1(v)));
  }

  /** Both scales are stored within 2^-8 of themselves, the first one exactly when it is an input. */
  lemma StoredScales(src: seq<nat>, toBf16: real -> nat)
    requires AllFinite(src) && Rounds(toBf16)
    ensures var v := Values(src);
            && Abs(Bf16Value(toBf16(Scale1(v))) - Scale1(v)) <= Off1(v)
            && Abs(Bf16Value(toBf16(Scale2(v))) - Scale2(v)) <= Scale2(v) / 256.0
  {
    hide Grid, Bf16Value, MaxAbs, Mul, RoundsTo, Finite;
    var v := Values(src);
    TinyInRange();
    ValuesBound(src);
    Scale2Bound(v);
    HalfOfScale(Scale1(v));
    RelativeError(Scale2(v), toBf16(Scale2(v)));
    if MaxAbs(v) >= TINY {
      var i := MaxAbsAttained(v);
      var m := Magnitude(src[i]);
      ExactWhenBf16(Scale1(v), toBf16(Scale1(v)), m);
    } else {
      RelativeError(TINY, toBf16(TINY));
    }
  }

  lemma HalfOfScale(a: real)
    requires a > 0.0
    ensures Mul(HALF_GAP, a) <= a
  {
  }

  /** Dropping the sign of a bf16 number gives its absolute value. */
  lemma Magnitude(h: nat) returns (m: nat)
    requires Finite(h)
    ensures Finite(m) && Bf16Value(m) == Abs(Bf16Value(h))
  {
    hide Grid;
    m := if h < SIGN_16 then h else h - SIGN_16;
    GridIncreases(0, m);
    ZeroGrid();
  }

  function Code1(v: seq<real>, i: nat): (c: nat)
    requires i < |v|
    ensures c < 16
  {
    Nf4Quantize(v[i] / Scale1(v))
  }

  function Code2(v: seq<real>, i: nat): (c: nat)
    requires i < |v|
    ensures c < 16
  {
    Nf4Quantize(Residual(v[i], Scale1(v)) / Scale2(v))
  }

  /** For the group's largest absolute value m, every element comes back within the bound. */
  lemma Rnf4ElementError(src: seq<nat>, toBf16: real -> nat, i: nat, m: real)
    requires AllFinite(src) && Rounds(toBf16) && i < |src| && Largest(Values(src), m)
    ensures var v := Values(src);
            Abs(Mul(Level(Code1(v, i)), Bf16Value(toBf16(Scale1(v)))) + Mul(Level(Code2(v, i)), Bf16Value(toBf16(Scale2(v)))) - v[i]) <= Rnf4Bound(m)
  {
    hide Grid, Bf16Value, MaxAbs, Mul, Level, Nf4Quantize, Scale1, Scale2, Rounds, AllFinite, Off1, Largest, Rnf4Bound;
    var v := Values(src);
    Rnf4BoundOfGroup(v, m);
    var a1, a2 := Scale1(v), Scale2(v);
    StoredScales(src, toBf16);
    Scale2Bound(v);
    InScale1(v, i);
    InScale2(v, i);
    Rnf4Error(v[i], a1, Bf16Value(toBf16(a1)), a2, Bf16Value(toBf16(a2)), Off1(v));
    var top := Max(Mul(HALF_GAP, a1), TINY);
    MulAddLeft(HALF_GAP, 1.0 / 256.0, top);
    MulMonotone(a2, top, HALF_GAP);
    MulComm(a2, HALF_GAP);
    MulComm(top, HALF_GAP);
    Part256(top);
  }

  lemma Part256(x: real)
    ensures Mul(1.0 / 256.0, x) == x / 256.0
  {
  }

  lemma InScale1(v: seq<real>, i: nat)
    requires i < |v|
    ensures Abs(v[i]) <= Scale1(v)
  {
    MaxAbsBounds(v, i);
  }

  lemma InScale2(v: seq<real>, i: nat)
    requires i < |v|
    ensures Abs(Residual(v[i], Scale1(v))) <= Scale2(v)
  {
    hide Residual, Scale1;
    MaxAbsBounds(Residuals(v, Scale1(v)), i);
  }

  // ---------------------------------------------------------------- PcG32

  function Lowest(s: seq<real>): real
    requires s != []
  {
    if |s| == 1 then s[0] else Min(Lowest(s[..|s| - 1]), s[|s| - 1])
  }

  function Highest(s: seq<real>): real
    requires s != []
  {
    if |s| == 1 then s[0] else Max(Highest(s[..|s| - 1]), s[|s| - 1])
  }

  lemma {:induction false} LowestAttained(s: seq<real>) returns (i: nat)
    requires s != []
    ensures i < |s| && Lowest(s) == s[i]
    ensures forall j :: 0 <= j < |s| ==> Lowest(s) <= s[j] <= Highest(s)
  {
    if |s| == 1 {
      i := 0;
    } else {
      var n := |s| - 1;
      i := LowestAttained(s[..n]);
      if s[n] <= Lowest(s[..n]) {
        i := n;
      }
    }
  }

  lemma {:induction false} HighestAtMost(s: seq<real>, bound: real)
    requires s != [] && forall j :: 0 <= j < |s| ==> s[j] <= bound
    ensures Highest(s) <= bound
  {
    if |s| > 1 {
      HighestAtMost(s[..|s| - 1], bound);
    }
  }

  function Scale(v: seq<real>): (a: real)
    requires v != []
    ensures a >= TINY
  {
    Max((Highest(v) - Lowest(v)) / 15.0, TINY)
  }

  /** All values lie between lo and hi. */
  predicate Between(v: seq<real>, lo: real, hi: real) {
    forall i :: 0 <= i < |v| ==> lo <= v[i] <= hi
  }

  /** The error bound of a group whose values lie between lo and hi. */
  function PcG32Bound(lo: real, hi: real): real {
    (1.0 / 2.0 + 15.0 / 256.0) * Max((hi - lo) / 15.0, 0.0000000001)
  }

  lemma PcG32BoundOfGroup(v: seq<real>, lo: real, hi: real)
    requires v != [] && Between(v, lo, hi)
    ensures Scale(v) / 2.0 + 15.0 * Scale(v) / 256.0 <= PcG32Bound(lo, hi)
  {
    hide Lowest, Highest;
    HighestAtMost(v, hi);
    var low := LowestAttained(v);
  }

  function CodeOf(v: seq<real>, i: nat): nat
    requires i < |v|
  {
    Clamp15(RoundHalfUp((v[i] - Lowest(v)) / Scale(v)))
  }

  lemma Fifteen(x: real)
    ensures Mul(15.0, x) == 15.0 * x
  {
  }

  /** For any lo and hi with the whole group between them, every element comes back within the bound. */
  lemma PcG32ElementError(src: seq<nat>, toBf16: real -> nat, i: nat, lo: real, hi: real)
    requires AllFinite(src) && Rounds(toBf16) && i < |src| && Between(Values(src), lo, hi)
    ensures var v := Values(src);
            && CodeOf(v, i) < 16
            && Abs(Mul(CodeOf(v, i) as real, Bf16Value(toBf16(Scale(v)))) + Bf16Value(toBf16(Lowest(v))) - v[i]) <= PcG32Bound(lo, hi)
  {
    hide Grid, Bf16Value, Mul, RoundsTo, Finite, Lowest, Highest, Clamp15, RoundHalfUp, PcG32Bound, Between;
    var v := Values(src);
    PcG32BoundOfGroup(v, lo, hi);
    TinyInRange();
    forall j | 0 <= j < |src| ensures Abs(v[j]) <= Grid(MAX_FINITE) {
      FiniteBound(src[j]);
    }
    var low := LowestAttained(v);
    HighestAtMost(v, Grid(MAX_FINITE));
    RelativeError(Scale(v), toBf16(Scale(v)));
    ExactWhenBf16(Lowest(v), toBf16(Lowest(v)), src[low]);
    Fifteen(Scale(v));
    PcG32Error(v[i], Lowest(v), Scale(v), Bf16Value(toBf16(Scale(v))));
  }

  // ---------------------------------------------------------------- packing a group

  /** The first codes, packed two to a byte. */
  predicate PackedFront(bytes: seq<Byte>, codes: seq<nat>) {
    && 2 * |bytes| <= |codes|
    && forall k :: 0 <= k < |bytes| ==> bytes[k] as int == codes[2 * k] + 16 * codes[2 * k + 1]
  }

  lemma PackTwoMore(bytes: seq<Byte>, codes: seq<nat>)
    requires PackedFront(bytes, codes) && 2 * |bytes| + 1 < |codes|
    requires codes[2 * |bytes|] < 16 && codes[2 * |bytes| + 1] < 16
    ensures PackedFront(bytes + [Pack(codes[2 * |bytes|], codes[2 * |bytes| + 1])], codes)
  {
  }

  lemma AllPacked(bytes: seq<Byte>, codes: seq<nat>)
    requires PackedFront(bytes, codes) && 2 * |bytes| == |codes| && forall i :: 0 <= i < |codes| ==> codes[i] < 16
    ensures Packed(bytes, 0, codes)
  {
    assert |codes| / 2 == |bytes| && |codes| % 2 == 0;
  }

  /** Two codes per byte, low nibble first. */
  method PackCodes(codes: seq<nat>) returns (bytes: seq<Byte>)
    requires |codes| % 2 == 0 && forall i :: 0 <= i < |codes| ==> codes[i] < 16
    ensures |bytes| == |codes| / 2 && Packed(bytes, 0, codes)
  {
    hide PackedFront, Packed;
    bytes := [];
    assert PackedFront(bytes, codes) by {
      NothingPacked(codes);
    }
    while 2 * |bytes| < |codes|
      invariant 2 * |bytes| <= |codes| && PackedFront(bytes, codes)
      decreases |codes| - 2 * |bytes|
    {
      PackTwoMore(bytes, codes);
      bytes := bytes + [Pack(codes[2 * |bytes|], codes[2 * |bytes| + 1])];
    }
    AllPacked(bytes, codes);
  }

  lemma NothingPacked(codes: seq<nat>)
    ensures PackedFront([], codes)
  {
  }

  function ScaleBytes(h: nat): seq<Byte>
    requires h < 65536
  {
    [h % 256, h / 256]
  }

  lemma PackedInside(front: seq<Byte>, bytes: seq<Byte>, back: seq<Byte>, codes: seq<nat>)
    requires Packed(bytes, 0, codes) && |bytes| == |codes| / 2
    ensures Packed(front + bytes + back, |front|, codes)
  {
  }

  lemma ScaleInside(front: seq<Byte>, h: nat, back: seq<Byte>)
    requires h < 65536
    ensures ScaleAt(front + ScaleBytes(h) + back, |front|) == Bf16Value(h)
  {
  }

  /** A bound the format promises for a group, from the range or the largest absolute value of its weights. */
  ghost predicate IsBound(f: Format, src: seq<nat>, bound: real) {
    match f
    case PcG32 => exists lo, hi :: Between(Values(src), lo, hi) && bound == PcG32Bound(lo, hi)
    case Rnf4 => exists m :: Largest(Values(src), m) && bound == Rnf4Bound(m)
  }

  /** Unpacking with the kernels' offsets gives every weight of the group back within every such bound. */
  ghost predicate Faithful(f: Format, src: seq<nat>, group: seq<Byte>) {
    && |group| == GroupBytes(f) && 0 < |src| <= GroupSize(f)
    && forall bound, p :: IsBound(f, src, bound) && 0 <= p < |src| ==> Abs(Dequant(f, group, p) - Bf16Value(src[p])) <= bound
  }

  lemma Rnf4GroupFaithful(src: seq<nat>, toBf16: real -> nat, main: seq<Byte>, residual: seq<Byte>, codes1: seq<nat>, codes2: seq<nat>)
    requires AllFinite(src) && Rounds(toBf16) && 0 < |src| <= 128
    requires |codes1| == 128 && |codes2| == 128 && |main| == 64 && |residual| == 64
    requires Packed(main, 0, codes1) && Packed(residual, 0, codes2)
    requires forall i :: 0 <= i < |src| ==> codes1[i] == Code1(Values(src), i) && codes2[i] == Code2(Values(src), i)
    requires toBf16(Scale1(Values(src))) < 65536 && toBf16(Scale2(Values(src))) < 65536
    ensures var v := Values(src);
            Faithful(Rnf4, src, main + ScaleBytes(toBf16(Scale1(v))) + residual + ScaleBytes(toBf16(Scale2(v))))
  {
    hide Bf16Value, Mul, Level, Packed, ScaleAt, Code, Code1, Code2, Scale1, Scale2, Rnf4Bound, Largest, Rounds, AllFinite, ScaleBytes;
    var v := Values(src);
    var s1, s2 := ScaleBytes(toBf16(Scale1(v))), ScaleBytes(toBf16(Scale2(v)));
    ScaleWidth(toBf16(Scale1(v)));
    ScaleWidth(toBf16(Scale2(v)));
    var g := main + s1 + residual + s2;
    assert [] + main + (s1 + residual + s2) == g;
    PackedInside([], main, s1 + residual + s2, codes1);
    assert (main + s1) + residual + s2 == g;
    PackedInside(main + s1, residual, s2, codes2);
    assert main + s1 + (residual + s2) == g;
    ScaleInside(main, toBf16(Scale1(v)), residual + s2);
    assert (main + s1 + residual) + s2 + [] == g;
    ScaleInside(main + s1 + residual, toBf16(Scale2(v)), []);
    forall bound, p | IsBound(Rnf4, src, bound) && 0 <= p < |src| ensures Abs(Dequant(Rnf4, g, p) - v[p]) <= bound {
      UnpackPacked(g, 0, codes1, p);
      UnpackPacked(g, 66, codes2, p);
      var m :| Largest(v, m) && bound == Rnf4Bound(m);
      Rnf4ElementError(src, toBf16, p, m);
    }
  }

  lemma ScaleWidth(h: nat)
    requires h < 65536
    ensures |ScaleBytes(h)| == 2
  {
  }

  lemma PcG32GroupFaithful(src: seq<nat>, toBf16: real -> nat, main: seq<Byte>, codes: seq<nat>)
    requires AllFinite(src) && Rounds(toBf16) && 0 < |src| <= 32
    requires |codes| == 32 && |main| == 16 && Packed(main, 0, codes)
    requires forall i :: 0 <= i < |src| ==> codes[i] == CodeOf(Values(src), i)
    requires toBf16(Lowest(Values(src))) < 65536 && toBf16(Scale(Values(src))) < 65536
    ensures var v := Values(src);
            Faithful(PcG32, src, main + ScaleBytes(toBf16(Lowest(v))) + ScaleBytes(toBf16(Scale(v))))
  {
    hide Bf16Value, Mul, Packed, ScaleAt, Code, CodeOf, Lowest, Highest, Scale, PcG32Bound, Between, Rounds, AllFinite, ScaleBytes;
    var v := Values(src);
    var s1, s2 := ScaleBytes(toBf16(Lowest(v))), ScaleBytes(toBf16(Scale(v)));
    ScaleWidth(toBf16(Lowest(v)));
    ScaleWidth(toBf16(Scale(v)));
    var g := main + s1 + s2;
    assert [] + main + (s1 + s2) == g;
    PackedInside([], main, s1 + s2, codes);
    ScaleInside(main, toBf16(Lowest(v)), s2);
    assert (main + s1) + s2 + [] == g;
    ScaleInside(main + s1, toBf16(Scale(v)), []);
    forall bound, p | IsBound(PcG32, src, bound) && 0 <= p < |src| ensures Abs(Dequant(PcG32, g, p) - v[p]) <= bound {
      UnpackPacked(g, 0, codes, p);
      var lo, hi :| Between(v, lo, hi) && bound == PcG32Bound(lo, hi);
      PcG32ElementError(src, toBf16, p, lo, hi);
    }
  }

  // ---------------------------------------------------------------- where things are in a group

  /** Code p of the block of codes at `at`: low half of a byte for even p, high half for odd p. */
  function CodeAt(group: seq<Byte>, at: nat, p: nat): (c: nat)
    requires at + p / 2 < |group|
    ensures c < 16
  {
    if p % 2 == 0 then group[at + p / 2] % 16 else group[at + p / 2] / 16
  }

  /** c is the whole number nearest to x, the larger one of two. */
  predicate IsNearest(x: real, c: nat) {
    c as real - 0.5 <= x < c as real + 0.5
  }

  /** Level c is the one nearest to x, the larger one of two. */
  predicate IsNearestLevel(x: real, c: nat)
    requires c < 16
  {
    && (c > 0 ==> (LEVELS[c - 1] + LEVELS[c]) / 2.0 <= x)
    && (c < 15 ==> x < (LEVELS[c] + LEVELS[c + 1]) / 2.0)
  }

  /** A 16-bit word, low byte first. */
  predicate WordIs(group: seq<Byte>, at: nat, word: nat)
    requires at + 1 < |group|
  {
    word == group[at] as int + 256 * (group[at + 1] as int)
  }

  /** 16 bytes of codes, the lowest value, the step. */
  ghost predicate PcG32Bytes(v: seq<real>, toBf16: real -> nat, group: seq<Byte>, lo: real, step: real) {
    && |group| == 20 && |v| <= 32 && step > 0.0
    && WordIs(group, 16, toBf16(lo)) && WordIs(group, 18, toBf16(step))
    && forall p :: 0 <= p < |v| ==> IsNearest((v[p] - lo) / step, CodeAt(group, 0, p))
  }

  /** The lowest and the highest value. */
  ghost predicate Extreme(v: seq<real>, lo: real, hi: real) {
    Between(v, lo, hi) && lo in v && hi in v
  }

  ghost predicate PcG32Layout(v: seq<real>, toBf16: real -> nat, group: seq<Byte>) {
    exists lo, hi :: Extreme(v, lo, hi) && PcG32Bytes(v, toBf16, group, lo, Max((hi - lo) / 15.0, 0.0000000001))
  }

  /** What the first round leaves of a value: the value less its level times the scale. */
  predicate LeftOver(v: seq<real>, group: seq<Byte>, scale: real, left: seq<real>)
    requires |group| == 132 && |v| <= 128
  {
    |left| == |v| && forall p :: 0 <= p < |v| ==> left[p] == v[p] - Mul(LEVELS[CodeAt(group, 0, p)], scale)
  }

  /** 64 bytes of codes and their scale, 64 bytes of codes for what is left and their scale. */
  ghost predicate Rnf4Bytes(v: seq<real>, toBf16: real -> nat, group: seq<Byte>, left: seq<real>, scale: real, scale2: real) {
    && |group| == 132 && |v| <= 128 && scale > 0.0 && scale2 > 0.0
    && WordIs(group, 64, toBf16(scale)) && WordIs(group, 130, toBf16(scale2)) && LeftOver(v, group, scale, left)
    && (forall p :: 0 <= p < |v| ==> IsNearestLevel(v[p] / scale, CodeAt(group, 0, p)))
    && forall p :: 0 <= p < |v| ==> IsNearestLevel(left[p] / scale2, CodeAt(group, 66, p))
  }

  ghost predicate Rnf4Layout(v: seq<real>, toBf16: real -> nat, group: seq<Byte>) {
    exists m, n, left :: Largest(v, m) && Largest(left, n)
      && Rnf4Bytes(v, toBf16, group, left, Max(m, 0.0000000001), Max(n, 0.0000000001))
  }

  /** The bytes of a group are what its format lays down. */
  ghost predicate LaidOut(f: Format, src: seq<nat>, toBf16: real -> nat, group: seq<Byte>) {
    match f
    case PcG32 => PcG32Layout(Values(src), toBf16, group)
    case Rnf4 => Rnf4Layout(Values(src), toBf16, group)
  }

  lemma {:induction false} MaxAbsIsLargest(v: seq<real>)
    requires v != []
    ensures Largest(v, MaxAbs(v))
  {
    hide MaxAbs;
    forall i | 0 <= i < |v| ensures Abs(v[i]) <= MaxAbs(v) {
      MaxAbsBounds(v, i);
    }
    if MaxAbs(v) > 0.0 {
      var i := MaxAbsAttained(v);
    } else {
      MaxAbsBounds(v, 0);
      assert Abs(v[0]) == MaxAbs(v);
    }
  }

  lemma {:induction false} HighestAttained(s: seq<real>) returns (i: nat)
    requires s != []
    ensures i < |s| && Highest(s) == s[i]
  {
    i := |s| - 1;
    if |s| > 1 && Highest(s) != s[i] {
      i := HighestAttained(s[..i]);
    }
  }

  lemma CodeInPlace(group: seq<Byte>, at: nat, codes: seq<nat>, p: nat)
    requires Packed(group, at, codes) && p < |codes|
    ensures at + p / 2 < |group| && CodeAt(group, at, p) == codes[p]
  {
    assert group[at + p / 2] == codes[2 * (p / 2)] + 16 * codes[2 * (p / 2) + 1];
  }

  lemma ScaleInPlace(front: seq<Byte>, h: nat, back: seq<Byte>)
    requires h < 65536
    ensures var g := front + ScaleBytes(h) + back; |g| >= |front| + 2 && WordIs(g, |front|, h)
  {
  }

  lemma BetweenExtremes(v: seq<real>, lo: real, hi: real)
    requires v != [] && lo == Lowest(v) && hi == Highest(v)
    ensures Between(v, lo, hi)
  {
    var i := LowestAttained(v);
  }

  lemma ScaleOfRange(v: seq<real>, lo: real, hi: real)
    requires v != [] && lo == Lowest(v) && hi == Highest(v)
    ensures Scale(v) == Max((hi - lo) / 15.0, 0.0000000001)
  {
  }

  /** No value of the group is out of the codes' range, so that clamping changes nothing. */
  lemma CodeIsNearest(v: seq<real>, p: nat)
    requires p < |v|
    ensures IsNearest((v[p] - Lowest(v)) / Scale(v), CodeOf(v, p))
  {
    hide Lowest, Highest, Scale;
    var i := LowestAttained(v);
    StepsFit(v, p);
    DivRange(v[p] - Lowest(v), Scale(v), 0.0, 15.0);
  }

  lemma StepsFit(v: seq<real>, p: nat)
    requires p < |v|
    ensures Mul(0.0, Scale(v)) <= v[p] - Lowest(v) <= Mul(15.0, Scale(v))
  {
    hide Lowest, Highest, Mul;
    var i := LowestAttained(v);
    MulZero(Scale(v));
    Fifteen(Scale(v));
  }

  lemma PcG32GroupLayout(src: seq<nat>, toBf16: real -> nat, main: seq<Byte>, codes: seq<nat>)
    requires 0 < |src| <= 32 && |codes| == 32 && |main| == 16 && Packed(main, 0, codes)
    requires forall i :: 0 <= i < |src| ==> codes[i] == CodeOf(Values(src), i)
    requires toBf16(Lowest(Values(src))) < 65536 && toBf16(Scale(Values(src))) < 65536
    ensures var v := Values(src);
            PcG32Layout(v, toBf16, main + ScaleBytes(toBf16(Lowest(v))) + ScaleBytes(toBf16(Scale(v))))
  {
    hide Bf16Value, Packed, Lowest, Highest, ScaleBytes, RoundHalfUp, Clamp15, CodeAt, WordIs, Between, IsNearest, Scale;
    var v := Values(src);
    var s1, s2 := ScaleBytes(toBf16(Lowest(v))), ScaleBytes(toBf16(Scale(v)));
    ScaleWidth(toBf16(Lowest(v)));
    ScaleWidth(toBf16(Scale(v)));
    var g := main + s1 + s2;
    assert [] + main + (s1 + s2) == g;
    PackedInside([], main, s1 + s2, codes);
    ScaleInPlace(main, toBf16(Lowest(v)), s2);
    assert (main + s1) + s2 + [] == g;
    ScaleInPlace(main + s1, toBf16(Scale(v)), []);
    var a := LowestAttained(v);
    var b := HighestAttained(v);
    BetweenExtremes(v, v[a], v[b]);
    assert Extreme(v, v[a], v[b]);
    forall p | 0 <= p < |src| ensures IsNearest((v[p] - v[a]) / Scale(v), CodeAt(g, 0, p)) {
      CodeInPlace(g, 0, codes, p);
      CodeIsNearest(v, p);
    }
    assert PcG32Bytes(v, toBf16, g, v[a], Scale(v));
    ScaleOfRange(v, v[a], v[b]);
  }

  lemma Rnf4GroupLayout(src: seq<nat>, toBf16: real -> nat, main: seq<Byte>, residual: seq<Byte>, codes1: seq<nat>, codes2: seq<nat>)
    requires 0 < |src| <= 128 && |codes1| == 128 && |codes2| == 128 && |main| == 64 && |residual| == 64
    requires Packed(main, 0, codes1) && Packed(residual, 0, codes2)
    requires forall i :: 0 <= i < |src| ==> codes1[i] == Code1(Values(src), i) && codes2[i] == Code2(Values(src), i)
    requires toBf16(Scale1(Values(src))) < 65536 && toBf16(Scale2(Values(src))) < 65536
    ensures var v := Values(src);
            Rnf4Layout(v, toBf16, main + ScaleBytes(toBf16(Scale1(v))) + residual + ScaleBytes(toBf16(Scale2(v))))
  {
    hide Bf16Value, Packed, Residual, Nf4Quantize, MaxAbs, ScaleBytes, CodeAt, WordIs, Largest, IsNearestLevel, LeftOver;
    var v := Values(src);
    var s1, s2 := ScaleBytes(toBf16(Scale1(v))), ScaleBytes(toBf16(Scale2(v)));
    ScaleWidth(toBf16(Scale1(v)));
    ScaleWidth(toBf16(Scale2(v)));
    var g := main + s1 + residual + s2;
    assert [] + main + (s1 + residual + s2) == g;
    PackedInside([], main, s1 + residual + s2, codes1);
    assert (main + s1) + residual + s2 == g;
    PackedInside(main + s1, residual, s2, codes2);
    assert main + s1 + (residual + s2) == g;
    ScaleInPlace(main, toBf16(Scale1(v)), residual + s2);
    assert (main + s1 + residual) + s2 + [] == g;
    ScaleInPlace(main + s1 + residual, toBf16(Scale2(v)), []);
    MaxAbsIsLargest(v);
    MaxAbsIsLargest(Residuals(v, Scale1(v)));
    var left := Residuals(v, Scale1(v));
    forall p | 0 <= p < |src|
      ensures IsNearestLevel(v[p] / Scale1(v), CodeAt(g, 0, p))
      ensures IsNearestLevel(left[p] / Scale2(v), CodeAt(g, 66, p))
      ensures CodeAt(g, 0, p) == Nf4Quantize(v[p] / Scale1(v))
    {
      CodeInPlace(g, 0, codes1, p);
      CodeInPlace(g, 66, codes2, p);
      QuantizeIsNearest(v[p] / Scale1(v));
      QuantizeIsNearest(left[p] / Scale2(v));
    }
    ResidualsAreLeft(v, g, Scale1(v));
    assert Rnf4Bytes(v, toBf16, g, left, Scale1(v), Scale2(v));
  }

  lemma QuantizeIsNearest(x: real)
    ensures IsNearestLevel(x, Nf4Quantize(x))
  {
    SearchBrackets(x);
  }

  lemma ResidualsAreLeft(v: seq<real>, group: seq<Byte>, scale: real)
    requires |group| == 132 && |v| <= 128 && scale > 0.0
    requires forall p :: 0 <= p < |v| ==> CodeAt(group, 0, p) == Nf4Quantize(v[p] / scale)
    ensures LeftOver(v, group, scale, Residuals(v, scale))
  {
    hide Nf4Quantize, CodeAt, Mul;
  }

  // ---------------------------------------------------------------- the quantisers

  lemma FitsAWord(toBf16: real -> nat, x: real)
    requires Rounds(toBf16) && Abs(x) <= Grid(MAX_FINITE)
    ensures toBf16(x) < 65536
  {
  }

  lemma Rnf4ScalesFit(src: seq<nat>, toBf16: real -> nat)
    requires AllFinite(src) && Rounds(toBf16)
    ensures toBf16(Scale1(Values(src))) < 65536 && toBf16(Scale2(Values(src))) < 65536
  {
    hide Grid, Bf16Value, Mul, MaxAbs, Rounds, AllFinite, Residuals;
    var v := Values(src);
    TinyInRange();
    ValuesBound(src);
    Scale2Bound(v);
    HalfOfScale(Scale1(v));
    FitsAWord(toBf16, Scale1(v));
    FitsAWord(toBf16, Scale2(v));
  }

  lemma PcG32ScalesFit(src: seq<nat>, toBf16: real -> nat)
    requires AllFinite(src) && Rounds(toBf16) && src != []
    ensures toBf16(Lowest(Values(src))) < 65536 && toBf16(Scale(Values(src))) < 65536
  {
    hide Grid, Bf16Value, Rounds, Lowest, Highest, Finite;
    var v := Values(src);
    TinyInRange();
    var low := LowestAttained(v);
    forall j | 0 <= j < |v| ensures Abs(v[j]) <= Grid(MAX_FINITE) {
      FiniteBound(src[j]);
    }
    HighestAtMost(v, Grid(MAX_FINITE));
    FitsAWord(toBf16, Lowest(v));
    FitsAWord(toBf16, Scale(v));
  }

  function Padded(codes: seq<nat>, n: nat): (all: seq<nat>)
    requires |codes| <= n
    ensures |all| == n
  {
    codes + seq(n - |codes|, i => 0)
  }

  /** The largest absolute value. */
  method AbsMax(v: seq<real>) returns (m: real)
    ensures m == MaxAbs(v)
  {
    m := 0.0;
    for i := 0 to |v|
      invariant m == MaxAbs(v[..i])
    {
      assert v[..i + 1][..i] == v[..i];
      m := Max(m, Abs(v[i]));
    }
    assert v[..|v|] == v;
  }

  /** Two rounds of NF4: the values, then what the first round left. */
  method QuantizeRnf4Group(src: seq<nat>, toBf16: real -> nat) returns (group: seq<Byte>)
    requires AllFinite(src) && Rounds(toBf16) && 0 < |src| <= 128
    ensures Faithful(Rnf4, src, group) && LaidOut(Rnf4, src, toBf16, group)
  {
    hide Rnf4Layout, Bf16Value, Mul, Level, Nf4Quantize, MaxAbs, Rounds, AllFinite, Faithful, Packed, ScaleBytes;
    var v := Values(src);
    var m1 := AbsMax(v);
    var a1 := Max(m1, TINY);
    var codes1, residuals := [], [];
    for i := 0 to |src|
      invariant |codes1| == i && |residuals| == i
      invariant forall k :: 0 <= k < i ==> codes1[k] == Code1(v, k) && residuals[k] == Residual(v[k], a1)
    {
      var code := Nf4Quantize(v[i] / a1);
      codes1, residuals := codes1 + [code], residuals + [v[i] - Mul(Level(code), a1)];
    }
    assert residuals == Residuals(v, Scale1(v));
    var m2 := AbsMax(residuals);
    var a2 := Max(m2, TINY);
    var codes2 := [];
    for i := 0 to |src|
      invariant |codes2| == i
      invariant forall k :: 0 <= k < i ==> codes2[k] == Code2(v, k)
    {
      codes2 := codes2 + [Nf4Quantize(residuals[i] / a2)];
    }
    Rnf4ScalesFit(src, toBf16);
    codes1, codes2 := Padded(codes1, 128), Padded(codes2, 128);
    var main := PackCodes(codes1);
    var rest := PackCodes(codes2);
    Rnf4GroupFaithful(src, toBf16, main, rest, codes1, codes2);
    Rnf4GroupLayout(src, toBf16, main, rest, codes1, codes2);
    group := main + ScaleBytes(toBf16(a1)) + rest + ScaleBytes(toBf16(a2));
  }

  /** Lowest and highest value. */
  method Extremes(v: seq<real>) returns (low: real, high: real)
    requires v != []
    ensures low == Lowest(v) && high == Highest(v)
  {
    low, high := v[0], v[0];
    for i := 1 to |v|
      invariant low == Lowest(v[..i]) && high == Highest(v[..i])
    {
      assert v[..i + 1][..i] == v[..i];
      low, high := Min(low, v[i]), Max(high, v[i]);
    }
    assert v[..|v|] == v;
  }

  /** Sixteen uniform steps between the lowest and the highest value. */
  method QuantizePcG32Group(src: seq<nat>, toBf16: real -> nat) returns (group: seq<Byte>)
    requires AllFinite(src) && Rounds(toBf16) && 0 < |src| <= 32
    ensures Faithful(PcG32, src, group) && LaidOut(PcG32, src, toBf16, group)
  {
    hide PcG32Layout, Bf16Value, Mul, Lowest, Highest, Rounds, AllFinite, Faithful, Packed, ScaleBytes, RoundHalfUp;
    var v := Values(src);
    var mn, mx := Extremes(v);
    var scale := Max((mx - mn) / 15.0, TINY);
    var codes := [];
    for i := 0 to |src|
      invariant |codes| == i && forall k :: 0 <= k < i ==> codes[k] == CodeOf(v, k) && codes[k] < 16
    {
      codes := codes + [Clamp15(RoundHalfUp((v[i] - mn) / scale))];
    }
    PcG32ScalesFit(src, toBf16);
    codes := Padded(codes, 32);
    var main := PackCodes(codes);
    PcG32GroupFaithful(src, toBf16, main, codes);
    PcG32GroupLayout(src, toBf16, main, codes);
    group := main + ScaleBytes(toBf16(mn)) + ScaleBytes(toBf16(scale));
  }

  // ---------------------------------------------------------------- rows

  function NumGroups(f: Format, inDim: nat): nat {
    (inDim + GroupSize(f) - 1) / GroupSize(f)
  }

  /** Elements of group g of a row. */
  function Count(f: Format, inDim: nat, g: nat): nat
    requires g < NumGroups(f, inDim)
  {
    if inDim - g * GroupSize(f) < GroupSize(f) then inDim - g * GroupSize(f) else GroupSize(f)
  }

  lemma CountFits(f: Format, inDim: nat, g: nat)
    requires g < NumGroups(f, inDim)
    ensures g * GroupSize(f) < inDim && 0 < Count(f, inDim, g) <= GroupSize(f)
    ensures g * GroupSize(f) + Count(f, inDim, g) <= inDim
  {
  }

  function SourceGroup(f: Format, src: seq<nat>, inDim: nat, g: nat): seq<nat>
    requires |src| == inDim && g < NumGroups(f, inDim)
  {
    CountFits(f, inDim, g);
    src[g * GroupSize(f)..g * GroupSize(f) + Count(f, inDim, g)]
  }

  function PackedGroup(f: Format, row: seq<Byte>, n: nat, g: nat): (group: seq<Byte>)
    requires |row| == n * GroupBytes(f) && g < n
    ensures |group| == GroupBytes(f)
  {
    MultiplesApart(g, n, GroupBytes(f));
    row[g * GroupBytes(f)..g * GroupBytes(f) + GroupBytes(f)]
  }

  /** A row of weights, group by group; every group comes back within its bound. */
  method QuantizeRow(f: Format, src: seq<nat>, toBf16: real -> nat) returns (row: seq<Byte>)
    requires AllFinite(src) && Rounds(toBf16)
    ensures |row| == NumGroups(f, |src|) * GroupBytes(f)
    ensures forall g: nat :: g < NumGroups(f, |src|) ==> Faithful(f, SourceGroup(f, src, |src|, g), PackedGroup(f, row, NumGroups(f, |src|), g))
    ensures forall g: nat :: g < NumGroups(f, |src|) ==> LaidOut(f, SourceGroup(f, src, |src|, g), toBf16, PackedGroup(f, row, NumGroups(f, |src|), g))
  {
    hide Rounds, Faithful, Finite, LaidOut, Bf16Value;
    var n := NumGroups(f, |src|);
    row := [];
    var g := 0;
    while g < n
      invariant 0 <= g <= n && |row| == g * GroupBytes(f)
      invariant forall k: nat :: k < g ==> Faithful(f, SourceGroup(f, src, |src|, k), PackedGroup(f, row, g, k))
      invariant forall k: nat :: k < g ==> LaidOut(f, SourceGroup(f, src, |src|, k), toBf16, PackedGroup(f, row, g, k))
    {
      CountFits(f, |src|, g);
      var part := SourceGroup(f, src, |src|, g);
      var group;
      if f.Rnf4? {
        group := QuantizeRnf4Group(part, toBf16);
      } else {
        group := QuantizePcG32Group(part, toBf16);
      }
      FaithfulSize(f, part, group);
      GroupAppended(f, row, g, group);
      row := row + group;
      g := g + 1;
    }
  }

  lemma FaithfulSize(f: Format, src: seq<nat>, group: seq<Byte>)
    requires Faithful(f, src, group)
    ensures |group| == GroupBytes(f)
  {
  }

  lemma GroupAppended(f: Format, row: seq<Byte>, n: nat, group: seq<Byte>)
    requires |row| == n * GroupBytes(f) && |group| == GroupBytes(f)
    ensures |row + group| == (n + 1) * GroupBytes(f)
    ensures PackedGroup(f, row + group, n + 1, n) == group
    ensures forall k: nat :: k < n ==> PackedGroup(f, row + group, n + 1, k) == PackedGroup(f, row, n, k)
  {
  }
}
