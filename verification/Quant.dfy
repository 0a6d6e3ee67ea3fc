/** Group quantisation: packing nibbles and bf16 scales, and how far the unpacked values are off. */
module Quant {
  import opened Reals
  import opened LittleEndian
  import opened Bf16
  import opened Nf4

  datatype Format = PcG32 | Rnf4

  function GroupSize(f: Format): nat {
    if f.PcG32? then 32 else 128
  }

  function GroupBytes(f: Format): nat {
    if f.PcG32? then 20 else 132
  }

  const TINY: real := 0.0000000001

  // ---------------------------------------------------------------- bytes

  function Pack(low: nat, high: nat): Byte
    requires low < 16 && high < 16
  {
    low + 16 * high
  }

  function Nibble(b: Byte, odd: bool): (n: nat)
    ensures n < 16
  {
    if odd then b / 16 else b % 16
  }

  /** Element p of a group is nibble p % 2 of byte p / 2. */
  function Code(bytes: seq<Byte>, at: nat, p: nat): (n: nat)
    requires at + p / 2 < |bytes|
    ensures n < 16
  {
    Nibble(bytes[at + p / 2], p % 2 == 1)
  }

  function ScaleAt(bytes: seq<Byte>, at: nat): real
    requires at + 1 < |bytes|
  {
    var low: nat, high: nat := bytes[at], bytes[at + 1];
    Bf16Value(low + 256 * high)
  }

  /** The value the kernels unpack for element p of a group. */
  function Dequant(f: Format, group: seq<Byte>, p: nat): real
    requires |group| == GroupBytes(f) && p < GroupSize(f)
  {
    match f
    case PcG32 => Mul(Code(group, 0, p) as real, ScaleAt(group, 18)) + ScaleAt(group, 16)
    case Rnf4 => Mul(Level(Code(group, 0, p)), ScaleAt(group, 64)) + Mul(Level(Code(group, 66, p)), ScaleAt(group, 130))
  }

  predicate Packed(bytes: seq<Byte>, at: nat, codes: seq<nat>) {
    && |codes| % 2 == 0 && at + |codes| / 2 <= |bytes|
    && (forall i :: 0 <= i < |codes| ==> codes[i] < 16)
    && (forall i :: 0 <= i < |codes| / 2 ==> bytes[at + i] as int == codes[2 * i] + 16 * codes[2 * i + 1])
  }

  lemma UnpackPacked(bytes: seq<Byte>, at: nat, codes: seq<nat>, p: nat)
    requires Packed(bytes, at, codes) && p < |codes|
    ensures Code(bytes, at, p) == codes[p]
  {
    assert bytes[at + p / 2] == codes[2 * (p / 2)] + 16 * codes[2 * (p / 2) + 1];
  }

  // ---------------------------------------------------------------- error of one value

  /** Quantising to the codebook scaled by `scale` is off by at most half a gap. */
  lemma ScaledNf4(v: real, scale: real)
    requires scale > 0.0 && Abs(v) <= scale
    ensures Abs(v - Mul(Level(Nf4Quantize(v / scale)), scale)) <= Mul(HALF_GAP, scale)
  {
    hide Nf4Quantize, Level, Mul;
    Units(scale);
    DivRange(v, scale, -1.0, 1.0);
    var x := v / scale;
    Nf4Error(x);
    DivMul(v, scale);
    MulBound(x - Level(Nf4Quantize(x)), scale, HALF_GAP);
    MulSubLeft(x, Level(Nf4Quantize(x)), scale);
  }

  lemma Units(x: real)
    ensures Mul(1.0, x) == x && Mul(-1.0, x) == -x && Mul(x, 1.0) == x
  {
  }

  /** A level times a scale that is stored inexactly. */
  lemma StoredScale(i: nat, a: real, b: real, off: real)
    requires i < 16 && Abs(b - a) <= off
    ensures Abs(Mul(Level(i), b) - Mul(Level(i), a)) <= off
  {
  }

  /** Two rounds of NF4, with scales stored as b1 and b2. */
  lemma Rnf4Error(v: real, a1: real, b1: real, a2: real, b2: real, off1: real)
    requires a1 > 0.0 && Abs(v) <= a1 && Abs(b1 - a1) <= off1
    requires Abs(v - Mul(Level(Nf4Quantize(v / a1)), a1)) <= a2
    requires a2 > 0.0 && Abs(b2 - a2) <= a2 / 256.0
    ensures var i1 := Nf4Quantize(v / a1);
            var i2 := Nf4Quantize((v - Mul(Level(i1), a1)) / a2);
            Abs(Mul(Level(i1), b1) + Mul(Level(i2), b2) - v) <= Mul(HALF_GAP, a2) + a2 / 256.0 + off1
  {
    hide Nf4Quantize, Level, Mul;
    var i1 := Nf4Quantize(v / a1);
    var r := v - Mul(Level(i1), a1);
    ScaledNf4(r, a2);
    StoredScale(i1, a1, b1, off1);
    StoredScale(Nf4Quantize(r / a2), a2, b2, a2 / 256.0);
  }

  function RoundHalfUp(x: real): int {
    (x + 0.5).Floor
  }

  function Clamp15(i: int): nat {
    if i < 0 then 0 else if i > 15 then 15 else i
  }

  lemma RoundError(y: real)
    requires 0.0 <= y <= 15.0
    ensures var i := Clamp15(RoundHalfUp(y)); i < 16 && Abs(i as real - y) <= 0.5
  {
  }

  /** Uniform quantisation of a value between mn and mn + 15 * scale. */
  lemma PcG32Error(v: real, mn: real, scale: real, stored: real)
    requires scale > 0.0 && mn <= v <= mn + Mul(15.0, scale) && Abs(stored - scale) <= scale / 256.0
    ensures var i := Clamp15(RoundHalfUp((v - mn) / scale));
            i < 16 && Abs(Mul(i as real, stored) + mn - v) <= scale / 2.0 + 15.0 * scale / 256.0
  {
    hide Mul, RoundHalfUp, Clamp15;
    MulZero(scale);
    DivRange(v - mn, scale, 0.0, 15.0);
    var y := (v - mn) / scale;
    RoundError(y);
    var i := Clamp15(RoundHalfUp(y));
    DivMul(v - mn, scale);
    MulBound(i as real - y, scale, 0.5);
    MulSubLeft(i as real, y, scale);
    MulBounds(i as real, stored - scale, 15.0, scale / 256.0);
    MulSubRight(i as real, stored, scale);
    Constants(scale);
  }

  lemma Constants(x: real)
    ensures Mul(0.5, x) == x / 2.0 && Mul(15.0, x / 256.0) == 15.0 * x / 256.0
  {
  }
}
