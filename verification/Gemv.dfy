/**
 The fused dequantise-and-multiply kernels, in exact arithmetic.  A block handles one row at a
 time; its threads share the row's groups, several lanes to a group; lanes are added by a
 butterfly, groups through shared memory.
 */
module Gemv {
  import opened Arithmetic
  import opened Reals
  import opened Sums
  import opened Reduce
  import opened LittleEndian
  import opened Bf16
  import opened Nf4
  import opened Quant
  import opened Quantizer

  // ---------------------------------------------------------------- the reference

  /** Term j of the dot product of a dequantised row with the input; nothing beyond the row's length. */
  function Term(f: Format, row: seq<Byte>, input: seq<real>, inDim: nat, j: nat): real {
    var n := NumGroups(f, inDim);
    if j < inDim && j < |input| && |row| == n * GroupBytes(f) && j / GroupSize(f) < n then
      Mul(Dequant(f, PackedGroup(f, row, n, j / GroupSize(f)), j % GroupSize(f)), input[j])
    else 0.0
  }

  function Terms(f: Format, row: seq<Byte>, input: seq<real>, inDim: nat): nat -> real {
    (j: nat) => Term(f, row, input, inDim, j)
  }

  /** The dot product of the dequantised row with the input. */
  function RowDot(f: Format, row: seq<Byte>, input: seq<real>, inDim: nat): real {
    Sum(Terms(f, row, input, inDim), 0, inDim)
  }

  // ---------------------------------------------------------------- one thread

  /** The value a thread unpacks from byte k of a group. */
  function Unpack(f: Format, gp: seq<Byte>, k: nat, odd: bool): real
    requires |gp| == GroupBytes(f) && 2 * k + 1 < GroupSize(f)
  {
    match f
    case PcG32 => Mul(Nibble(gp[k], odd) as real, ScaleAt(gp, 18)) + ScaleAt(gp, 16)
    case Rnf4 => Mul(Level(Nibble(gp[k], odd)), ScaleAt(gp, 64)) + Mul(Level(Nibble(gp[66 + k], odd)), ScaleAt(gp, 130))
  }

  lemma UnpackIsDequant(f: Format, gp: seq<Byte>, k: nat)
    requires |gp| == GroupBytes(f) && 2 * k + 1 < GroupSize(f)
    ensures Unpack(f, gp, k, false) == Dequant(f, gp, 2 * k)
    ensures Unpack(f, gp, k, true) == Dequant(f, gp, 2 * k + 1)
  {
    hide ScaleAt, Level, Mul;
  }

  /** The shape of a launch: tpg lanes work on a group, elems elements each. */
  datatype Shape = Shape(f: Format, tpg: nat, groupsPerBlock: nat)

  predicate ShapeOk(s: Shape) {
    Width(s.tpg) && (s.f.Rnf4? ==> s.tpg <= 8) && s.groupsPerBlock > 0
  }

  function Elems(s: Shape): nat
    requires ShapeOk(s)
  {
    GroupSize(s.f) / s.tpg
  }

  lemma ShapeFacts(s: Shape)
    requires ShapeOk(s)
    ensures Elems(s) % 2 == 0 && Elems(s) > 0 && s.tpg * Elems(s) == GroupSize(s.f)
  {
  }

  function Base(s: Shape, g: nat, lane: nat): nat
    requires ShapeOk(s)
  {
    g * GroupSize(s.f) + lane * Elems(s)
  }

  /** What lane `lane` adds up of group g. */
  function LaneTerm(s: Shape, t: nat -> real, lane: nat): nat -> real
    requires ShapeOk(s)
  {
    (g: nat) => Sum(t, Base(s, g, lane), Base(s, g, lane) + Elems(s))
  }

  lemma InGroup(s: Shape, g: nat, lane: nat, e: nat)
    requires ShapeOk(s) && lane < s.tpg && e < Elems(s)
    ensures (Base(s, g, lane) + e) / GroupSize(s.f) == g
    ensures (Base(s, g, lane) + e) % GroupSize(s.f) == lane * Elems(s) + e
  {
  }

  lemma InGroupPair(s: Shape, g: nat, lane: nat, b: nat)
    requires ShapeOk(s) && lane < s.tpg && 2 * b + 1 < Elems(s)
    ensures lane * Elems(s) + 2 * b + 1 < GroupSize(s.f) && lane * (Elems(s) / 2) * 2 == lane * Elems(s)
  {
  }

  /** A pair of nibbles is the pair of terms at its place in the row, as far as the row goes. */
  lemma PairTerms(s: Shape, row: seq<Byte>, input: seq<real>, inDim: nat, g: nat, lane: nat, b: nat)
    requires ShapeOk(s) && lane < s.tpg && 2 * b + 1 < Elems(s) && g < NumGroups(s.f, inDim)
    requires |row| == NumGroups(s.f, inDim) * GroupBytes(s.f) && |input| >= inDim
    ensures 2 * (lane * (Elems(s) / 2) + b) + 1 < GroupSize(s.f)
    ensures var gp := PackedGroup(s.f, row, NumGroups(s.f, inDim), g);
            var k, e := lane * (Elems(s) / 2) + b, Base(s, g, lane) + 2 * b;
            && (e < inDim ==> Mul(Unpack(s.f, gp, k, false), input[e]) == Term(s.f, row, input, inDim, e))
            && (e + 1 < inDim ==> Mul(Unpack(s.f, gp, k, true), input[e + 1]) == Term(s.f, row, input, inDim, e + 1))
  {
    hide NumGroups, Unpack, Dequant, Mul, PackedGroup, Elems;
    InGroupPair(s, g, lane, b);
    InGroup(s, g, lane, 2 * b);
    InGroup(s, g, lane, 2 * b + 1);
    UnpackIsDequant(s.f, PackedGroup(s.f, row, NumGroups(s.f, inDim), g), lane * (Elems(s) / 2) + b);
  }

  lemma NothingBeyond(f: Format, row: seq<Byte>, input: seq<real>, inDim: nat, lo: nat, hi: nat)
    requires lo >= inDim
    ensures Sum(Terms(f, row, input, inDim), lo, hi) == 0.0
  {
  }

  /** The bytes of one group that belong to one lane; padding beyond the row's length is not touched. */
  method LaneSum(s: Shape, row: seq<Byte>, input: seq<real>, inDim: nat, g: nat, lane: nat) returns (acc: real)
    requires ShapeOk(s) && lane < s.tpg && g < NumGroups(s.f, inDim)
    requires |row| == NumGroups(s.f, inDim) * GroupBytes(s.f) && |input| >= inDim
    ensures acc == LaneTerm(s, Terms(s.f, row, input, inDim), lane)(g)
  {
    hide NumGroups, Unpack, Dequant, Mul, Term, Elems, PackedGroup, Sum, Base;
    ShapeFacts(s);
    ghost var t := Terms(s.f, row, input, inDim);
    var gp := PackedGroup(s.f, row, NumGroups(s.f, inDim), g);
    var elems, bytes, base := Elems(s), Elems(s) / 2, Base(s, g, lane);
    var byteOff := lane * bytes;
    var count := if elems < inDim - base then elems else inDim - base;
    acc := 0.0;
    SumOfNothing(t, base);
    var b := 0;
    while b < bytes && b * 2 < count
      invariant 0 <= b <= bytes
      invariant b > 0 ==> 2 * b <= count + 1
      invariant acc == Sum(t, base, base + 2 * b)
    {
      PairTerms(s, row, input, inDim, g, lane, b);
      acc := acc + Mul(Unpack(s.f, gp, byteOff + b, false), input[base + b * 2]);
      if b * 2 + 1 < count {
        acc := acc + Mul(Unpack(s.f, gp, byteOff + b, true), input[base + b * 2 + 1]);
      } else {
        TermBeyond(s.f, row, input, inDim, base + b * 2 + 1);
      }
      SumTwoMore(t, base, base + 2 * b);
      b := b + 1;
    }
    SumSplit(t, base, base + 2 * b, base + elems);
    if b < bytes {
      NothingBeyond(s.f, row, input, inDim, base + 2 * b, base + elems);
    } else {
      SumOfNothing(t, base + elems);
    }
  }

  lemma TermBeyond(f: Format, row: seq<Byte>, input: seq<real>, inDim: nat, j: nat)
    requires j >= inDim
    ensures Term(f, row, input, inDim, j) == 0.0
  {
  }

  /** One thread: its lane's share of every groupsPerBlock-th group. */
  method ThreadSum(s: Shape, row: seq<Byte>, input: seq<real>, inDim: nat, groupInBlock: nat, lane: nat) returns (acc: real)
    requires ShapeOk(s) && lane < s.tpg && |input| >= inDim
    requires |row| == NumGroups(s.f, inDim) * GroupBytes(s.f)
    ensures acc == Strided(LaneTerm(s, Terms(s.f, row, input, inDim), lane), groupInBlock, s.groupsPerBlock, NumGroups(s.f, inDim))
  {
    hide NumGroups, LaneTerm;
    ghost var f := LaneTerm(s, Terms(s.f, row, input, inDim), lane);
    acc := 0.0;
    var g := groupInBlock;
    while g < NumGroups(s.f, inDim)
      invariant acc + Strided(f, g, s.groupsPerBlock, NumGroups(s.f, inDim)) == Strided(f, groupInBlock, s.groupsPerBlock, NumGroups(s.f, inDim))
      decreases NumGroups(s.f, inDim) - g
    {
      var part := LaneSum(s, row, input, inDim, g, lane);
      acc := acc + part;
      g := g + s.groupsPerBlock;
    }
  }

  // ---------------------------------------------------------------- one row

  function GroupTerm(f: Format, t: nat -> real): nat -> real {
    (g: nat) => Sum(t, g * GroupSize(f), g * GroupSize(f) + GroupSize(f))
  }

  lemma {:induction false} TotalIsSum(v: seq<real>, f: nat -> real)
    requires forall i: nat :: i < |v| ==> v[i] == f(i)
    ensures Total(v) == Sum(f, 0, |v|)
  {
    if v != [] {
      TotalIsSum(v[..|v| - 1], f);
    }
  }

  /** The lanes of a group add up to the group. */
  lemma LanesMakeGroup(s: Shape, t: nat -> real, g: nat)
    requires ShapeOk(s)
    ensures Sum((l: nat) => LaneTerm(s, t, l)(g), 0, s.tpg) == GroupTerm(s.f, t)(g)
  {
    hide Elems, Sum;
    ShapeFacts(s);
    var piece := (l: nat) => LaneTerm(s, t, l)(g);
    forall l: nat | l < s.tpg
      ensures piece(l) == Sum(t, g * GroupSize(s.f) + l * Elems(s), g * GroupSize(s.f) + l * Elems(s) + Elems(s))
    {
      assert LaneTerm(s, t, l)(g) == Sum(t, Base(s, g, l), Base(s, g, l) + Elems(s));
    }
    SumPieces(t, piece, g * GroupSize(s.f), Elems(s), s.tpg);
    SumSame(piece, (l: nat) => LaneTerm(s, t, l)(g), 0, s.tpg);
  }

  /** What the lanes of one group slot add up to. */
  lemma SlotSum(s: Shape, t: nat -> real, v: seq<real>, slot: nat, n: nat)
    requires ShapeOk(s) && |v| == s.tpg
    requires forall l: nat :: l < s.tpg ==> v[l] == Strided(LaneTerm(s, t, l), slot, s.groupsPerBlock, n)
    ensures Total(v) == Strided(GroupTerm(s.f, t), slot, s.groupsPerBlock, n)
  {
    hide GroupTerm, Strided, Total;
    var f := (l: nat) => LaneTerm(s, t, l);
    var lane := (l: nat) => Strided(f(l), slot, s.groupsPerBlock, n);
    forall g: nat ensures GroupTerm(s.f, t)(g) == Sum((l: nat) => f(l)(g), 0, s.tpg) {
      LanesMakeGroup(s, t, g);
      SumSame((l: nat) => LaneTerm(s, t, l)(g), (l: nat) => f(l)(g), 0, s.tpg);
    }
    StridedOfSum(f, GroupTerm(s.f, t), lane, slot, s.groupsPerBlock, n, s.tpg);
    TotalIsSum(v, lane);
  }

  lemma GroupsCover(f: Format, inDim: nat)
    ensures inDim <= NumGroups(f, inDim) * GroupSize(f)
  {
  }

  /** All groups of the row, padding included, add up to the row. */
  lemma GroupsMakeRow(f: Format, row: seq<Byte>, input: seq<real>, inDim: nat)
    ensures Sum(GroupTerm(f, Terms(f, row, input, inDim)), 0, NumGroups(f, inDim)) == RowDot(f, row, input, inDim)
  {
    hide Sum, Term, NumGroups;
    var t, n := Terms(f, row, input, inDim), NumGroups(f, inDim);
    GroupsCover(f, inDim);
    SumPieces(t, GroupTerm(f, t), 0, GroupSize(f), n);
    SumSplit(t, 0, inDim, n * GroupSize(f));
    NothingBeyond(f, row, input, inDim, inDim, n * GroupSize(f));
  }

  lemma SlotsMakeRow(s: Shape, row: seq<Byte>, input: seq<real>, inDim: nat, shared: seq<real>)
    requires ShapeOk(s) && |shared| == s.groupsPerBlock
    requires forall k: nat :: k < |shared| ==>
               shared[k] == Strided(GroupTerm(s.f, Terms(s.f, row, input, inDim)), k, s.groupsPerBlock, NumGroups(s.f, inDim))
    ensures Total(shared) == RowDot(s.f, row, input, inDim)
  {
    hide GroupTerm, NumGroups, RowDot, Total;
    var f, n := GroupTerm(s.f, Terms(s.f, row, input, inDim)), NumGroups(s.f, inDim);
    var start := (k: nat) => Strided(f, k, s.groupsPerBlock, n);
    TotalIsSum(shared, start);
    StridesCover(f, start, 0, s.groupsPerBlock, n);
    GroupsMakeRow(s.f, row, input, inDim);
  }

  /** Threads there are for each group. */
  function PerGroup(blockDim: nat, groups: nat): nat {
    blockDim / (if groups > 1 then groups else 1)
  }

  /** Threads per group: the largest power of two that the block and the cap allow. */
  method ThreadsPerGroup(blockDim: nat, groups: nat, cap: nat) returns (tpg: nat)
    requires cap == 8 || cap == 16
    ensures Width(tpg) && tpg <= cap
    ensures tpg == 1 || tpg <= PerGroup(blockDim, groups)
    ensures tpg == cap || PerGroup(blockDim, groups) < 2 * tpg
  {
    hide PerGroup;
    var raw := PerGroup(blockDim, groups);
    raw := if raw < cap then raw else cap;
    tpg := 1;
    while tpg * 2 <= raw
      invariant Width(tpg) && (tpg == 1 || tpg <= raw)
      decreases raw - tpg
    {
      tpg := tpg * 2;
    }
  }

  /** One row: lanes through the butterfly, group slots through shared memory. */
  method BlockRow(f: Format, row: seq<Byte>, input: seq<real>, inDim: nat, blockDim: nat) returns (total: real)
    requires blockDim > 0 && blockDim % 16 == 0 && |input| >= inDim
    requires |row| == NumGroups(f, inDim) * GroupBytes(f)
    ensures total == RowDot(f, row, input, inDim)
  {
    hide NumGroups, GroupTerm, LaneTerm, RowDot, Terms, Butterfly, Strided;
    var n := NumGroups(f, inDim);
    var tpg := ThreadsPerGroup(blockDim, n, if f.PcG32? then 16 else 8);
    var s := Shape(f, tpg, blockDim / tpg);
    ghost var t := Terms(f, row, input, inDim);
    var shared: seq<real> := [];
    for slot := 0 to s.groupsPerBlock
      invariant |shared| == slot
      invariant forall k: nat :: k < slot ==> shared[k] == Strided(GroupTerm(f, t), k, s.groupsPerBlock, n)
    {
      var lanes: seq<real> := [];
      for lane := 0 to tpg
        invariant |lanes| == lane
        invariant forall l: nat :: l < lane ==> lanes[l] == Strided(LaneTerm(s, t, l), slot, s.groupsPerBlock, n)
      {
        var acc := ThreadSum(s, row, input, inDim, slot, lane);
        lanes := lanes + [acc];
      }
      SlotSum(s, t, lanes, slot, n);
      ButterflySums(lanes, 0);
      shared := shared + [Butterfly(lanes)[0]];
    }
    SlotsMakeRow(s, row, input, inDim, shared);
    total := 0.0;
    for g := 0 to s.groupsPerBlock
      invariant total == Total(shared[..g])
    {
      assert shared[..g + 1][..g] == shared[..g];
      total := total + shared[g];
    }
    assert shared[..s.groupsPerBlock] == shared;
  }

  // ---------------------------------------------------------------- the kernels

  /** A weight matrix of outDim packed rows. */
  predicate Matrix(f: Format, weight: seq<Byte>, outDim: nat, inDim: nat) {
    |weight| == outDim * (NumGroups(f, inDim) * GroupBytes(f))
  }

  function RowBytes(f: Format, weight: seq<Byte>, outDim: nat, inDim: nat, r: nat): (row: seq<Byte>)
    requires Matrix(f, weight, outDim, inDim) && r < outDim
    ensures |row| == NumGroups(f, inDim) * GroupBytes(f)
  {
    var size := NumGroups(f, inDim) * GroupBytes(f);
    MultiplesApart(r, outDim, size);
    weight[r * size..r * size + size]
  }

  /** Row r of the product of the dequantised matrix with the input. */
  function Product(f: Format, weight: seq<Byte>, input: seq<real>, outDim: nat, inDim: nat, r: nat): real
    requires Matrix(f, weight, outDim, inDim) && r < outDim
  {
    RowDot(f, RowBytes(f, weight, outDim, inDim, r), input, inDim)
  }

  /** The rows of one block: every stride-th from its first. */
  method FillRows(f: Format, output: array<real>, weight: seq<Byte>, input: seq<real>, outDim: nat, inDim: nat, blockDim: nat, first: nat, stride: nat)
    requires Matrix(f, weight, outDim, inDim) && |input| >= inDim && output.Length >= outDim
    requires blockDim > 0 && blockDim % 16 == 0 && stride > 0
    modifies output
    ensures forall r: nat :: r < outDim && first <= r && Rem(r, stride) == Rem(first, stride) ==> output[r] == Product(f, weight, input, outDim, inDim, r)
    ensures forall r: nat :: r < output.Length && !(r < outDim && first <= r && Rem(r, stride) == Rem(first, stride)) ==> output[r] == old(output[r])
  {
    hide Matrix, RowDot, NumGroups, Rem;
    var row := first;
    while row < outDim
      invariant first <= row && Rem(row, stride) == Rem(first, stride)
      invariant forall r: nat :: r < outDim && first <= r < row && Rem(r, stride) == Rem(first, stride) ==> output[r] == Product(f, weight, input, outDim, inDim, r)
      invariant forall r: nat :: r < output.Length && !(r < outDim && first <= r < row && Rem(r, stride) == Rem(first, stride)) ==> output[r] == old(output[r])
      decreases outDim - row
    {
      output[row] := BlockRow(f, RowBytes(f, weight, outDim, inDim, row), input, inDim, blockDim);
      forall r: nat | row <= r < row + stride && Rem(r, stride) == Rem(first, stride) ensures r == row {
        NextWithRemainder(row, r, stride);
      }
      OneTurn(row, stride);
      row := row + stride;
    }
  }

  /** Every grid and block shape computes the whole product, and touches nothing else. */
  method CoopGemv(f: Format, output: array<real>, weight: seq<Byte>, input: seq<real>, outDim: nat, inDim: nat, gridDim: nat, blockDim: nat)
    requires Matrix(f, weight, outDim, inDim) && |input| >= inDim && output.Length >= outDim
    requires blockDim > 0 && blockDim % 16 == 0 && gridDim > 0
    modifies output
    ensures forall r: nat :: r < outDim ==> output[r] == Product(f, weight, input, outDim, inDim, r)
    ensures forall r: nat :: outDim <= r < output.Length ==> output[r] == old(output[r])
  {
    hide Matrix, Product, Rem;
    forall r: nat ensures Rem(r, gridDim) < gridDim {
      RemainderAtMost(r, gridDim);
    }
    for block := 0 to gridDim
      invariant forall r: nat :: r < outDim && Rem(r, gridDim) < block ==> output[r] == Product(f, weight, input, outDim, inDim, r)
      invariant forall r: nat :: outDim <= r < output.Length ==> output[r] == old(output[r])
    {
      SmallRemainder(block, gridDim);
      FillRows(f, output, weight, input, outDim, inDim, blockDim, block, gridDim);
      forall r: nat | r < outDim && Rem(r, gridDim) == block ensures block <= r {
        RemainderAtMost(r, gridDim);
      }
    }
  }

  /**
   Gate and up projections at once: even blocks take gate rows, odd blocks up rows, each half of
   the grid striding over all of them.  With an odd grid the last even block repeats rows of
   another one.  A grid of one block leaves the up projection alone.
   */
  method CoopGemvFusedGateUp(f: Format, gateOut: array<real>, gateWeight: seq<Byte>, upOut: array<real>, upWeight: seq<Byte>,
                             input: seq<real>, outDim: nat, inDim: nat, gridDim: nat, blockDim: nat)
    requires Matrix(f, gateWeight, outDim, inDim) && Matrix(f, upWeight, outDim, inDim) && |input| >= inDim
    requires gateOut != upOut && gateOut.Length >= outDim && upOut.Length >= outDim
    requires blockDim > 0 && blockDim % 16 == 0 && gridDim > 0
    modifies gateOut, upOut
    ensures forall r: nat :: r < outDim ==> gateOut[r] == Product(f, gateWeight, input, outDim, inDim, r)
    ensures gridDim >= 2 ==> forall r: nat :: r < outDim ==> upOut[r] == Product(f, upWeight, input, outDim, inDim, r)
    ensures gridDim == 1 ==> forall r: nat :: r < outDim ==> upOut[r] == old(upOut[r])
    ensures forall r: nat :: outDim <= r < gateOut.Length ==> gateOut[r] == old(gateOut[r])
    ensures forall r: nat :: outDim <= r < upOut.Length ==> upOut[r] == old(upOut[r])
  {
    hide Matrix, Product, Rem;
    var half := if gridDim / 2 > 1 then gridDim / 2 else 1;
    for block := 0 to gridDim
      invariant forall r: nat :: r < outDim && Rem(r, half) < (block + 1) / 2 ==> gateOut[r] == Product(f, gateWeight, input, outDim, inDim, r)
      invariant forall r: nat :: r < outDim && Rem(r, half) < block / 2 ==> upOut[r] == Product(f, upWeight, input, outDim, inDim, r)
      invariant block <= 1 ==> forall r: nat :: r < outDim ==> upOut[r] == old(upOut[r])
      invariant forall r: nat :: outDim <= r < gateOut.Length ==> gateOut[r] == old(gateOut[r])
      invariant forall r: nat :: outDim <= r < upOut.Length ==> upOut[r] == old(upOut[r])
    {
      forall r: nat | Rem(r, half) == block / 2 ensures block / 2 <= r && Rem(block / 2, half) == block / 2 {
        RemainderAtMost(r, half);
        SmallRemainder(block / 2, half);
      }
      if block % 2 == 0 {
        FillRows(f, gateOut, gateWeight, input, outDim, inDim, blockDim, block / 2, half);
      } else {
        FillRows(f, upOut, upWeight, input, outDim, inDim, blockDim, block / 2, half);
      }
    }
    forall r: nat ensures Rem(r, half) < half {
      RemainderAtMost(r, half);
    }
  }

  /** output += weight * input, every element exactly once whatever the grid. */
  method CoopWeightedAcc(output: array<real>, input: seq<real>, weight: real, size: nat, gridDim: nat, blockDim: nat)
    requires |input| >= size && output.Length >= size && gridDim * blockDim > 0
    modifies output
    ensures forall i: nat :: i < size ==> output[i] == old(output[i]) + Mul(weight, input[i])
    ensures forall i: nat :: size <= i < output.Length ==> output[i] == old(output[i])
  {
    hide Mul, Rem;
    var threads := gridDim * blockDim;
    forall i: nat ensures Rem(i, threads) < threads && Rem(i, threads) <= i {
      RemainderAtMost(i, threads);
    }
    for id := 0 to threads
      invariant forall i: nat :: i < size ==> output[i] == if Rem(i, threads) < id then old(output[i]) + Mul(weight, input[i]) else old(output[i])
      invariant forall i: nat :: size <= i < output.Length ==> output[i] == old(output[i])
    {
      var i := id;
      SmallRemainder(id, threads);
      while i < size
        invariant Rem(i, threads) == id && id <= i
        invariant forall k: nat :: k < size ==>
                    output[k] == if Rem(k, threads) < id || (Rem(k, threads) == id && k < i) then old(output[k]) + Mul(weight, input[k]) else old(output[k])
        invariant forall k: nat :: size <= k < output.Length ==> output[k] == old(output[k])
        decreases size - i
      {
        output[i] := output[i] + Mul(weight, input[i]);
        forall k: nat | i <= k < i + threads && Rem(k, threads) == id ensures k == i {
          NextWithRemainder(i, k, threads);
        }
        OneTurn(i, threads);
        i := i + threads;
      }
    }
  }

  // ---------------------------------------------------------------- how far a quantised product is off

  /** A quantised row: what `QuantizeRow` guarantees. */
  ghost predicate Quantised(f: Format, src: seq<nat>, row: seq<Byte>) {
    && |row| == NumGroups(f, |src|) * GroupBytes(f)
    && forall g: nat :: g < NumGroups(f, |src|) ==> Faithful(f, SourceGroup(f, src, |src|, g), PackedGroup(f, row, NumGroups(f, |src|), g))
  }

  lemma GroupOf(f: Format, inDim: nat, j: nat)
    requires j < inDim
    ensures j / GroupSize(f) < NumGroups(f, inDim)
    ensures j == j / GroupSize(f) * GroupSize(f) + j % GroupSize(f)
    ensures j % GroupSize(f) < Count(f, inDim, j / GroupSize(f))
  {
  }

  function ExactTerm(src: seq<nat>, input: seq<real>, j: nat): real {
    if j < |src| && j < |input| then Mul(Bf16Value(src[j]), input[j]) else 0.0
  }

  /** A bound for every group of the row. */
  ghost predicate GroupBounds(f: Format, src: seq<nat>, bound: nat -> real) {
    forall g: nat :: g < NumGroups(f, |src|) ==> IsBound(f, SourceGroup(f, src, |src|, g), bound(g))
  }

  /** The bound of element j's group, weighed by the input. */
  function ErrorTerm(f: Format, bound: nat -> real, input: seq<real>, j: nat): real {
    if j < |input| then Mul(bound(j / GroupSize(f)), Abs(input[j])) else 0.0
  }

  lemma TermClose(f: Format, src: seq<nat>, row: seq<Byte>, input: seq<real>, bound: nat -> real, j: nat)
    requires Quantised(f, src, row) && GroupBounds(f, src, bound) && j < |src| && |input| >= |src|
    ensures Abs(Term(f, row, input, |src|, j) - ExactTerm(src, input, j)) <= ErrorTerm(f, bound, input, j)
  {
    hide NumGroups, Bf16Value, Dequant, IsBound, Mul, PackedGroup, Count;
    GroupOf(f, |src|, j);
    var g, p := j / GroupSize(f), j % GroupSize(f);
    CountFits(f, |src|, g);
    var part, group := SourceGroup(f, src, |src|, g), PackedGroup(f, row, NumGroups(f, |src|), g);
    assert Faithful(f, part, group) && IsBound(f, part, bound(g));
    assert part[p] == src[j];
    MulSubLeft(Dequant(f, group, p), Bf16Value(src[j]), input[j]);
    MulBounds(Dequant(f, group, p) - Bf16Value(src[j]), input[j], bound(g), Abs(input[j]));
  }

  /**
   The kernel's result on a quantised row is off by at most each group's bound times its inputs,
   whatever bounds the ranges of the groups justify.
   */
  lemma QuantisedDotError(f: Format, src: seq<nat>, row: seq<Byte>, input: seq<real>, bound: nat -> real)
    requires Quantised(f, src, row) && GroupBounds(f, src, bound) && |input| >= |src|
    ensures Abs(RowDot(f, row, input, |src|) - Sum((j: nat) => ExactTerm(src, input, j), 0, |src|))
            <= Sum((j: nat) => ErrorTerm(f, bound, input, j), 0, |src|)
  {
    hide Term, ExactTerm, ErrorTerm, Quantised, GroupBounds;
    var exact, error := (j: nat) => ExactTerm(src, input, j), (j: nat) => ErrorTerm(f, bound, input, j);
    forall j: nat | j < |src| ensures Abs(Terms(f, row, input, |src|)(j) - exact(j)) <= error(j) {
      TermClose(f, src, row, input, bound, j);
    }
    SumClose(Terms(f, row, input, |src|), exact, error, |src|);
    SumSame(exact, (j: nat) => ExactTerm(src, input, j), 0, |src|);
    SumSame(error, (j: nat) => ErrorTerm(f, bound, input, j), 0, |src|);
  }
}
