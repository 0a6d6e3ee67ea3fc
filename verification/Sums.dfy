/** Finite sums, and the ways the kernels cut them up. */
module Sums {
  import opened Reals

  function Sum(f: nat -> real, lo: nat, hi: nat): real
    decreases hi - lo
  {
    if lo >= hi then 0.0 else Sum(f, lo, hi - 1) + f(hi - 1)
  }

  /** f(i) + f(i + stride) + ... below n. */
  function Strided(f: nat -> real, i: nat, stride: nat, n: nat): real
    requires stride > 0
    decreases n - i
  {
    if i >= n then 0.0 else f(i) + Strided(f, i + stride, stride, n)
  }

  lemma {:induction false} SumSplit(f: nat -> real, lo: nat, mid: nat, hi: nat)
    requires lo <= mid <= hi
    ensures Sum(f, lo, hi) == Sum(f, lo, mid) + Sum(f, mid, hi)
    decreases hi
  {
    if mid < hi {
      SumSplit(f, lo, mid, hi - 1);
    }
  }

  lemma {:induction false} SumSame(f: nat -> real, g: nat -> real, lo: nat, hi: nat)
    requires forall i: nat :: lo <= i < hi ==> f(i) == g(i)
    ensures Sum(f, lo, hi) == Sum(g, lo, hi)
    decreases hi
  {
    if lo < hi {
      SumSame(f, g, lo, hi - 1);
    }
  }

  lemma {:induction false} SumZero(f: nat -> real, lo: nat, hi: nat)
    requires forall i: nat :: lo <= i < hi ==> f(i) == 0.0
    ensures Sum(f, lo, hi) == 0.0
    decreases hi
  {
    if lo < hi {
      SumZero(f, lo, hi - 1);
    }
  }

  lemma SumFirst(f: nat -> real, lo: nat, hi: nat)
    requires lo < hi
    ensures Sum(f, lo, hi) == f(lo) + Sum(f, lo + 1, hi)
  {
    SumSplit(f, lo, lo + 1, hi);
  }

  lemma SumLast(f: nat -> real, lo: nat, hi: nat)
    requires lo <= hi
    ensures Sum(f, lo, hi + 1) == Sum(f, lo, hi) + f(hi)
  {
  }

  lemma SumTwoMore(f: nat -> real, lo: nat, hi: nat)
    requires lo <= hi
    ensures Sum(f, lo, hi + 2) == Sum(f, lo, hi) + f(hi) + f(hi + 1)
  {
    SumLast(f, lo, hi);
    SumLast(f, lo, hi + 1);
  }

  lemma SumOfNothing(f: nat -> real, lo: nat)
    ensures Sum(f, lo, lo) == 0.0
  {
  }

  /** Consecutive pieces of equal size add up to the whole. */
  lemma {:induction false} SumPieces(f: nat -> real, piece: nat -> real, base: nat, size: nat, n: nat)
    requires forall l: nat :: l < n ==> piece(l) == Sum(f, base + l * size, base + l * size + size)
    ensures Sum(piece, 0, n) == Sum(f, base, base + n * size)
  {
    if n > 0 {
      SumPieces(f, piece, base, size, n - 1);
      assert n * size == (n - 1) * size + size;
      SumSplit(f, base, base + (n - 1) * size, base + n * size);
    }
  }

  /** The strides that start at i, i + 1, ..., i + stride - 1 cover everything from i on. */
  lemma {:induction false} StridesCover(f: nat -> real, start: nat -> real, i: nat, stride: nat, n: nat)
    requires stride > 0
    requires forall k: nat :: start(k) == Strided(f, k, stride, n)
    ensures Sum(start, i, i + stride) == if i < n then Sum(f, i, n) else 0.0
    decreases n - i
  {
    hide Sum;
    if i >= n {
      SumZero(start, i, i + stride);
    } else {
      StridesCover(f, start, i + 1, stride, n);
      SumFirst(start, i, i + stride);
      SumLast(start, i + 1, i + stride);
      SumFirst(f, i, n);
      if i + 1 == n {
        SumZero(f, n, n);
      }
      assert start(i) == f(i) + start(i + stride);
    }
  }

  /** Summing over lanes and striding over groups commute. */
  lemma {:induction false} StridedOfSum(f: nat -> nat -> real, total: nat -> real, lane: nat -> real, i: nat, stride: nat, n: nat, lanes: nat)
    requires stride > 0
    requires forall l: nat :: l < lanes ==> lane(l) == Strided(f(l), i, stride, n)
    requires forall g: nat :: total(g) == Sum((l: nat) => f(l)(g), 0, lanes)
    ensures Sum(lane, 0, lanes) == Strided(total, i, stride, n)
    decreases n - i
  {
    if i >= n {
      SumZero(lane, 0, lanes);
    } else {
      var first, more := (l: nat) => f(l)(i), (l: nat) => Strided(f(l), i + stride, stride, n);
      StridedOfSum(f, total, more, i + stride, stride, n, lanes);
      SumAdd(first, more, lane, lanes);
      assert total(i) == Sum((l: nat) => f(l)(i), 0, lanes);
      SumSame(first, (l: nat) => f(l)(i), 0, lanes);
    }
  }

  lemma {:induction false} SumAdd(a: nat -> real, b: nat -> real, c: nat -> real, n: nat)
    requires forall l: nat :: l < n ==> c(l) == a(l) + b(l)
    ensures Sum(c, 0, n) == Sum(a, 0, n) + Sum(b, 0, n)
  {
    if n > 0 {
      SumAdd(a, b, c, n - 1);
    }
  }

  /** Sums of close terms are close. */
  lemma {:induction false} SumClose(f: nat -> real, g: nat -> real, e: nat -> real, n: nat)
    requires forall i: nat :: i < n ==> Abs(f(i) - g(i)) <= e(i)
    ensures Abs(Sum(f, 0, n) - Sum(g, 0, n)) <= Sum(e, 0, n)
  {
    if n > 0 {
      SumClose(f, g, e, n - 1);
    }
  }
}
