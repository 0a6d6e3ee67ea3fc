/**
 Atomic addition to a bf16 that shares a 32-bit word with another one: load the word, compute
 the new half, and compare-and-swap until the word has not changed in between.  The f32 addition
 itself is a parameter.
 */
module Bf16Atomic {
  import opened Words
  import opened Arithmetic
  import opened Bf16

  type Word32 = w: nat | w < TWO_32

  function Half(word: nat, high: bool): nat {
    if high then word / 65536 else word % 65536
  }

  function Splice(word: nat, high: bool, half: nat): nat {
    if high then half * 65536 + word % 65536 else word / 65536 * 65536 + half
  }

  lemma SpliceHalves(word: nat, high: bool, half: nat)
    requires word < TWO_32 && half < 65536
    ensures Splice(word, high, half) < TWO_32
    ensures Half(Splice(word, high, half), high) == half
    ensures Half(Splice(word, high, half), !high) == Half(word, !high)
  {
  }

  /** Infinities and NaNs are cut off; everything else is rounded. */
  function Encode(bits: nat): (h: nat)
    ensures h < 65536
  {
    (if bits / 0x80_0000 % 256 == 255 then bits / 65536 else F32ToBf16(bits)) % 65536
  }

  /** New value of a half: widen, add, narrow. */
  function Added(fadd: (nat, nat) -> Word32, half: nat, addend: nat): (h: nat)
    ensures h < 65536
  {
    Encode(fadd(half * 65536, addend))
  }

  /** The narrowing of a finite sum is the rounding of Bf16, so adding is roundTiesToEven unless it overflows. */
  lemma EncodeRounds(sign: nat, q: nat, d: nat)
    requires sign <= 1 && q < INFINITY && d < 65536 && q + (if RoundsUp(q, d) then 1 else 0) < INFINITY
    ensures RoundsToEven(F32Value(sign * SIGN_32 + q * 65536 + d), Encode(sign * SIGN_32 + q * 65536 + d))
  {
    hide F32Value, RoundsToEven, F32ToBf16;
    var bits := sign * SIGN_32 + q * 65536 + d;
    ConversionRounds(sign, q, d);
    ConversionRoundsTo(sign, q, d);
    FiniteExponent(sign, q, d);
  }

  lemma FiniteExponent(sign: nat, q: nat, d: nat)
    requires sign <= 1 && q < INFINITY && d < 65536
    ensures (sign * SIGN_32 + q * 65536 + d) / 0x80_0000 % 256 != 255
  {
  }

  // ---------------------------------------------------------------- what an addition stores

  /** The f32 word a half stands for: its bits on top, and its value unless it is an infinity or a NaN. */
  predicate Widened(half: nat, w: nat) {
    w / 65536 == half && w % 65536 == 0 && (Finite(half) ==> F32Value(w) == Bf16Value(half))
  }

  /**
   What is stored for an f32 sum: the nearest bf16 number, ties to even; an infinity from half a
   step above the largest one on; the upper half of an infinity or a NaN.  The sign is kept.
   */
  ghost predicate Narrowed(sum: nat, half: nat) {
    var magnitude := sum % 0x8000_0000;
    if magnitude < 0x7F7F_8000 then RoundsToEven(F32Value(sum), half) && half / 0x8000 == sum / 0x8000_0000
    else if magnitude < 0x7F80_0000 then half == sum / 0x8000_0000 * 0x8000 + 0x7F80
    else half == sum / 65536
  }

  /** A half becomes `after` when the addend is added to the number it stands for. */
  ghost predicate Adds(fadd: (nat, nat) -> Word32, before: nat, addend: nat, after: nat) {
    exists w: nat :: Widened(before, w) && Narrowed(fadd(w, addend), after)
  }

  lemma WideningKeepsValue(half: nat)
    requires half < 65536
    ensures Widened(half, half * 65536)
  {
    hide Mag;
    if half >= SIGN_16 {
      assert half * 65536 - SIGN_32 == (half - SIGN_16) * 65536;
    }
  }

  lemma EncodeNarrows(bits: nat)
    requires bits < TWO_32
    ensures Narrowed(bits, Encode(bits))
  {
    hide F32Value, RoundsToEven, F32ToBf16;
    var sign, m := bits / SIGN_32, bits % SIGN_32;
    var q, d := m / 65536, m % 65536;
    assert bits == sign * SIGN_32 + q * 65536 + d;
    if q < INFINITY {
      ConversionRounds(sign, q, d);
      FiniteExponent(sign, q, d);
      if m < 0x7F7F_8000 {
        EncodeRounds(sign, q, d);
      }
    }
  }

  lemma AddedAdds(fadd: (nat, nat) -> Word32, half: nat, addend: nat)
    requires half < 65536
    ensures Adds(fadd, half, addend, Added(fadd, half, addend))
  {
    hide Widened, Narrowed, Encode;
    WideningKeepsValue(half);
    EncodeNarrows(fadd(half * 65536, addend));
  }

  // ---------------------------------------------------------------- threads

  datatype Call = Call(high: bool, addend: nat)

  /** `seen` counts the updates done when the thread last read the word. */
  datatype Pc = Idle | Holding(old_: nat, seen: nat) | Returned(value: nat)

  datatype Update = Update(thread: nat, call: Call, before: nat)

  datatype State = State(word: nat, calls: seq<Call>, pcs: seq<Pc>, log: seq<Update>)

  predicate Start(s: State) {
    && s.word < TWO_32 && |s.pcs| == |s.calls| && s.log == []
    && forall t :: 0 <= t < |s.pcs| ==> s.pcs[t] == Idle
  }

  predicate Active(s: State, t: nat) {
    |s.pcs| == |s.calls| && t < |s.pcs| && !s.pcs[t].Returned?
  }

  /** One step of a thread: the first load, or one turn of the compare-and-swap loop. */
  function Step(fadd: (nat, nat) -> Word32, s: State, t: nat): State
    requires Active(s, t)
  {
    match s.pcs[t]
    case Idle => s.(pcs := s.pcs[t := Holding(s.word, |s.log|)])
    case Holding(old_, _) =>
      var call := s.calls[t];
      var current := Half(old_, call.high);
      if s.word == old_ then
        s.(word := Splice(old_, call.high, Added(fadd, current, call.addend)),
           pcs := s.pcs[t := Returned(current)],
           log := s.log + [Update(t, call, current)])
      else s.(pcs := s.pcs[t := Holding(s.word, |s.log|)])
  }

  ghost predicate CanRun(fadd: (nat, nat) -> Word32, s: State, schedule: seq<nat>)
    decreases |schedule|
  {
    schedule == [] || (Active(s, schedule[0]) && CanRun(fadd, Step(fadd, s, schedule[0]), schedule[1..]))
  }

  ghost function Run(fadd: (nat, nat) -> Word32, s: State, schedule: seq<nat>): State
    requires CanRun(fadd, s, schedule)
    decreases |schedule|
  {
    if schedule == [] then s else Run(fadd, Step(fadd, s, schedule[0]), schedule[1..])
  }

  // ---------------------------------------------------------------- what the updates add up to

  /** A half after the updates addressed to it, one after the other. */
  function Folded(fadd: (nat, nat) -> Word32, half: nat, high: bool, log: seq<Update>): nat {
    if log == [] then half
    else
      var before := Folded(fadd, half, high, log[..|log| - 1]);
      var u := log[|log| - 1];
      if u.call.high == high then Added(fadd, before, u.call.addend) else before
  }

  /** `result` is what the updates addressed to a half make of it, one after the other. */
  ghost predicate FoldsTo(fadd: (nat, nat) -> Word32, half: nat, high: bool, log: seq<Update>, result: nat)
    decreases |log|
  {
    if log == [] then result == half
    else
      var front, u := log[..|log| - 1], log[|log| - 1];
      if u.call.high != high then FoldsTo(fadd, half, high, front, result)
      else exists before: nat :: FoldsTo(fadd, half, high, front, before) && Adds(fadd, before, u.call.addend, result)
  }

  lemma {:induction false} FoldedFoldsTo(fadd: (nat, nat) -> Word32, half: nat, high: bool, log: seq<Update>)
    requires half < 65536
    ensures Folded(fadd, half, high, log) < 65536 && FoldsTo(fadd, half, high, log, Folded(fadd, half, high, log))
  {
    hide Added, Adds;
    if log != [] {
      var front, u := log[..|log| - 1], log[|log| - 1];
      FoldedFoldsTo(fadd, half, high, front);
      AddedAdds(fadd, Folded(fadd, half, high, front), u.call.addend);
    }
  }

  /** The word is the fold of the updates, half by half. */
  ghost predicate WordInv(fadd: (nat, nat) -> Word32, start: nat, s: State) {
    s.word < TWO_32 && forall high :: Half(s.word, high) == Folded(fadd, Half(start, high), high, s.log)
  }

  /** Update i was made by a thread that has returned the value it replaced: the one the updates before it had left. */
  ghost predicate Genuine(fadd: (nat, nat) -> Word32, start: nat, calls: seq<Call>, pcs: seq<Pc>, log: seq<Update>, i: nat)
    requires i < |log|
  {
    var u := log[i];
    && u.thread < |calls| == |pcs| && u.call == calls[u.thread]
    && u.before == Folded(fadd, Half(start, u.call.high), u.call.high, log[..i])
    && pcs[u.thread] == Returned(u.before)
  }

  ghost predicate LogInv(fadd: (nat, nat) -> Word32, start: nat, s: State) {
    forall i :: 0 <= i < |s.log| ==> Genuine(fadd, start, s.calls, s.pcs, s.log, i)
  }

  /** A thread has returned exactly when it is in the log, and it is there once. */
  ghost predicate OnceInv(s: State) {
    && |s.pcs| == |s.calls|
    && (forall t :: 0 <= t < |s.pcs| && s.pcs[t].Returned? ==> exists i :: 0 <= i < |s.log| && s.log[i].thread == t)
    && (forall i, j :: 0 <= i < j < |s.log| ==> s.log[i].thread != s.log[j].thread)
  }

  /** A held word is the one that the updates seen had left. */
  ghost predicate HoldInv(s: State) {
    forall t :: 0 <= t < |s.pcs| && s.pcs[t].Holding? ==> s.pcs[t].seen <= |s.log| && (s.pcs[t].seen == |s.log| ==> s.pcs[t].old_ == s.word)
  }

  ghost predicate Inv(fadd: (nat, nat) -> Word32, start: nat, s: State) {
    start < TWO_32 && WordInv(fadd, start, s) && LogInv(fadd, start, s) && OnceInv(s) && HoldInv(s)
  }

  lemma SwapKeepsWord(fadd: (nat, nat) -> Word32, start: nat, s: State, t: nat)
    requires WordInv(fadd, start, s) && Active(s, t)
    ensures WordInv(fadd, start, Step(fadd, s, t))
  {
    hide Half, Splice, Added;
    var s' := Step(fadd, s, t);
    if s'.log != s.log {
      var call := s.calls[t];
      var half := Added(fadd, Half(s.word, call.high), call.addend);
      SpliceHalves(s.word, call.high, half);
      assert s'.log[..|s.log|] == s.log;
      forall high ensures Half(s'.word, high) == Folded(fadd, Half(start, high), high, s'.log) {
        assert high == call.high || high == !call.high;
      }
    }
  }

  lemma StillGenuine(fadd: (nat, nat) -> Word32, start: nat, s: State, t: nat, pc: Pc, more: seq<Update>, i: nat)
    requires i < |s.log| && Genuine(fadd, start, s.calls, s.pcs, s.log, i) && Active(s, t)
    ensures Genuine(fadd, start, s.calls, s.pcs[t := pc], s.log + more, i) && s.log[i].thread != t
  {
    hide Half, Folded;
    assert (s.log + more)[..i] == s.log[..i];
  }

  lemma SwapKeepsLog(fadd: (nat, nat) -> Word32, start: nat, s: State, t: nat)
    requires WordInv(fadd, start, s) && LogInv(fadd, start, s) && Active(s, t)
    ensures LogInv(fadd, start, Step(fadd, s, t))
    ensures forall i :: 0 <= i < |s.log| ==> s.log[i].thread != t
  {
    hide Half, Splice, Added, Folded, Genuine;
    var s', n := Step(fadd, s, t), |s.log|;
    forall i | 0 <= i < n ensures Genuine(fadd, start, s'.calls, s'.pcs, s'.log, i) && s.log[i].thread != t {
      StillGenuine(fadd, start, s, t, s'.pcs[t], s'.log[n..], i);
      assert s.log + s'.log[n..] == s'.log;
    }
    if |s'.log| > n {
      NewIsGenuine(fadd, start, s, t);
    }
  }

  lemma NewIsGenuine(fadd: (nat, nat) -> Word32, start: nat, s: State, t: nat)
    requires WordInv(fadd, start, s) && Active(s, t) && |Step(fadd, s, t).log| > |s.log|
    ensures var s' := Step(fadd, s, t);
            |s'.log| == |s.log| + 1 && Genuine(fadd, start, s'.calls, s'.pcs, s'.log, |s.log|)
  {
  }

  lemma SwapKeepsOnce(fadd: (nat, nat) -> Word32, s: State, t: nat)
    requires OnceInv(s) && Active(s, t) && forall i :: 0 <= i < |s.log| ==> s.log[i].thread != t
    ensures OnceInv(Step(fadd, s, t))
  {
    hide Half, Splice, Added;
    var s', n := Step(fadd, s, t), |s.log|;
    forall k | 0 <= k < |s'.pcs| && s'.pcs[k].Returned? ensures exists i :: 0 <= i < |s'.log| && s'.log[i].thread == k {
      if k == t {
        assert s'.log[n].thread == t;
      } else {
        var i :| 0 <= i < n && s.log[i].thread == k;
        assert s'.log[i].thread == k;
      }
    }
  }

  lemma StepKeepsInv(fadd: (nat, nat) -> Word32, start: nat, s: State, t: nat)
    requires Inv(fadd, start, s) && Active(s, t)
    ensures Inv(fadd, start, Step(fadd, s, t))
  {
    hide WordInv, LogInv, OnceInv, Added, Half, Splice;
    SwapKeepsWord(fadd, start, s, t);
    SwapKeepsLog(fadd, start, s, t);
    SwapKeepsOnce(fadd, s, t);
  }

  lemma {:induction false} RunKeepsInv(fadd: (nat, nat) -> Word32, start: nat, s: State, schedule: seq<nat>)
    requires Inv(fadd, start, s) && CanRun(fadd, s, schedule)
    ensures Inv(fadd, start, Run(fadd, s, schedule))
    decreases |schedule|
  {
    hide Inv, Step, Active;
    if schedule != [] {
      StepKeepsInv(fadd, start, s, schedule[0]);
      RunKeepsInv(fadd, start, Step(fadd, s, schedule[0]), schedule[1..]);
    }
  }

  lemma StartHasInv(fadd: (nat, nat) -> Word32, s: State)
    requires Start(s)
    ensures Inv(fadd, s.word, s)
  {
  }

  /**
   For any number of threads and any schedule: each half of the word is what the updates addressed
   to it, in the order of the successful swaps, make of it; a thread that has returned made exactly
   one of them and returned the value it replaced.
   */
  lemma AtomicAddIsAFold(fadd: (nat, nat) -> Word32, s0: State, schedule: seq<nat>, t: nat)
    requires Start(s0) && CanRun(fadd, s0, schedule)
    ensures var s := Run(fadd, s0, schedule);
            && s.word < TWO_32
            && FoldsTo(fadd, s0.word % 65536, false, s.log, s.word % 65536)
            && FoldsTo(fadd, s0.word / 65536, true, s.log, s.word / 65536)
            && (t < |s.pcs| && s.pcs[t].Returned? ==>
                  exists i :: 0 <= i < |s.log| && s.log[i].thread == t && t < |s.calls| && s.log[i].call == s.calls[t]
                           && FoldsTo(fadd, if s.calls[t].high then s0.word / 65536 else s0.word % 65536, s.calls[t].high, s.log[..i], s.pcs[t].value))
            && (forall i, j :: 0 <= i < j < |s.log| ==> s.log[i].thread != s.log[j].thread)
  {
    hide Folded, FoldsTo, Run, CanRun;
    StartHasInv(fadd, s0);
    RunKeepsInv(fadd, s0.word, s0, schedule);
    var s := Run(fadd, s0, schedule);
    assert Half(s.word, false) == s.word % 65536 && Half(s.word, true) == s.word / 65536;
    FoldedFoldsTo(fadd, Half(s0.word, false), false, s.log);
    FoldedFoldsTo(fadd, Half(s0.word, true), true, s.log);
    if t < |s.pcs| && s.pcs[t].Returned? {
      var i :| 0 <= i < |s.log| && s.log[i].thread == t;
      assert Genuine(fadd, s0.word, s.calls, s.pcs, s.log, i);
      FoldedFoldsTo(fadd, Half(s0.word, s.calls[t].high), s.calls[t].high, s.log[..i]);
    }
  }

  /** A swap fails only if another thread's update has landed since the word was read. */
  lemma FailedSwapMeansProgress(fadd: (nat, nat) -> Word32, start: nat, s: State, t: nat)
    requires Inv(fadd, start, s) && Active(s, t) && s.pcs[t].Holding? && s.word != s.pcs[t].old_
    ensures Step(fadd, s, t).log == s.log && s.pcs[t].seen < |s.log|
  {
  }

  // ---------------------------------------------------------------- every call returns

  /** Steps a thread can still be made to take before the next successful swap. */
  function Stale(pc: Pc, done: nat): nat {
    match pc
    case Idle => 2
    case Holding(_, seen) => if seen < done then 1 else 0
    case Returned(_) => 0
  }

  function Staleness(pcs: seq<Pc>, done: nat): nat {
    if pcs == [] then 0 else Staleness(pcs[..|pcs| - 1], done) + Stale(pcs[|pcs| - 1], done)
  }

  function Unfinished(pcs: seq<Pc>): nat {
    if pcs == [] then 0 else Unfinished(pcs[..|pcs| - 1]) + if pcs[|pcs| - 1].Returned? then 0 else 1
  }

  lemma {:induction false} ChangeOne(pcs: seq<Pc>, t: nat, pc: Pc, done: nat)
    requires t < |pcs|
    ensures Staleness(pcs[t := pc], done) == Staleness(pcs, done) - Stale(pcs[t], done) + Stale(pc, done)
    ensures Unfinished(pcs[t := pc]) == Unfinished(pcs) - (if pcs[t].Returned? then 0 else 1) + (if pc.Returned? then 0 else 1)
  {
    var n := |pcs| - 1;
    if t < n {
      ChangeOne(pcs[..n], t, pc, done);
      assert pcs[t := pc][..n] == pcs[..n][t := pc];
    } else {
      assert pcs[t := pc][..n] == pcs[..n];
    }
  }

  /** Every step finishes a call or uses up staleness, so that every schedule of active threads is finite. */
  lemma StepsRunOut(fadd: (nat, nat) -> Word32, start: nat, s: State, t: nat)
    requires Inv(fadd, start, s) && Active(s, t)
    ensures var s' := Step(fadd, s, t);
            || Unfinished(s'.pcs) < Unfinished(s.pcs)
            || (Unfinished(s'.pcs) == Unfinished(s.pcs) && Staleness(s'.pcs, |s'.log|) < Staleness(s.pcs, |s.log|))
  {
    hide WordInv, LogInv, OnceInv, Added, Half, Splice, Staleness, Unfinished;
    ChangeOne(s.pcs, t, Step(fadd, s, t).pcs[t], |s.log|);
  }

  /** At most two steps per unfinished thread before the next swap succeeds. */
  lemma {:induction false} StalenessBound(pcs: seq<Pc>, done: nat)
    ensures Staleness(pcs, done) <= 2 * |pcs|
  {
    if pcs != [] {
      StalenessBound(pcs[..|pcs| - 1], done);
    }
  }

  /** A bound on the steps that are left. */
  function Work(s: State): nat {
    Unfinished(s.pcs) * (2 * |s.pcs| + 1) + Staleness(s.pcs, |s.log|)
  }

  lemma StepLowersWork(fadd: (nat, nat) -> Word32, start: nat, s: State, t: nat)
    requires Inv(fadd, start, s) && Active(s, t)
    ensures Work(Step(fadd, s, t)) < Work(s) && |Step(fadd, s, t).pcs| == |s.pcs|
  {
    hide Inv, Staleness, Unfinished;
    var s' := Step(fadd, s, t);
    StepsRunOut(fadd, start, s, t);
    StalenessBound(s'.pcs, |s'.log|);
    if Unfinished(s'.pcs) < Unfinished(s.pcs) {
      MultiplesApart(Unfinished(s'.pcs), Unfinished(s.pcs), 2 * |s.pcs| + 1);
    }
  }

  /** Whatever the scheduler does, only so many steps of unfinished calls fit. */
  lemma {:induction false} SchedulesAreBounded(fadd: (nat, nat) -> Word32, start: nat, s: State, schedule: seq<nat>)
    requires Inv(fadd, start, s) && CanRun(fadd, s, schedule)
    ensures |schedule| + Work(Run(fadd, s, schedule)) <= Work(s)
    decreases |schedule|
  {
    hide Inv, Step, Work, Active;
    if schedule != [] {
      StepLowersWork(fadd, start, s, schedule[0]);
      StepKeepsInv(fadd, start, s, schedule[0]);
      SchedulesAreBounded(fadd, start, Step(fadd, s, schedule[0]), schedule[1..]);
    }
  }

  /** And an unfinished call can always take a step, so that all calls return. */
  lemma {:induction false} EveryCallReturns(fadd: (nat, nat) -> Word32, start: nat, s: State) returns (schedule: seq<nat>)
    requires Inv(fadd, start, s)
    ensures CanRun(fadd, s, schedule) && |schedule| <= Work(s)
    ensures forall t :: 0 <= t < |Run(fadd, s, schedule).pcs| ==> Run(fadd, s, schedule).pcs[t].Returned?
    decreases Work(s)
  {
    hide WordInv, LogInv, HoldInv, Step, Work;
    if t: nat :| t < |s.pcs| && !s.pcs[t].Returned? {
      StepLowersWork(fadd, start, s, t);
      StepKeepsInv(fadd, start, s, t);
      var rest := EveryCallReturns(fadd, start, Step(fadd, s, t));
      schedule := [t] + rest;
      assert schedule[1..] == rest;
    } else {
      schedule := [];
    }
  }
}
