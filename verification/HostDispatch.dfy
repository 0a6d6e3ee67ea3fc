/**
 The host's side of a dispatch: cutting a program into batches, and waiting for several
 workers in one polling loop.
 */
module HostDispatch {
  import opened Words
  import opened Mailbox
  import opened MailboxSafety

  // ---------------------------------------------------------------- dispatch_batch_slice

  function StampAll(batches: seq<Batch>): seq<seq<Entry>> {
    seq(|batches|, i requires 0 <= i < |batches| => Stamp(batches[i]))
  }

  predicate IsProgram(program: seq<seq<Word>>) {
    forall i :: 0 <= i < |program| ==> |program[i]| == INST_WORDS
  }

  /** The program with every instruction at its own index (as a 32-bit word). */
  function Numbered(program: seq<seq<Word>>): seq<Entry> {
    seq(|program|, i requires 0 <= i < |program| => Entry(program[i], i % TWO_32))
  }

  /** 32-bit additions may reduce early. */
  lemma ReduceEarly(a: nat, b: nat)
    ensures (b + a % TWO_32) % TWO_32 == (a + b) % TWO_32
  {
  }

  lemma StampContinues(program: seq<seq<Word>>, at: nat, to: nat)
    requires at <= to <= |program|
    ensures Numbered(program[..at]) + Stamp(Batch(program[at..to], at % TWO_32)) == Numbered(program[..to])
  {
    var a, b, all := Numbered(program[..at]), Stamp(Batch(program[at..to], at % TWO_32)), Numbered(program[..to]);
    forall i | at <= i < to ensures b[i - at] == all[i] {
      ReduceEarly(at, i - at);
      assert program[at..to][i - at] == program[i];
    }
  }

  lemma FlatOfOneMore(batches: seq<Batch>, b: Batch)
    ensures Flat(StampAll(batches + [b])) == Flat(StampAll(batches)) + Stamp(b)
  {
    var all := StampAll(batches + [b]);
    assert all[..|all| - 1] == StampAll(batches);
  }

  /**
   Cuts a program of any length into batches.  Executing the batches in order executes the
   program: each instruction once, in order, and with base plus position its program index.  All
   batches but the last are full.
   */
  method DispatchBatchSlice(program: seq<seq<Word>>) returns (batches: seq<Batch>)
    requires IsProgram(program)
    ensures forall i :: 0 <= i < |batches| ==> ValidBatch(batches[i]) && batches[i].insts != []
    ensures Flat(StampAll(batches)) == Numbered(program)
    ensures forall i :: 0 <= i < |batches| - 1 ==> |batches[i].insts| == 256
  {
    hide Flat, Stamp;
    batches := [];
    var at, pcBase := 0, 0;
    NothingSent();
    while at < |program|
      invariant at <= |program| && pcBase == at % TWO_32
      invariant forall i :: 0 <= i < |batches| ==> ValidBatch(batches[i]) && batches[i].insts != []
      invariant Flat(StampAll(batches)) == Numbered(program[..at])
      invariant forall i :: 0 <= i < |batches| ==> |batches[i].insts| == 256 || (i == |batches| - 1 && at == |program|)
    {
      var to := if at + MAX_BATCH < |program| then at + MAX_BATCH else |program|;
      var batch := Batch(program[at..to], pcBase);
      StampContinues(program, at, to);
      FlatOfOneMore(batches, batch);
      ReduceEarly(at, to - at);
      batches := batches + [batch];
      pcBase := (pcBase + |batch.insts|) % TWO_32;
      at := to;
    }
    assert program[..at] == program;
  }

  lemma NothingSent()
    ensures Flat(StampAll([])) == []
  {
  }

  lemma {:induction false} FlatOfConcat(a: seq<seq<Entry>>, b: seq<seq<Entry>>)
    ensures Flat(a + b) == Flat(a) + Flat(b)
  {
    if b == [] {
      assert a + b == a;
    } else {
      FlatOfConcat(a, b[..|b| - 1]);
      assert (a + b)[..|a + b| - 1] == a + b[..|b| - 1];
    }
  }

  /**
   A host that dispatches the slices of a program after anything else and got an Ok for the last
   of them has had the whole program executed on every block: behind what was published before,
   in order, and with nothing in between or after it.
   */
  lemma SlicedProgramIsExecuted(s: State, before: seq<Batch>, batches: seq<Batch>, program: seq<seq<Word>>, b: nat)
    requires Inv(s) && s.host.Waiting? && HostAct(s).host.Ready? && b < |s.locs|
    requires s.sent == before + batches && Flat(StampAll(batches)) == Numbered(program)
    requires forall i :: 0 <= i < |batches| ==> batches[i].insts != []
    ensures |before| <= |s.plan| && s.logs[b] == Flat(s.plan[..|before|]) + Numbered(program)
  {
    hide Control, LogInv, HostContent;
    OkAfterEveryBlockExecuted(s, b);
    var n := |before|;
    assert PlanMatches(s.sent, s.plan);
    forall i | 0 <= i < |batches| ensures s.plan[n..][i] == StampAll(batches)[i] {
      assert s.sent[n + i] == batches[i];
      PlannedAsSentIffNonempty(s, n + i);
    }
    assert s.plan[n..] == StampAll(batches);
    assert s.plan == s.plan[..n] + s.plan[n..];
    FlatOfConcat(s.plan[..n], s.plan[n..]);
  }

  /** The same over every run from the start, whatever was dispatched before. */
  lemma SlicedProgramIsExecutedInRuns(s0: State, n: nat, events: seq<Event>, before: seq<Batch>, batches: seq<Batch>, program: seq<seq<Word>>, b: nat)
    requires Init(s0, n) && !s0.late && CanRun(s0, events) && b < n
    requires RunEvents(s0, events).host.Waiting? && HostAct(RunEvents(s0, events)).host.Ready?
    requires RunEvents(s0, events).sent == before + batches && Flat(StampAll(batches)) == Numbered(program)
    requires forall i :: 0 <= i < |batches| ==> batches[i].insts != []
    ensures var s := RunEvents(s0, events);
            |s.logs| == n && |before| <= |s.plan| && s.logs[b] == Flat(s.plan[..|before|]) + Numbered(program)
  {
    hide Control, Data, Flat, StampAll;
    InitHasInv(s0, n);
    RunKeepsInv(s0, events);
    RunKeepsBlocks(s0, events);
    SlicedProgramIsExecuted(RunEvents(s0, events), before, batches, program, b);
  }

  // ---------------------------------------------------------------- try_wait_acks_many

  /** What one sweep of the polling loop reads: every target's ack, then the two ways to stop. */
  datatype Sweep = Sweep(acks: seq<nat>, shutdown: bool, timedOut: bool)

  datatype Target = Target(gpu: nat, seqNum: nat)

  datatype WaitResult =
    | Ok
    | ShutdownRequested(target: nat)
    | Timeout(target: nat)
    | StillPolling

  /** Target `i` acknowledged in one of the first `n` sweeps. */
  ghost predicate Acked(targets: seq<Target>, sweeps: seq<Sweep>, n: nat, i: nat)
    requires i < |targets| && n <= |sweeps|
    requires forall t :: 0 <= t < |sweeps| ==> |sweeps[t].acks| == |targets|
  {
    exists t :: 0 <= t < n && sweeps[t].acks[i] == targets[i].seqNum
  }

  ghost predicate FirstMissing(targets: seq<Target>, sweeps: seq<Sweep>, n: nat, i: nat)
    requires n <= |sweeps|
    requires forall t :: 0 <= t < |sweeps| ==> |sweeps[t].acks| == |targets|
  {
    i < |targets| && !Acked(targets, sweeps, n, i) && forall j: nat :: j < i ==> Acked(targets, sweeps, n, j)
  }

  /** After n sweeps a target is still missing. */
  ghost predicate SomeMissing(targets: seq<Target>, sweeps: seq<Sweep>, n: nat)
    requires n <= |sweeps|
    requires forall t :: 0 <= t < |sweeps| ==> |sweeps[t].acks| == |targets|
  {
    exists i: nat :: i < |targets| && !Acked(targets, sweeps, n, i)
  }

  function Undone(done: seq<bool>): nat {
    if done == [] then 0 else Undone(done[..|done| - 1]) + if done[|done| - 1] then 0 else 1
  }

  lemma {:induction false} UndoneUpdate(done: seq<bool>, i: nat)
    requires i < |done| && !done[i]
    ensures Undone(done[i := true]) == Undone(done) - 1
  {
    var last := |done| - 1;
    if i == last {
      assert done[i := true][..last] == done[..last];
    } else {
      assert done[i := true][..last] == done[..last][i := true];
      UndoneUpdate(done[..last], i);
    }
  }

  lemma {:induction false} UndoneZero(done: seq<bool>)
    ensures Undone(done) == 0 <==> forall i :: 0 <= i < |done| ==> done[i]
  {
    if done != [] {
      UndoneZero(done[..|done| - 1]);
      assert forall i :: 0 <= i < |done| - 1 ==> done[i] == done[..|done| - 1][i];
    }
  }

  lemma {:induction false} UndoneFresh(done: seq<bool>)
    requires forall i :: 0 <= i < |done| ==> !done[i]
    ensures Undone(done) == |done|
  {
    if done != [] {
      UndoneFresh(done[..|done| - 1]);
    }
  }

  /** `done` records exactly which targets the first `n` sweeps saw acknowledged. */
  ghost predicate Records(done: seq<bool>, targets: seq<Target>, sweeps: seq<Sweep>, n: nat)
    requires n <= |sweeps|
    requires forall t :: 0 <= t < |sweeps| ==> |sweeps[t].acks| == |targets|
  {
    |done| == |targets| && forall i: nat :: i < |targets| ==> (done[i] <==> Acked(targets, sweeps, n, i))
  }

  /** One pass over the targets that are not done yet. */
  method SweepOnce(targets: seq<Target>, acks: seq<nat>, done: array<bool>) returns (found: nat)
    requires |acks| == |targets| == done.Length
    modifies done
    ensures forall i: nat :: i < done.Length ==> (done[i] <==> old(done[i]) || acks[i] == targets[i].seqNum)
    ensures found + Undone(done[..]) == Undone(old(done[..]))
  {
    found := 0;
    for i := 0 to |targets|
      invariant forall j: nat :: j < i ==> (done[j] <==> old(done[j]) || acks[j] == targets[j].seqNum)
      invariant forall j: nat :: i <= j < done.Length ==> done[j] == old(done[j])
      invariant found + Undone(done[..]) == Undone(old(done[..]))
    {
      if !done[i] && acks[i] == targets[i].seqNum {
        ghost var before := done[..];
        UndoneUpdate(before, i);
        done[i] := true;
        assert done[..] == before[i := true];
        found := found + 1;
      }
    }
  }

  method FirstUndone(done: array<bool>) returns (i: nat)
    requires exists j :: 0 <= j < done.Length && !done[j]
    ensures i < done.Length && !done[i] && forall j: nat :: j < i ==> done[j]
  {
    i := 0;
    while done[i]
      invariant i < done.Length && exists j :: i <= j < done.Length && !done[j]
      invariant forall j: nat :: j < i ==> done[j]
      decreases done.Length - i
    {
      i := i + 1;
    }
  }

  lemma RecordsOneMore(before: seq<bool>, after: seq<bool>, targets: seq<Target>, sweeps: seq<Sweep>, n: nat)
    requires n < |sweeps|
    requires forall t :: 0 <= t < |sweeps| ==> |sweeps[t].acks| == |targets|
    requires Records(before, targets, sweeps, n) && |after| == |targets|
    requires forall i: nat :: i < |targets| ==> (after[i] <==> before[i] || sweeps[n].acks[i] == targets[i].seqNum)
    ensures Records(after, targets, sweeps, n + 1)
  {
  }

  /**
   One polling loop for any number of workers.  It succeeds only when every target's ack was
   seen, in any sweep and any order, and as soon as that is so; when it stops early it names the first target that was
   never seen acknowledged.
   */
  method TryWaitAcksMany(targets: seq<Target>, sweeps: seq<Sweep>) returns (result: WaitResult, used: nat)
    requires forall t :: 0 <= t < |sweeps| ==> |sweeps[t].acks| == |targets|
    ensures used <= |sweeps|
    ensures result.Ok? <==> forall i: nat :: i < |targets| ==> Acked(targets, sweeps, used, i)
    ensures result.ShutdownRequested? || result.Timeout? ==>
              used > 0 && FirstMissing(targets, sweeps, used, result.target)
    ensures result.ShutdownRequested? ==> sweeps[used - 1].shutdown
    ensures result.Timeout? ==> sweeps[used - 1].timedOut && !sweeps[used - 1].shutdown
    ensures result.StillPolling? ==> used == |sweeps|
    ensures forall t :: 0 <= t < used - 1 ==> !sweeps[t].shutdown && !sweeps[t].timedOut
    ensures forall n: nat :: n < used ==> SomeMissing(targets, sweeps, n)
  {
    hide Undone;
    var done := new bool[|targets|](i => false);
    var remaining := |targets|;
    used := 0;
    UndoneFresh(done[..]);
    while remaining > 0
      invariant used <= |sweeps| && remaining == Undone(done[..])
      invariant Records(done[..], targets, sweeps, used)
      invariant forall t :: 0 <= t < used ==> !sweeps[t].shutdown && !sweeps[t].timedOut
      invariant forall n: nat :: n < used ==> SomeMissing(targets, sweeps, n)
      decreases |sweeps| - used
    {
      UndoneZero(done[..]);
      if used == |sweeps| {
        return StillPolling, used;
      }
      var sweep := sweeps[used];
      ghost var before := done[..];
      var found := SweepOnce(targets, sweep.acks, done);
      RecordsOneMore(before, done[..], targets, sweeps, used);
      remaining := remaining - found;
      used := used + 1;
      UndoneZero(done[..]);
      if remaining == 0 {
        return Ok, used;
      }
      if sweep.shutdown || sweep.timedOut {
        var i := FirstUndone(done);
        return if sweep.shutdown then ShutdownRequested(i) else Timeout(i), used;
      }
    }
    UndoneZero(done[..]);
    result := Ok;
  }
}
