/**
 Liveness of the mailbox: with the acknowledgement written in the iteration that executed
 the batch, every reachable state with a batch in flight leads to its acknowledgement by
 steps of the blocks alone; with the acknowledgement deferred past the next poll, no dispatch
 ever returns.
 */
module MailboxProgress {
  import B = GridBarrier
  import opened Words
  import opened Mailbox
  import opened MailboxSafety

  const PER_OP: nat := 40

  /** A batch is published and not acknowledged, its number is not wrapped, and nobody asked to stop. */
  ghost predicate Pending(s: State) {
    && Inv(s)
    && 0 < |s.plan| <= LAST_SEQ
    && Acks(s) == |s.plan| - 1
    && !s.queue.shutdown && !s.shutdownSeen
    && !s.forceExit && !s.watchdogExit
  }

  // ---------------------------------------------------------------- a measure

  function BarrierRank(pc: B.Pc): nat {
    match pc
    case Outside => 4
    case Loaded(_) => 3
    case Spinning(_) => 2
    case LastArriver(_) => 2
    case CounterReset(_) => 1
  }

  /** `PER_OP` for each instruction from `pc` on. */
  function OpsLeft(len: nat, pc: nat): nat {
    if pc < len then (len - pc) * PER_OP else 0
  }

  /** Bounds the actions a block still takes before it waits for the batch after `next`. */
  function Rank(loc: Loc, pc: B.Pc, next: nat, len: nat): nat {
    var full := OpsLeft(len, 0) + 20;
    match loc
    case OpBarrier(j) => BarrierRank(pc) + if j.seqNum == next then OpsLeft(len, j.pc + 1) + 12 else full + 30
    case Ack(q) => if q == next then 11 else full + 29
    case Poll(l) => if l == next then 10 else full + 25
    case PollSeq(l) => full + 24
    case PollBarrier(l) => BarrierRank(pc) + if l == next then 4 else full + 10
    case CheckShutdown(_) => full + 10
    case ReadSeq(_) => full + 9
    case ReadNum(_) => full + 8
    case WatchdogPoll(j) => OpsLeft(len, j.pc) + 12
    case WatchdogBarrier(j) => OpsLeft(len, j.pc) + 7 + BarrierRank(pc)
    case CheckWatchdog(j) => OpsLeft(len, j.pc) + 7
    case Fetch(j, words) => if |words| <= INST_WORDS then OpsLeft(len, j.pc + 1) + 36 - |words| else 0
    case _ => 0
  }

  function RankOf(s: State, b: nat): nat
    requires Shaped(s) && b < |s.locs|
  {
    Rank(s.locs[b], s.bar.pcs[b], s.seqCounter, if s.plan == [] then 0 else |s.plan[|s.plan| - 1]|)
  }

  function TotalRank(s: State, upto: nat): nat
    requires Shaped(s) && upto <= |s.locs|
  {
    if upto == 0 then 0 else TotalRank(s, upto - 1) + RankOf(s, upto - 1)
  }

  lemma {:induction false} TotalRankFalls(s: State, s': State, c: nat, upto: nat)
    requires Shaped(s) && Shaped(s') && |s'.locs| == |s.locs| && upto <= |s.locs| && c < |s.locs|
    requires forall d: nat :: d < |s.locs| && d != c ==> RankOf(s', d) == RankOf(s, d)
    ensures TotalRank(s', upto) == TotalRank(s, upto) + if c < upto then RankOf(s', c) - RankOf(s, c) else 0
  {
    hide RankOf, Rank;
    if upto > 0 {
      TotalRankFalls(s, s', c, upto - 1);
    }
  }

  // ---------------------------------------------------------------- someone can act, and it helps

  /** In the phases of the batch in flight, or on the way to acknowledging it. */
  lemma WherePending(s: State)
    requires Pending(s)
    ensures s.phase.k == |s.plan| - 1 || (s.phase == Top(|s.plan|) && (Released(s.bar, 0) || s.locs[0].Ack?))
    ensures s.phase.k == |s.plan| - 1 ==> s.phase.k < LAST_SEQ
  {
  }

  lemma SomeoneCanAct(s: State) returns (c: nat)
    requires Pending(s)
    ensures c < |s.locs| && !B.Blocked(s.bar, c)
    ensures s.phase.k == |s.plan| ==> c == 0
  {
    WherePending(s);
    assert PlaceInv(s, 0) && B.PcConsistent(s.bar, 0);
    if s.phase.k == |s.plan| {
      c := 0;
    } else {
      c := B.SomeBlockCanAct(s.bar, 0, s.bar.completed[0] + 1);
    }
  }

  /** Leaving the barrier at a site of the pending batch lowers the rank. */
  lemma LeavingLowersRank(loc: Loc, pc: B.Pc, next: nat, len: nat)
    requires AtBarrier(loc) && (loc.PollBarrier? ==> loc.last != next)
    requires (loc.OpBarrier? && loc.job.seqNum == next) ==> loc.job.num == len && loc.job.pc < len
    requires loc.OpBarrier? && loc.job.seqNum != next ==> loc.job.pc + 1 >= loc.job.num
    ensures Rank(AfterBarrier(loc), B.Outside, next, len) < Rank(loc, pc, next, len)
  {
  }

  lemma LocalActionLowersRank(leader: bool, q: Queue, loc: Loc, next: nat, len: nat)
    requires |q.inst| == BUFFER_WORDS && !AtBarrier(loc) && !loc.Exited? && !loc.LateAck? && !q.shutdown
    requires loc.PollSeq? ==> q.seqNum > loc.last && loc.last != next
    requires loc.Poll? && leader ==> loc.last != next
    requires loc.ReadNum? ==> EffectiveNum(q.num) == len
    requires HasJob(loc) ==> loc.job.pc < len
    requires loc.Fetch? ==> |loc.words| < INST_WORDS && loc.job.seqNum == next
    ensures Rank(NextLoc(false, leader, q, false, false, loc), B.Outside, next, len) < Rank(loc, B.Outside, next, len)
  {
  }

  lemma LocalStepLowersRank(s: State, c: nat)
    requires Pending(s) && c < |s.locs| && !AtBarrier(s.locs[c])
    requires s.phase.k == |s.plan| ==> c == 0
    ensures RankOf(LocalStep(s, c), c) < RankOf(s, c)
  {
    hide LogInv, HostContent, PlanMatches, B.Inv, Rank;
    WherePending(s);
    assert PlaceInv(s, c) && PlaceInv(s, 0);
    NewBatchIsNoticed(s.phase.k);
    LocalActionLowersRank(c == 0, s.queue, s.locs[c], s.seqCounter, |s.plan[|s.plan| - 1]|);
  }

  /** A block that can leave a barrier is at a site of the batch in flight or of the one before. */
  lemma LeavingSites(s: State, c: nat)
    requires Pending(s) && c < |s.locs| && AtBarrier(s.locs[c]) && !B.Blocked(s.bar, c)
    requires s.bar.pcs[c].Spinning? || s.bar.pcs[c].CounterReset?
    requires s.phase.k == |s.plan| ==> c == 0
    ensures var loc, next, len := s.locs[c], s.seqCounter, |s.plan[|s.plan| - 1]|;
            && (loc.PollBarrier? ==> loc.last != next)
            && (loc.OpBarrier? && loc.job.seqNum == next ==> loc.job.num == len && loc.job.pc < len)
            && (loc.OpBarrier? && loc.job.seqNum != next ==> loc.job.pc + 1 >= loc.job.num)
  {
    WherePending(s);
    NewBatchIsNoticed(|s.plan| - 1);
    assert PlaceInv(s, c) && B.PcConsistent(s.bar, c);
  }

  /** Every barrier action that is neither a spin nor the way out lowers the barrier rank. */
  lemma BarrierRankFalls(bar: B.State, c: nat)
    requires B.WellShaped(bar) && c < |bar.pcs| && !bar.pcs[c].Spinning? && !bar.pcs[c].CounterReset?
    ensures BarrierRank(B.Act(bar, c).pcs[c]) < BarrierRank(bar.pcs[c]) && !B.Act(bar, c).pcs[c].Outside?
  {
  }

  lemma BarrierStepLowersRank(s: State, c: nat)
    requires Pending(s) && c < |s.locs| && AtBarrier(s.locs[c]) && !B.Blocked(s.bar, c)
    requires s.phase.k == |s.plan| ==> c == 0
    ensures RankOf(BarrierStep(s, c), c) < RankOf(s, c)
  {
    hide LogInv, HostContent, PlanMatches, PlaceInv, B.PcConsistent;
    if s.bar.pcs[c].Spinning? || s.bar.pcs[c].CounterReset? {
      LeavingSites(s, c);
      LeavingLowersRank(s.locs[c], s.bar.pcs[c], s.seqCounter, |s.plan[|s.plan| - 1]|);
    } else {
      BarrierRankFalls(s.bar, c);
    }
  }

  lemma OthersKeepRank(s: State, c: nat, d: nat)
    requires Shaped(s) && c < |s.locs| && d < |s.locs| && c != d
    ensures RankOf(BlockAct(s, c), d) == RankOf(s, d)
  {
    hide Rank, NextLoc, NextLog, AfterBarrier;
  }

  lemma ActionLowersTotalRank(s: State, c: nat)
    requires Pending(s) && c < |s.locs| && !B.Blocked(s.bar, c)
    requires s.phase.k == |s.plan| ==> c == 0
    ensures TotalRank(BlockAct(s, c), |s.locs|) < TotalRank(s, |s.locs|)
  {
    if AtBarrier(s.locs[c]) {
      BarrierStepLowersRank(s, c);
    } else {
      LocalStepLowersRank(s, c);
    }
    forall d: nat | d < |s.locs| && d != c ensures RankOf(BlockAct(s, c), d) == RankOf(s, d) {
      OthersKeepRank(s, c, d);
    }
    TotalRankFalls(s, BlockAct(s, c), c, |s.locs|);
  }

  /** After a step of a block the batch is still in flight, or acknowledged. */
  lemma PendingOrAcknowledged(s: State, c: nat)
    requires Pending(s) && c < |s.locs|
    ensures var s' := BlockAct(s, c);
            && s'.plan == s.plan && s'.sent == s.sent && s'.seqCounter == s.seqCounter && s'.host == s.host
            && (Pending(s') || s'.queue.ack == s.seqCounter)
  {
    hide LogInv, HostContent, PlanMatches, B.Inv;
    var s' := BlockAct(s, c);
    BlockEventKeepsInv(s, c);
    assert PlaceInv(s, 0) && PlaceInv(s', 0) && PlaceInv(s', c);
  }

  predicate OnlyBlocks(events: seq<Event>) {
    forall i :: 0 <= i < |events| ==> events[i].BlockStep?
  }

  /**
   Every reachable state with a batch in flight can progress to its acknowledgement without
   any help from the host, in a bounded number of steps.
   */
  lemma {:induction false} NextAckIsReached(s: State) returns (events: seq<Event>)
    requires Pending(s)
    ensures CanRun(s, events) && OnlyBlocks(events) && |events| <= TotalRank(s, |s.locs|)
    ensures var r := RunEvents(s, events); r.queue.ack == s.seqCounter && r.plan == s.plan && r.sent == s.sent && r.seqCounter == s.seqCounter && r.host == s.host
    decreases TotalRank(s, |s.locs|)
  {
    var c := SomeoneCanAct(s);
    ActionLowersTotalRank(s, c);
    PendingOrAcknowledged(s, c);
    var s' := BlockAct(s, c);
    if s'.queue.ack == s.seqCounter {
      events := [BlockStep(c)];
      assert events[1..] == [];
    } else {
      var rest := NextAckIsReached(s');
      events := [BlockStep(c)] + rest;
      assert events[1..] == rest;
    }
  }

  /** A waiting host therefore gets its Ok, and by then every block has executed everything published. */
  lemma WaitReturns(s: State) returns (events: seq<Event>)
    requires Pending(s) && s.host.Waiting?
    ensures CanRun(s, events)
    ensures var r := RunEvents(s, events);
            && r.host.Ready? && r.plan == s.plan && r.sent == s.sent && |r.logs| == |s.logs|
            && forall b: nat :: b < |r.logs| ==> r.logs[b] == Flat(s.plan)
  {
    hide PlaceInv, LogInv, HostContent, PlanMatches, AckCoupled, PaceCoupled, B.Inv, Flat;
    var blocks := NextAckIsReached(s);
    var r := RunEvents(s, blocks);
    RunKeepsInv(s, blocks);
    RunKeepsBlocks(s, blocks);
    forall b: nat | b < |r.logs| ensures r.logs[b] == Flat(s.plan) {
      OkAfterEveryBlockExecuted(r, b);
    }
    events := blocks + [HostStep];
    RunThenOne(s, blocks, HostStep);
  }

  lemma {:induction false} RunThenOne(s: State, events: seq<Event>, e: Event)
    requires Shaped(s) && CanRun(s, events) && Enabled(RunEvents(s, events), e)
    ensures CanRun(s, events + [e]) && RunEvents(s, events + [e]) == Apply(RunEvents(s, events), e)
    decreases events
  {
    if events == [] {
      assert (events + [e])[1..] == [];
    } else {
      assert (events + [e])[1..] == events[1..] + [e];
      RunThenOne(Apply(s, events[0]), events[1..], e);
    }
  }

  // ---------------------------------------------------------------- an empty batch

  lemma {:induction false} RunConcat(s: State, a: seq<Event>, b: seq<Event>)
    requires Shaped(s) && CanRun(s, a) && CanRun(RunEvents(s, a), b)
    ensures CanRun(s, a + b) && RunEvents(s, a + b) == RunEvents(RunEvents(s, a), b)
    decreases a
  {
    if a == [] {
      assert a + b == b;
    } else {
      assert (a + b)[1..] == a[1..] + b;
      RunConcat(Apply(s, a[0]), a[1..], b);
    }
  }

  /** The host dispatches a batch without instructions: it writes the count and the base, then the number. */
  function PublishEmpty(base: nat): seq<Event> {
    [HostStart(Batch([], base)), HostStep, HostStep, HostStep]
  }

  /** What the first slot of the buffer still holds from earlier. */
  function StaleEntry(s: State, base: nat): Entry
    requires Shaped(s)
  {
    Entry(s.queue.inst[..INST_WORDS], base)
  }

  lemma EmptyBatchIsPlanned(s: State, base: nat)
    requires Shaped(s) && s.host.Ready? && base < TWO_32
    ensures CanRun(s, PublishEmpty(base))
    ensures RunEvents(s, PublishEmpty(base)) ==
            s.(queue := s.queue.(num := 0, base := base, seqNum := NextSeq(s.seqCounter)), seqCounter := NextSeq(s.seqCounter),
               host := Waiting, sent := s.sent + [Batch([], base)], plan := s.plan + [[StaleEntry(s, base)]])
  {
    hide BlockAct, CanRun, RunEvents;
    var e := PublishEmpty(base);
    var s1 := Apply(s, e[0]);
    var s2 := Apply(s1, HostStep);
    var s3 := Apply(s2, HostStep);
    RunNothing(s);
    RunThenOne(s, [], e[0]);
    assert [] + [e[0]] == e[..1];
    RunThenOne(s, e[..1], HostStep);
    assert e[..1] + [HostStep] == e[..2];
    RunThenOne(s, e[..2], HostStep);
    assert e[..2] + [HostStep] == e[..3];
    RunThenOne(s, e[..3], HostStep);
    assert e[..3] + [HostStep] == e;
    assert QueuePlan(s.queue.inst, 0, base) == [StaleEntry(s, base)];
  }

  lemma RunNothing(s: State)
    requires Shaped(s)
    ensures CanRun(s, []) && RunEvents(s, []) == s
  {
  }

  lemma FirstDispatchIsPending(s0: State, n: nat, events: seq<Event>)
    requires Init(s0, n) && !s0.late && CanRun(s0, events)
    requires var s := RunEvents(s0, events);
             && s.host.Waiting? && |s.plan| == 1 && s.locs == s0.locs && s.bar == s0.bar && s.phase == s0.phase
             && !s.queue.shutdown && !s.shutdownSeen && !s.forceExit && !s.watchdogExit
    ensures Pending(RunEvents(s0, events))
  {
    hide Inv, PlaceInv;
    InitHasInv(s0, n);
    RunKeepsInv(s0, events);
  }

  /**
   From every start, a dispatch of an empty batch returns Ok after every block has executed one
   instruction nobody sent: the one left in the first slot of the buffer.
   */
  lemma EmptyBatchRunsStaleInstruction(s0: State, n: nat, base: nat) returns (events: seq<Event>)
    requires Init(s0, n) && !s0.late && !s0.queue.shutdown && !s0.forceExit && base < TWO_32
    ensures CanRun(s0, events)
    ensures var r := RunEvents(s0, events);
            && r.host.Ready? && r.sent == [Batch([], base)] && |r.logs| == n
            && forall b: nat :: b < n ==> r.logs[b] == [StaleEntry(s0, base)]
  {
    hide Inv, Flat;
    EmptyBatchIsPlanned(s0, base);
    var s1 := RunEvents(s0, PublishEmpty(base));
    assert s1.plan == [[StaleEntry(s0, base)]] && s1.sent == [Batch([], base)];
    FirstDispatchIsPending(s0, n, PublishEmpty(base));
    var more := WaitReturns(s1);
    RunConcat(s0, PublishEmpty(base), more);
    FlatOfOne([StaleEntry(s0, base)]);
    events := PublishEmpty(base) + more;
  }

  lemma FlatOfOne(batch: seq<Entry>)
    ensures Flat([batch]) == batch
  {
    assert [batch][..0] == [];
  }

  // ---------------------------------------------------------------- the deferred acknowledgement

  predicate LateLoc(loc: Loc) {
    match loc
    case LateAck(l) => l == 0
    case Poll(l) => l <= 1
    case PollSeq(l) => l <= 1
    case PollBarrier(l) => l <= 1
    case CheckShutdown(l) => l <= 1
    case ReadSeq(l) => l <= 1
    case ReadNum(q) => q <= 1
    case WatchdogPoll(j) => j.seqNum <= 1
    case WatchdogBarrier(j) => j.seqNum <= 1
    case CheckWatchdog(j) => j.seqNum <= 1
    case Fetch(j, _) => j.seqNum <= 1
    case OpBarrier(j) => j.seqNum <= 1
    case Ack(q) => q <= 1
    case Exited => true
  }

  /** What the late variant keeps as long as no shutdown is requested. */
  predicate LateInv(s: State) {
    && Shaped(s) && s.late
    && (!s.queue.shutdown ==>
          && !s.shutdownSeen
          && s.queue.ack == 0 && s.acked == 0
          && s.queue.seqNum == s.seqCounter
          && s.seqCounter == (if s.host.Waiting? || s.host.GaveUp? then 1 else 0)
          && LateLoc(s.locs[0]))
  }

  lemma LateLeaderStep(s: State)
    requires LateInv(s) && !AtBarrier(s.locs[0])
    ensures LateInv(LocalStep(s, 0))
  {
    hide NextLog, WordAt, EffectiveNum;
  }

  lemma LateLocalStepKeepsInv(s: State, b: nat)
    requires LateInv(s) && b < |s.locs| && !AtBarrier(s.locs[b])
    ensures LateInv(LocalStep(s, b))
  {
    hide NextLog, WordAt, EffectiveNum;
    if b == 0 {
      LateLeaderStep(s);
    }
  }

  lemma LateBarrierStepKeepsInv(s: State, b: nat)
    requires LateInv(s) && b < |s.locs| && AtBarrier(s.locs[b])
    ensures LateInv(BarrierStep(s, b))
  {
  }

  lemma LateHostStepKeepsInv(s: State)
    requires LateInv(s)
    ensures LateInv(HostAct(s))
  {
    hide LateLoc, QueuePlan, BatchWord;
  }

  lemma LateEventKeepsInv(s: State, e: Event)
    requires LateInv(s) && Enabled(s, e)
    ensures LateInv(Apply(s, e))
  {
    match e
    case BlockStep(b) =>
      if AtBarrier(s.locs[b]) {
        LateBarrierStepKeepsInv(s, b);
      } else {
        LateLocalStepKeepsInv(s, b);
      }
    case HostStep => LateHostStepKeepsInv(s);
    case _ =>
  }

  lemma {:induction false} LateRunKeepsInv(s: State, events: seq<Event>)
    requires LateInv(s) && CanRun(s, events)
    ensures LateInv(RunEvents(s, events))
    decreases events
  {
    if events != [] {
      LateEventKeepsInv(s, events[0]);
      LateRunKeepsInv(Apply(s, events[0]), events[1..]);
    }
  }

  /**
   Deferring the acknowledgement past the next poll wedges every run: the first dispatch
   never returns and the ack stays 0, for any number of blocks and any schedule, until
   someone requests a shutdown.
   */
  lemma LateAckNeverReturns(s0: State, n: nat, events: seq<Event>)
    requires Init(s0, n) && s0.late && CanRun(s0, events)
    requires !RunEvents(s0, events).queue.shutdown
    ensures var s := RunEvents(s0, events); s.acked == 0 && s.queue.ack == 0 && s.seqCounter <= 1
  {
    LateRunKeepsInv(s0, events);
  }
}
