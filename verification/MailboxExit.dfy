/**
 Stopping the worker: from every reachable state a shutdown request brings all blocks to their
 exit by their own steps, whatever they are doing; force-exit does so exactly when the leader
 still has a watchdog poll of the batch in flight before it.
 */
module MailboxExit {
  import B = GridBarrier
  import opened Words
  import opened Mailbox
  import opened MailboxSafety
  import opened MailboxProgress

  // ---------------------------------------------------------------- what the flags stand for

  /** A flag the leader broadcast was requested; force-exit once seen is taken at the next check. */
  predicate Flags(s: State)
    requires Shaped(s)
  {
    && (s.shutdownSeen ==> s.queue.shutdown)
    && (s.watchdogExit ==> s.forceExit && (s.phase.Checked? || (!s.phase.Top? && s.locs[0].WatchdogBarrier?)))
    && (s.phase.Dispatch? && s.locs[0].Exited? ==> s.queue.done)
  }

  lemma StartHasFlags(s: State, n: nat)
    requires Init(s, n)
    ensures Flags(s)
  {
  }

  lemma LocalStepKeepsFlags(s: State, b: nat)
    requires Inv(s) && Flags(s) && b < |s.locs| && !AtBarrier(s.locs[b])
    ensures Flags(LocalStep(s, b))
  {
    hide LogInv, HostContent, PlanMatches, AckCoupled, B.Inv, NextLog;
    assert PlaceInv(s, b) && PlaceInv(s, 0);
  }

  lemma BarrierStepKeepsFlags(s: State, b: nat)
    requires Inv(s) && Flags(s) && b < |s.locs| && AtBarrier(s.locs[b])
    ensures Flags(BarrierStep(s, b))
  {
    hide LogInv, HostContent, PlanMatches, AckCoupled, B.Inv;
    assert PlaceInv(s, b) && PlaceInv(s, 0);
    if s.bar.pcs[b].CounterReset? {
      EveryoneMeets(s, b, 0);
    } else {
      ConsistentPc(s, b);
    }
  }

  lemma ConsistentPc(s: State, b: nat)
    requires Inv(s) && b < |s.locs|
    ensures B.PcConsistent(s.bar, b) && s.bar.generation == s.bar.rounds % TWO_32
  {
    hide LogInv, HostContent, PlanMatches, AckCoupled, PlaceInv, PaceCoupled;
  }

  lemma EventKeepsFlags(s: State, e: Event)
    requires Inv(s) && Flags(s) && Enabled(s, e)
    ensures Flags(Apply(s, e))
  {
    hide PlaceInv, LogInv, HostContent, PlanMatches, AckCoupled, PaceCoupled, B.Inv, LocalStep, BarrierStep;
    match e
    case BlockStep(b) =>
      if AtBarrier(s.locs[b]) {
        BarrierStepKeepsFlags(s, b);
      } else {
        LocalStepKeepsFlags(s, b);
      }
    case _ =>
  }

  lemma {:induction false} RunKeepsFlags(s: State, events: seq<Event>)
    requires Inv(s) && Flags(s) && CanRun(s, events)
    ensures Flags(RunEvents(s, events))
    decreases events
  {
    hide PlaceInv, Data, AckCoupled, PaceCoupled, B.Inv, Flags, Apply;
    if events != [] {
      EventKeepsFlags(s, events[0]);
      EventKeepsInv(s, events[0]);
      RunKeepsFlags(Apply(s, events[0]), events[1..]);
    }
  }

  // ---------------------------------------------------------------- will the stop be seen?

  /**
   The leader still has a watchdog poll of the batch in flight before it: the batch will be
   noticed, or it runs and the poll of its last instruction is not yet done.
   */
  predicate PollAhead(s: State)
    requires Shaped(s)
  {
    var k, len := s.phase.k, PlanLen(s.plan, s.phase.k);
    match s.phase
    case Top(_) => k < |s.plan| && k < LAST_SEQ
    case Dispatch(_) => k < |s.plan| && !s.shutdownSeen && (!s.locs[0].WatchdogBarrier? || 1 < len)
    case Checked(_, pc) => pc + 1 < len
    case Between(_, pc) => !s.locs[0].WatchdogBarrier? || pc + 2 < len
  }

  /** A request to stop that the worker will take: a shutdown, or force-exit seen or about to be. */
  predicate StopAhead(s: State)
    requires Shaped(s)
  {
    s.queue.shutdown || (s.forceExit && (s.watchdogExit || PollAhead(s)))
  }

  lemma LocalStepKeepsStop(s: State, b: nat)
    requires Inv(s) && Flags(s) && StopAhead(s) && b < |s.locs| && !AtBarrier(s.locs[b])
    ensures StopAhead(LocalStep(s, b))
  {
    hide LogInv, HostContent, PlanMatches, AckCoupled, B.Inv, NextLog;
    assert PlaceInv(s, b) && PlaceInv(s, 0);
  }

  lemma BarrierStepKeepsStop(s: State, b: nat)
    requires Inv(s) && Flags(s) && StopAhead(s) && b < |s.locs| && AtBarrier(s.locs[b])
    ensures StopAhead(BarrierStep(s, b))
  {
    hide LogInv, HostContent, PlanMatches, AckCoupled, B.Inv;
    assert PlaceInv(s, b) && PlaceInv(s, 0);
    if s.bar.pcs[b].CounterReset? {
      EveryoneMeets(s, b, 0);
    } else {
      ConsistentPc(s, b);
    }
  }

  lemma BlockStepKeepsStop(s: State, b: nat)
    requires Inv(s) && Flags(s) && StopAhead(s) && b < |s.locs|
    ensures Inv(BlockAct(s, b)) && Flags(BlockAct(s, b)) && StopAhead(BlockAct(s, b))
  {
    hide Inv, Flags, StopAhead, LocalStep, BarrierStep;
    BlockEventKeepsInv(s, b);
    if AtBarrier(s.locs[b]) {
      BarrierStepKeepsFlags(s, b);
      BarrierStepKeepsStop(s, b);
    } else {
      LocalStepKeepsFlags(s, b);
      LocalStepKeepsStop(s, b);
    }
  }

  // ---------------------------------------------------------------- a measure

  const MOST: nat := 50

  /** Barriers the blocks still pass before they can all be at an exit. */
  function PhasesLeft(p: Phase, plan: seq<seq<Entry>>): nat {
    var len := PlanLen(plan, p.k);
    match p
    case Top(k) => if k < |plan| then 2 * len + 2 else 1
    case Dispatch(k) => if k < |plan| then 2 * len + 1 else 0
    case Checked(_, pc) => if pc < len then 2 * (len - pc) else 0
    case Between(_, pc) => if pc < len then 2 * (len - pc) - 1 else 0
  }

  /** Steps a block still takes in this phase. */
  function StepsLeft(loc: Loc, pc: B.Pc, released: bool, shutdown: bool): (n: nat)
    ensures n <= MOST
  {
    if released then MOST
    else
      match loc
      case Exited => 0
      case Ack(_) => 45
      case Poll(_) => if shutdown then 43 else 44
      case PollSeq(_) => if shutdown then 44 else 43
      case CheckShutdown(_) => 45
      case ReadSeq(_) => 44
      case ReadNum(_) => 43
      case WatchdogPoll(_) => 42
      case CheckWatchdog(_) => 41
      case Fetch(_, words) => if |words| <= 30 then 40 - |words| else 10
      case _ => BarrierRank(pc)
  }

  function StepsOf(s: State, b: nat): (n: nat)
    requires Shaped(s) && b < |s.locs|
    ensures n <= MOST
  {
    StepsLeft(s.locs[b], s.bar.pcs[b], Released(s.bar, b), s.queue.shutdown)
  }

  function TotalSteps(s: State, upto: nat): (n: nat)
    requires Shaped(s) && upto <= |s.locs|
    ensures n <= upto * MOST
  {
    if upto == 0 then 0 else TotalSteps(s, upto - 1) + StepsOf(s, upto - 1)
  }

  function Times(a: nat, b: nat): nat {
    a * b
  }

  /** Bounds the steps until every block has exited. */
  function StopWork(s: State): nat
    requires Shaped(s)
  {
    Times(PhasesLeft(s.phase, s.plan), |s.locs| * MOST + 1) + TotalSteps(s, |s.locs|)
  }

  lemma {:induction false} TotalStepsFall(s: State, s': State, c: nat, upto: nat)
    requires Shaped(s) && Shaped(s') && |s'.locs| == |s.locs| && upto <= |s.locs| && c < |s.locs|
    requires forall d: nat :: d < |s.locs| && d != c ==> StepsOf(s', d) == StepsOf(s, d)
    ensures TotalSteps(s', upto) == TotalSteps(s, upto) + if c < upto then StepsOf(s', c) - StepsOf(s, c) else 0
  {
    hide StepsOf;
    if upto > 0 {
      TotalStepsFall(s, s', c, upto - 1);
    }
  }

  // ---------------------------------------------------------------- someone can act, and it helps

  lemma SomeoneCanMove(s: State) returns (c: nat)
    requires Inv(s) && exists b: nat :: b < |s.locs| && !s.locs[b].Exited?
    ensures c < |s.locs| && !s.locs[c].Exited? && !B.Blocked(s.bar, c)
  {
    hide PlaceInv, LogInv, HostContent, PlanMatches, AckCoupled, PaceCoupled, B.Inv, Released;
    var b: nat :| b < |s.locs| && !s.locs[b].Exited?;
    if e: nat :| e < |s.locs| && s.locs[e].Exited? {
      ExitAgreement(s, e, b);
      c := b;
    } else {
      c := B.SomeBlockCanAct(s.bar, b, s.bar.completed[b] + 1);
    }
  }

  /** A move outside the barrier is a step nearer unless the leader polls in vain. */
  lemma MoveHelps(leader: bool, q: Queue, shut: bool, fired: bool, loc: Loc)
    requires |q.inst| == BUFFER_WORDS && !AtBarrier(loc) && !loc.Exited? && !loc.LateAck?
    requires loc.PollSeq? && !q.shutdown ==> q.seqNum > loc.last
    requires loc.Fetch? ==> |loc.words| < INST_WORDS
    ensures StepsLeft(NextLoc(false, leader, q, shut, fired, loc), B.Outside, false, q.shutdown) < StepsLeft(loc, B.Outside, false, q.shutdown)
  {
  }

  /** The leader does not poll in vain: it sees the shutdown, or a batch it has to serve. */
  lemma PollIsNotInVain(s: State, c: nat)
    requires Inv(s) && Flags(s) && StopAhead(s) && c < |s.locs| && !AtBarrier(s.locs[c])
    ensures !s.bar.pcs[c].Spinning? && s.bar.pcs[c].Outside? && !s.locs[c].LateAck?
    ensures s.locs[c].PollSeq? && !s.queue.shutdown ==> s.queue.seqNum > s.locs[c].last
    ensures s.locs[c].Fetch? ==> |s.locs[c].words| < INST_WORDS
  {
    hide LogInv, HostContent, PlanMatches, B.Inv, NextLog;
    assert PlaceInv(s, c) && PlaceInv(s, 0);
    NewBatchIsNoticed(s.phase.k);
  }

  lemma LocalStepHelps(s: State, c: nat)
    requires Inv(s) && Flags(s) && StopAhead(s) && c < |s.locs| && !AtBarrier(s.locs[c]) && !s.locs[c].Exited?
    ensures StepsOf(LocalStep(s, c), c) < StepsOf(s, c)
  {
    hide PlaceInv, Data, AckCoupled, PaceCoupled, B.Inv, Flags, StopAhead, StepsLeft, NextLoc, NextLog;
    PollIsNotInVain(s, c);
    MoveHelps(c == 0, s.queue, s.shutdownSeen, s.watchdogExit, s.locs[c]);
  }

  lemma OthersKeepSteps(s: State, c: nat, d: nat)
    requires Shaped(s) && c < |s.locs| && d < |s.locs| && c != d && !s.bar.pcs[c].CounterReset?
    ensures StepsOf(BlockAct(s, c), d) == StepsOf(s, d)
  {
    hide StepsLeft, NextLoc, NextLog, AfterBarrier, PlanLen, NextPhase, LeaderEffect, LocalStep, BarrierStep;
    if AtBarrier(s.locs[c]) {
      OthersKeepStepsInBarrier(s, c, d);
    } else {
      OthersKeepStepsOutside(s, c, d);
    }
  }

  lemma OthersKeepStepsInBarrier(s: State, c: nat, d: nat)
    requires Shaped(s) && c < |s.locs| && d < |s.locs| && c != d && !s.bar.pcs[c].CounterReset? && AtBarrier(s.locs[c])
    ensures StepsOf(BarrierStep(s, c), d) == StepsOf(s, d)
  {
    hide StepsLeft, AfterBarrier, PlanLen, NextPhase;
  }

  lemma OthersKeepStepsOutside(s: State, c: nat, d: nat)
    requires Shaped(s) && c < |s.locs| && d < |s.locs| && c != d && !AtBarrier(s.locs[c])
    ensures StepsOf(LocalStep(s, c), d) == StepsOf(s, d)
  {
    hide StepsLeft, NextLoc, NextLog, LeaderEffect;
  }

  lemma BarrierStepHelps(s: State, c: nat)
    requires Inv(s) && c < |s.locs| && AtBarrier(s.locs[c]) && !s.bar.pcs[c].CounterReset? && !B.Blocked(s.bar, c)
    ensures StepsOf(BarrierStep(s, c), c) < StepsOf(s, c)
  {
    hide LogInv, HostContent, PlanMatches, AckCoupled, B.Inv;
    assert PlaceInv(s, c);
    ConsistentPc(s, c);
    if Released(s.bar, c) {
      ReleaseLeadsWithin(ContextOf(s), s.locs[c]);
    }
  }

  lemma PublishHelps(s: State, c: nat)
    requires Inv(s) && c < |s.locs| && AtBarrier(s.locs[c]) && s.bar.pcs[c].CounterReset?
    ensures var s' := BarrierStep(s, c); s'.plan == s.plan && PhasesLeft(s'.phase, s'.plan) < PhasesLeft(s.phase, s.plan)
  {
    hide LogInv, HostContent, PlanMatches, AckCoupled, B.Inv;
    EveryoneMeets(s, c, 0);
    EveryoneMeets(s, c, c);
    assert PlaceInv(s, 0);
  }

  lemma WorkDrops(p: nat, p': nat, size: nat, steps: nat, steps': nat)
    requires p' < p && steps' < size
    ensures Times(p', size) + steps' < Times(p, size) + steps
  {
    assert p * size == (p - p' - 1) * size + p' * size + size;
  }

  /** Whatever a block that has not exited and does not spin in the barrier does, it is one step nearer. */
  lemma StepLowersStopWork(s: State, c: nat)
    requires Inv(s) && Flags(s) && StopAhead(s) && c < |s.locs| && !s.locs[c].Exited? && !B.Blocked(s.bar, c)
    ensures StopWork(BlockAct(s, c)) < StopWork(s)
  {
    hide PlaceInv, Data, AckCoupled, PaceCoupled, B.Inv, Flags, StopAhead, PhasesLeft, StepsOf, TotalSteps, LocalStep, BarrierStep, B.Blocked, Times;
    var s' := BlockAct(s, c);
    var size := |s.locs| * MOST + 1;
    if AtBarrier(s.locs[c]) && s.bar.pcs[c].CounterReset? {
      PublishHelps(s, c);
      WorkDrops(PhasesLeft(s.phase, s.plan), PhasesLeft(s'.phase, s'.plan), size, TotalSteps(s, |s.locs|), TotalSteps(s', |s'.locs|));
    } else {
      NotPublishing(s, c);
      if AtBarrier(s.locs[c]) {
        BarrierStepHelps(s, c);
      } else {
        LocalStepHelps(s, c);
      }
      forall d: nat | d < |s.locs| && d != c ensures StepsOf(s', d) == StepsOf(s, d) {
        OthersKeepSteps(s, c, d);
      }
      TotalStepsFall(s, s', c, |s.locs|);
    }
  }

  lemma NotPublishing(s: State, c: nat)
    requires Inv(s) && c < |s.locs| && !(AtBarrier(s.locs[c]) && s.bar.pcs[c].CounterReset?)
    ensures !s.bar.pcs[c].CounterReset?
    ensures BlockAct(s, c).phase == s.phase && BlockAct(s, c).plan == s.plan
  {
    hide LogInv, HostContent, PlanMatches, AckCoupled, PaceCoupled, B.Inv, NextLoc, NextLog;
    assert PlaceInv(s, c);
  }

  // ---------------------------------------------------------------- every block stops

  predicate AllExited(s: State) {
    forall b: nat :: b < |s.locs| ==> s.locs[b].Exited?
  }

  /** Only the leader's shutdown exit writes the number the worker leaves behind. */
  lemma ExitWritesNumber(s: State, c: nat)
    requires Inv(s) && Flags(s) && c < |s.locs|
    ensures var s' := BlockAct(s, c);
            && s'.queue.shutdown == s.queue.shutdown && s'.forceExit == s.forceExit
            && (s.locs[0].Exited? ==> s'.locs[0].Exited? && s'.queue.seqNum == s.queue.seqNum)
            && (!s.locs[0].Exited? && s'.locs[0].Exited? && !s.forceExit ==> s'.queue.seqNum == SHUTDOWN_SEQ)
  {
    hide LogInv, HostContent, PlanMatches, AckCoupled, PaceCoupled, B.Inv, NextLog;
    assert PlaceInv(s, c) && PlaceInv(s, 0);
  }

  /**
   A stop that will be seen brings every block to its exit by steps of the blocks alone.  Without
   force-exit the worker leaves `done` and the shutdown number behind; only a number the host
   published after the leader had left stays instead.
   */
  lemma {:induction false} EveryBlockStops(s: State) returns (events: seq<Event>)
    requires Inv(s) && Flags(s) && StopAhead(s)
    ensures CanRun(s, events) && OnlyBlocks(events) && |events| <= StopWork(s)
    ensures var r := RunEvents(s, events);
            && |r.locs| == |s.locs| && AllExited(r)
            && (!s.forceExit ==> r.queue.done && r.queue.seqNum == if s.locs[0].Exited? then s.queue.seqNum else SHUTDOWN_SEQ)
    decreases StopWork(s)
  {
    hide PlaceInv, Data, AckCoupled, PaceCoupled, B.Inv, StopAhead, StopWork, BlockAct;
    if AllExited(s) {
      events := [];
      if !s.forceExit {
        ExitedMeansDone(s);
      }
    } else {
      var c := SomeoneCanMove(s);
      StepLowersStopWork(s, c);
      BlockStepKeepsStop(s, c);
      ExitWritesNumber(s, c);
      var rest := EveryBlockStops(BlockAct(s, c));
      events := [BlockStep(c)] + rest;
      assert events[1..] == rest;
    }
  }

  lemma ExitedMeansDone(s: State)
    requires Inv(s) && Flags(s) && AllExited(s) && !s.forceExit
    ensures s.queue.done && s.locs[0].Exited?
  {
    hide LogInv, HostContent, PlanMatches, AckCoupled, PaceCoupled, B.Inv;
    assert PlaceInv(s, 0);
  }

  // ---------------------------------------------------------------- a force-exit that comes too late

  /** Force-exit has not been seen, and no poll of the batch in flight is left to see it. */
  ghost predicate Missed(s: State) {
    Inv(s) && Flags(s) && !s.queue.shutdown && !s.watchdogExit && !PollAhead(s)
  }

  lemma LocalStepKeepsMissed(s: State, b: nat)
    requires Missed(s) && b < |s.locs| && !AtBarrier(s.locs[b])
    ensures !LocalStep(s, b).watchdogExit && !PollAhead(LocalStep(s, b)) && !LocalStep(s, b).queue.shutdown
  {
    hide LogInv, HostContent, PlanMatches, AckCoupled, B.Inv, NextLog;
    assert PlaceInv(s, b) && PlaceInv(s, 0);
  }

  lemma BarrierStepKeepsMissed(s: State, b: nat)
    requires Missed(s) && b < |s.locs| && AtBarrier(s.locs[b]) && Inv(BarrierStep(s, b))
    ensures !BarrierStep(s, b).watchdogExit && !PollAhead(BarrierStep(s, b)) && !BarrierStep(s, b).queue.shutdown
  {
    hide LogInv, HostContent, PlanMatches, AckCoupled, B.Inv;
    assert PlaceInv(s, b) && PlaceInv(s, 0);
    if s.bar.pcs[b].CounterReset? {
      EveryoneMeets(s, b, 0);
    } else {
      ConsistentPc(s, b);
    }
  }

  lemma BlockStepKeepsMissed(s: State, b: nat)
    requires Missed(s) && b < |s.locs|
    ensures Missed(BlockAct(s, b))
  {
    hide PlaceInv, Data, AckCoupled, PaceCoupled, B.Inv, Flags, LocalStep, BarrierStep, PollAhead;
    BlockEventKeepsInv(s, b);
    if AtBarrier(s.locs[b]) {
      BarrierStepKeepsFlags(s, b);
      BarrierStepKeepsMissed(s, b);
    } else {
      LocalStepKeepsFlags(s, b);
      LocalStepKeepsMissed(s, b);
    }
  }

  predicate NoneExited(s: State) {
    forall b: nat :: b < |s.locs| ==> !s.locs[b].Exited?
  }

  lemma NobodyExits(s: State)
    requires Missed(s)
    ensures NoneExited(s)
  {
    hide LogInv, HostContent, PlanMatches, AckCoupled, PaceCoupled, B.Inv, PollAhead;
    forall b: nat | b < |s.locs| ensures !s.locs[b].Exited? {
      assert PlaceInv(s, b);
    }
  }

  lemma {:induction false} MissedForGood(s: State, events: seq<Event>)
    requires Missed(s) && CanRun(s, events) && OnlyBlocks(events)
    ensures |RunEvents(s, events).locs| == |s.locs| && NoneExited(RunEvents(s, events))
    decreases events
  {
    hide PlaceInv, Data, AckCoupled, PaceCoupled, B.Inv, Flags, BlockAct, PollAhead, NoneExited;
    if events == [] {
      NobodyExits(s);
    } else {
      assert events[0].BlockStep?;
      BlockStepKeepsMissed(s, events[0].b);
      assert forall i :: 0 <= i < |events[1..]| ==> events[1..][i] == events[i + 1];
      MissedForGood(Apply(s, events[0]), events[1..]);
    }
  }

  /** The blocks can all stop by their own steps. */
  ghost predicate CanStop(s: State)
    requires Shaped(s)
  {
    exists events :: CanRun(s, events) && OnlyBlocks(events) && AllExited(RunEvents(s, events))
  }

  lemma CanStopIff(s: State)
    requires Inv(s) && Flags(s) && (s.queue.shutdown || s.forceExit)
    ensures CanStop(s) <==> StopAhead(s)
  {
    hide PlaceInv, Data, AckCoupled, PaceCoupled, B.Inv, Flags, PollAhead;
    if StopAhead(s) {
      var events := EveryBlockStops(s);
    } else {
      forall events | CanRun(s, events) && OnlyBlocks(events) ensures !AllExited(RunEvents(s, events)) {
        MissedForGood(s, events);
        assert 0 < |s.locs| && !RunEvents(s, events).locs[0].Exited?;
      }
    }
  }

  // ---------------------------------------------------------------- over every run

  /** A state some run leads to. */
  lemma RunHasFlags(s0: State, n: nat, events: seq<Event>)
    requires Init(s0, n) && !s0.late && CanRun(s0, events)
    ensures var s := RunEvents(s0, events); Inv(s) && Flags(s) && |s.locs| == n
  {
    hide Inv, Flags;
    InitHasInv(s0, n);
    StartHasFlags(s0, n);
    RunKeepsInv(s0, events);
    RunKeepsFlags(s0, events);
    RunKeepsBlocks(s0, events);
  }

  /**
   Over every run: once a shutdown is requested, whether the worker is idle, in the middle of a
   batch or deaf to a wrapped number, boundedly many steps of the blocks bring all of them to their
   exit, and without force-exit the worker reports that it is done.
   */
  lemma ShutdownStopsTheWorker(s0: State, n: nat, events: seq<Event>) returns (more: seq<Event>)
    requires Init(s0, n) && !s0.late && CanRun(s0, events) && RunEvents(s0, events).queue.shutdown
    ensures var s := RunEvents(s0, events);
            && CanRun(s, more) && OnlyBlocks(more) && |more| <= StopWork(s)
            && var r := RunEvents(s, more);
               && |r.locs| == n && AllExited(r)
               && (!s.forceExit ==> r.queue.done)
               && (!s.forceExit && !s.locs[0].Exited? ==> r.queue.seqNum == SHUTDOWN_SEQ)
  {
    hide Inv, Flags;
    RunHasFlags(s0, n, events);
    more := EveryBlockStops(RunEvents(s0, events));
  }

  /**
   Over every run: force-exit alone stops the worker exactly when the leader has seen it or still
   has a watchdog poll of the batch in flight before it.
   */
  lemma ForceExitStopsTheWorkerIff(s0: State, n: nat, events: seq<Event>)
    requires Init(s0, n) && !s0.late && CanRun(s0, events)
    requires RunEvents(s0, events).forceExit && !RunEvents(s0, events).queue.shutdown
    ensures var s := RunEvents(s0, events); CanStop(s) <==> s.watchdogExit || PollAhead(s)
  {
    hide Inv, Flags, CanStop;
    RunHasFlags(s0, n, events);
    CanStopIff(RunEvents(s0, events));
  }

  /** In particular, force-exit stops a batch that is still to be noticed or has a poll left, in boundedly many steps. */
  lemma ForceExitStopsTheWorker(s0: State, n: nat, events: seq<Event>) returns (more: seq<Event>)
    requires Init(s0, n) && !s0.late && CanRun(s0, events)
    requires RunEvents(s0, events).forceExit && PollAhead(RunEvents(s0, events))
    ensures var s := RunEvents(s0, events);
            && CanRun(s, more) && OnlyBlocks(more) && |more| <= StopWork(s)
            && |RunEvents(s, more).locs| == n && AllExited(RunEvents(s, more))
  {
    hide Inv, Flags, PollAhead;
    RunHasFlags(s0, n, events);
    more := EveryBlockStops(RunEvents(s0, events));
  }

  // ---------------------------------------------------------------- and it can come too late

  /** While a poll is ahead, a step of a block does not yet acknowledge the batch. */
  lemma NotYetAcknowledged(s: State, c: nat)
    requires Pending(s) && PollAhead(s) && c < |s.locs|
    ensures Pending(BlockAct(s, c)) && BlockAct(s, c).plan == s.plan
  {
    hide LogInv, HostContent, PlanMatches, B.Inv;
    PendingOrAcknowledged(s, c);
    assert PlaceInv(s, 0) && PlaceInv(s, c);
  }

  /** From every state with a batch in flight the blocks get past its last watchdog poll. */
  lemma {:induction false} LastPollIsPassed(s: State) returns (events: seq<Event>)
    requires Pending(s)
    ensures CanRun(s, events) && OnlyBlocks(events)
    ensures var r := RunEvents(s, events); Pending(r) && !PollAhead(r) && r.plan == s.plan
    decreases TotalRank(s, |s.locs|)
  {
    hide Pending, BlockAct, TotalRank, PollAhead;
    PendingIsShaped(s);
    if !PollAhead(s) {
      events := [];
    } else {
      var c := SomeoneCanAct(s);
      ActionLowersTotalRank(s, c);
      NotYetAcknowledged(s, c);
      var rest := LastPollIsPassed(BlockAct(s, c));
      events := [BlockStep(c)] + rest;
      assert events[1..] == rest;
    }
  }

  lemma PendingIsShaped(s: State)
    requires Pending(s)
    ensures Shaped(s)
  {
  }

  lemma FlagsDoNotMoveThePoll(s: State, s': State)
    requires Shaped(s) && s' == s.(forceExit := true)
    ensures PollAhead(s') == PollAhead(s)
  {
  }

  /**
   Every batch in flight can be overtaken: there are steps of the blocks after which force-exit,
   raised before the batch is acknowledged, stops no block until the host does something else.
   */
  lemma ForceExitCanComeTooLate(s: State) returns (events: seq<Event>)
    requires Pending(s) && Flags(s)
    ensures CanRun(s, events)
    ensures var r := RunEvents(s, events);
            && r.forceExit && r.plan == s.plan && Acks(r) < |r.plan|
            && forall more :: CanRun(r, more) && OnlyBlocks(more) ==> NoneExited(RunEvents(r, more))
  {
    hide PlaceInv, Data, AckCoupled, PaceCoupled, B.Inv, Flags, PollAhead;
    var blocks := LastPollIsPassed(s);
    var r := RunEvents(s, blocks);
    RunKeepsFlags(s, blocks);
    var late := Apply(r, ForceExit);
    EventKeepsInv(r, ForceExit);
    EventKeepsFlags(r, ForceExit);
    assert PollAhead(late) == PollAhead(r) by {
      FlagsDoNotMoveThePoll(r, late);
    }
    RunThenOne(s, blocks, ForceExit);
    events := blocks + [ForceExit];
    forall more | CanRun(late, more) && OnlyBlocks(more) ensures NoneExited(RunEvents(late, more)) {
      MissedForGood(late, more);
    }
  }
}
