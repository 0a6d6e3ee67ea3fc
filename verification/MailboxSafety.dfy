/**
 What every run of the mailbox protocol keeps, for any number of blocks and any interleaving,
 and what follows: exactly-once in-order execution, waits that return only after execution,
 and agreement on exit.  Control (where blocks and host stand) is proved first, from numbers
 alone; the data invariant (buffer contents and execution logs) is proved on top of it.
 */
module MailboxSafety {
  import B = GridBarrier
  import opened Mailbox

  // ---------------------------------------------------------------- control: blocks outside the barrier

  /** Blocks that did not act keep their place. */
  lemma OthersStay(s: State, s': State, b: nat)
    requires Shaped(s) && Shaped(s') && |s'.locs| == |s.locs|
    requires s'.bar == s.bar && s'.plan == s.plan && s'.phase == s.phase
    requires forall c: nat :: c < |s.locs| && c != b ==> s'.locs[c] == s.locs[c]
    requires s'.shutdownSeen == s.shutdownSeen || s.phase.Top?
    requires s'.watchdogExit == s.watchdogExit || !s.phase.Checked?
    requires forall c: nat :: c < |s.locs| ==> PlaceInv(s, c)
    ensures forall c: nat :: c < |s.locs| && c != b ==> PlaceInv(s', c)
  {
    forall c: nat | c < |s.locs| && c != b ensures PlaceInv(s', c) {
      assert PlaceInv(s, c);
    }
  }

  /** Outside the barrier a block moves within the phase's code or on to its meeting site. */
  lemma NextLocPlaced(c: Ctx, leader: bool, q: Queue, loc: Loc)
    requires |q.inst| == BUFFER_WORDS && IsWithin(c, loc)
    requires c.phase.Dispatch? && !c.shut ==> q.seqNum == c.next && EffectiveNum(q.num) == c.len
    ensures Placed(c, false, true, NextLoc(false, leader, q, c.shut, c.fired, loc))
  {
  }

  /** Flags are only looked at in the phase that follows the barrier they were raised before. */
  lemma FlagsAreLocal(c: Ctx, c': Ctx, loc: Loc)
    requires c' == c.(shut := c'.shut, fired := c'.fired)
    requires c'.shut == c.shut || c.phase.Top?
    requires c'.fired == c.fired || !c.phase.Checked?
    ensures Placed(c, false, true, loc) == Placed(c', false, true, loc)
  {
  }

  lemma MoverStaysPlaced(s: State, b: nat)
    requires Shaped(s) && !s.late && b < |s.locs| && !AtBarrier(s.locs[b])
    requires PlaceInv(s, b) && AckCoupled(s) && PaceCoupled(s)
    ensures PlaceInv(LocalStep(s, b), b)
  {
    var c, s' := ContextOf(s), LocalStep(s, b);
    var loc' := NextLoc(false, b == 0, s.queue, s.shutdownSeen, s.watchdogExit, s.locs[b]);
    NextLocPlaced(c, b == 0, s.queue, s.locs[b]);
    FlagsAreLocal(c, ContextOf(s'), loc');
  }

  lemma LeaderKeepsAcks(s: State)
    requires Shaped(s) && !s.late && !AtBarrier(s.locs[0])
    requires PlaceInv(s, 0) && AckCoupled(s) && PaceCoupled(s)
    ensures AckCoupled(LocalStep(s, 0))
  {
  }

  lemma LeaderKeepsPace(s: State)
    requires Shaped(s) && !s.late && !AtBarrier(s.locs[0])
    requires PlaceInv(s, 0) && AckCoupled(s) && PaceCoupled(s)
    ensures PaceCoupled(LocalStep(s, 0))
  {
    hide SeqOf, HostPace, PlanLen, EffectiveNum;
    NewBatchIsNoticed(s.phase.k);
  }

  lemma FollowerStaysCoupled(s: State, b: nat)
    requires Shaped(s) && !s.late && b < |s.locs| && !AtBarrier(s.locs[b]) && b != 0
    ensures AckCoupled(s) ==> AckCoupled(LocalStep(s, b))
    ensures PaceCoupled(s) ==> PaceCoupled(LocalStep(s, b))
  {
  }

  lemma LocalStepKeepsControl(s: State, b: nat)
    requires Control(s) && b < |s.locs| && !AtBarrier(s.locs[b])
    ensures Control(LocalStep(s, b))
  {
    var s' := LocalStep(s, b);
    assert PlaceInv(s, b) && PlaceInv(s, 0);
    MoverStaysPlaced(s, b);
    OthersStay(s, s', b);
    if b == 0 {
      LeaderKeepsAcks(s);
      LeaderKeepsPace(s);
    } else {
      FollowerStaysCoupled(s, b);
    }
  }

  // ---------------------------------------------------------------- control: blocks in the barrier

  /** Blocks that did not act keep their place while the same phase lasts. */
  lemma OthersStayInBarrier(s: State, b: nat, c: nat)
    requires Shaped(s) && b < |s.locs| && c < |s.locs| && c != b && AtBarrier(s.locs[b])
    requires !s.bar.pcs[b].CounterReset? && PlaceInv(s, c)
    ensures PlaceInv(BarrierStep(s, b), c)
  {
    var s' := BarrierStep(s, b);
    assert ContextOf(s') == ContextOf(s);
    assert Released(s'.bar, c) == Released(s.bar, c);
  }

  /** Leaving the release site leads into the phase's stretch of code. */
  lemma ReleaseLeadsWithin(c: Ctx, loc: Loc)
    requires IsReleaseSite(c, loc) && PhaseValid(c)
    ensures AtBarrier(loc) && IsWithin(c, AfterBarrier(loc))
  {
  }

  lemma MoverStaysPlacedInBarrier(s: State, b: nat)
    requires Shaped(s) && b < |s.locs| && AtBarrier(s.locs[b]) && !s.bar.pcs[b].CounterReset?
    requires B.Inv(s.bar) && PlaceInv(s, b) && PhaseValid(ContextOf(s))
    ensures PlaceInv(BarrierStep(s, b), b)
  {
    var s' := BarrierStep(s, b);
    assert B.PcConsistent(s.bar, b);
    assert ContextOf(s') == ContextOf(s);
    if Released(s.bar, b) {
      ReleaseLeadsWithin(ContextOf(s), s.locs[b]);
    }
  }

  lemma BarrierMoveKeepsCoupling(s: State, b: nat)
    requires Shaped(s) && b < |s.locs| && AtBarrier(s.locs[b]) && !s.bar.pcs[b].CounterReset?
    requires B.Inv(s.bar) && PlaceInv(s, b) && AckCoupled(s) && PaceCoupled(s)
    ensures AckCoupled(BarrierStep(s, b)) && PaceCoupled(BarrierStep(s, b))
  {
    var s' := BarrierStep(s, b);
    assert B.PcConsistent(s.bar, b);
    assert ContextOf(s') == ContextOf(s);
    assert Acks(s') == Acks(s);
  }

  /** Entering, arriving, resetting and leaving. */
  lemma BarrierMoveKeepsControl(s: State, b: nat)
    requires Control(s) && b < |s.locs| && AtBarrier(s.locs[b]) && !s.bar.pcs[b].CounterReset?
    ensures Control(BarrierStep(s, b))
  {
    B.ActKeepsInv(s.bar, b);
    assert PlaceInv(s, b);
    MoverStaysPlacedInBarrier(s, b);
    BarrierMoveKeepsCoupling(s, b);
    forall c: nat | c < |s.locs| && c != b ensures PlaceInv(BarrierStep(s, b), c) {
      assert PlaceInv(s, c);
      OthersStayInBarrier(s, b, c);
    }
  }

  // ---------------------------------------------------------------- control: publishing a generation

  /** When the last arriver publishes, every block is at the phase's meeting site. */
  lemma EveryoneMeets(s: State, b: nat, c: nat)
    requires Control(s) && b < |s.locs| && c < |s.locs| && s.bar.pcs[b].CounterReset?
    ensures IsMeetingSite(ContextOf(s), s.locs[c]) && !Leaving(ContextOf(s))
    ensures c != b ==> s.bar.pcs[c].Spinning? && s.bar.completed[c] == s.bar.rounds
  {
    B.FullHouse(s.bar);
    assert B.Last(s.bar.pcs[b]);
    assert B.PcConsistent(s.bar, c) && PlaceInv(s, c);
    assert c != b ==> !B.Last(s.bar.pcs[c]);
  }

  /** The meeting site of one phase is the release site of the next. */
  lemma MeetingBecomesRelease(c: Ctx, c': Ctx, loc: Loc)
    requires IsMeetingSite(c, loc) && PhaseValid(c)
    requires c'.phase == NextPhase(c.phase, c.len)
    requires c'.phase.k == c.phase.k ==> c'.last == c.last && c'.next == c.next && c'.len == c.len
    requires c'.phase.k == c.phase.k + 1 ==> c'.last == c.next && c'.prevLen == c.len
    ensures IsReleaseSite(c', loc) && PhaseValid(c')
  {
  }

  lemma PublishKeepsPlaces(s: State, b: nat)
    requires Control(s) && b < |s.locs| && s.bar.pcs[b].CounterReset? && AtBarrier(s.locs[b])
    ensures forall c: nat :: c < |s.locs| ==> PlaceInv(BarrierStep(s, b), c)
    ensures PhaseValid(ContextOf(BarrierStep(s, b)))
  {
    var s' := BarrierStep(s, b);
    EveryoneMeets(s, b, b);
    MeetingBecomesRelease(ContextOf(s), ContextOf(s'), s.locs[b]);
    forall c: nat | c < |s.locs| ensures PlaceInv(s', c) {
      EveryoneMeets(s, b, c);
      MeetingBecomesRelease(ContextOf(s), ContextOf(s'), s.locs[c]);
      ReleaseLeadsWithin(ContextOf(s'), s.locs[c]);
    }
  }

  /** The phase moves on; the host is still at most one batch ahead. */
  lemma PaceAdvances(c: Ctx, published: nat, loc0: Loc, loc0': Loc)
    requires Pace(c.phase, published, c.shut, loc0)
    requires IsMeetingSite(c, loc0) && !Leaving(c)
    requires loc0' == loc0 || loc0' == AfterBarrier(loc0)
    ensures Pace(NextPhase(c.phase, c.len), published, c.shut, loc0')
    ensures AckCount(NextPhase(c.phase, c.len), loc0' == loc0, loc0') == AckCount(c.phase, false, loc0)
  {
  }

  lemma PublishKeepsCoupling(s: State, b: nat)
    requires Control(s) && b < |s.locs| && s.bar.pcs[b].CounterReset? && AtBarrier(s.locs[b])
    ensures AckCoupled(BarrierStep(s, b)) && PaceCoupled(BarrierStep(s, b))
  {
    var s' := BarrierStep(s, b);
    EveryoneMeets(s, b, 0);
    PublishKeepsPlaces(s, b);
    PaceAdvances(ContextOf(s), |s.plan|, s.locs[0], s'.locs[0]);
    assert !Released(s.bar, 0);
    assert Released(s'.bar, 0) == (b != 0);
    assert Acks(s') == Acks(s);
  }

  lemma PublishKeepsControl(s: State, b: nat)
    requires Control(s) && b < |s.locs| && s.bar.pcs[b].CounterReset? && AtBarrier(s.locs[b])
    ensures Control(BarrierStep(s, b))
  {
    B.ActKeepsInv(s.bar, b);
    PublishKeepsPlaces(s, b);
    PublishKeepsCoupling(s, b);
  }

  // ---------------------------------------------------------------- control: the host

  /** A new batch changes nothing for blocks that have not read it yet. */
  lemma NewBatchKeepsPlaces(s: State, s': State, b: nat)
    requires Shaped(s) && Shaped(s') && b < |s.locs| == |s'.locs|
    requires s'.bar == s.bar && s'.locs == s.locs && s'.phase == s.phase
    requires s'.shutdownSeen == s.shutdownSeen && s'.watchdogExit == s.watchdogExit
    requires |s'.plan| == |s.plan| + 1 && s'.plan[..|s.plan|] == s.plan
    requires s.phase.k < |s.plan| || s.phase.Top? || (s.phase.Dispatch? && s.shutdownSeen)
    requires s.phase.k <= |s.plan|
    requires PlaceInv(s, b)
    ensures PlaceInv(s', b)
  {
    var k := s.phase.k;
    assert forall i :: 0 <= i < |s.plan| ==> s'.plan[i] == s.plan[i];
  }

  lemma PublishBatchKeepsControl(s: State)
    requires Control(s) && s.host.BaseWritten?
    ensures Control(HostAct(s))
  {
    var s' := HostAct(s);
    assert PlaceInv(s, 0);
    assert s'.plan[..|s.plan|] == s.plan;
    forall b: nat | b < |s.locs| ensures PlaceInv(s', b) {
      assert PlaceInv(s, b);
      NewBatchKeepsPlaces(s, s', b);
    }
    assert Acks(s') == Acks(s);
  }

  lemma QuietEventKeepsControl(s: State, s': State)
    requires Control(s) && Shaped(s')
    requires s' == s.(queue := s'.queue, host := s'.host, acked := s'.acked, forceExit := s'.forceExit)
    requires s'.queue == s.queue.(inst := s'.queue.inst, num := s'.queue.num, base := s'.queue.base, shutdown := s'.queue.shutdown)
    requires HostPace(s'.host, |s.plan|, s'.acked, Acks(s))
    requires (s'.host.Waiting? || s'.host.GaveUp?) ==> PlanLen(s.plan, s'.acked) == EffectiveNum(s'.queue.num)
    ensures Control(s')
  {
    forall b: nat | b < |s.locs| ensures PlaceInv(s', b) {
      assert PlaceInv(s, b);
    }
    assert Acks(s') == Acks(s);
    assert ContextOf(s') == ContextOf(s);
  }

  /** A wait returns Ok only when every published batch is acknowledged. */
  lemma OkMeansAcknowledged(s: State)
    requires Control(s) && s.host.Waiting? && s.queue.ack == s.seqCounter
    ensures Acks(s) == |s.plan|
  {
  }

  lemma WaitKeepsControl(s: State)
    requires Control(s) && s.host.Waiting?
    ensures Control(HostAct(s))
  {
    if s.queue.ack == s.seqCounter {
      OkMeansAcknowledged(s);
      QuietEventKeepsControl(s, s.(host := Ready, acked := s.acked + 1));
    }
  }

  lemma HostStepKeepsControl(s: State)
    requires Control(s)
    ensures Control(HostAct(s))
  {
    hide PlaceInv, B.Inv;
    match s.host
    case BaseWritten(_) => PublishBatchKeepsControl(s);
    case Waiting => WaitKeepsControl(s);
    case Filling(_, _) => QuietEventKeepsControl(s, HostAct(s));
    case NumWritten(_) => QuietEventKeepsControl(s, HostAct(s));
    case _ =>
  }

  lemma BlockStepKeepsControl(s: State, b: nat)
    requires Control(s) && b < |s.locs|
    ensures Control(BlockAct(s, b))
  {
    if !AtBarrier(s.locs[b]) {
      LocalStepKeepsControl(s, b);
    } else if s.bar.pcs[b].CounterReset? {
      PublishKeepsControl(s, b);
    } else {
      BarrierMoveKeepsControl(s, b);
    }
  }

  // ---------------------------------------------------------------- data: blocks

  /** Where a block is that can read the queue, the host is waiting for this very batch. */
  lemma ReaderSeesTheBatch(s: State, b: nat)
    requires Control(s) && Data(s) && b < |s.locs|
    requires s.locs[b].Fetch? || (s.locs[b].ReadNum? && !s.shutdownSeen)
    ensures s.phase.k == s.acked < |s.plan| && s.plan[s.acked] == QueuePlan(s.queue.inst, s.queue.num, s.queue.base)
    ensures s.locs[b].Fetch? ==> s.phase.Checked? && s.phase.pc < |s.plan[s.acked]| && s.locs[b].job.pc == s.phase.pc
    ensures s.locs[b].Fetch? ==> |s.locs[b].words| < INST_WORDS && !Released(s.bar, b)
  {
    assert PlaceInv(s, b) && PlaceInv(s, 0);
  }

  /** The next fetched word continues the instruction in the buffer. */
  lemma NextWordMatches(inst: seq<Word>, base: nat, pc: nat, words: seq<Word>)
    requires |inst| == BUFFER_WORDS && pc < MAX_BATCH && |words| < INST_WORDS
    requires words <= SlotEntry(inst, base, pc).words
    ensures var got := words + [WordAt(inst, pc, |words|)];
            got <= SlotEntry(inst, base, pc).words && (|got| == INST_WORDS ==> got == SlotEntry(inst, base, pc).words)
  {
  }

  lemma BeforeGrows(plan: seq<seq<Entry>>, k: nat, pc: nat)
    requires k < |plan| && pc < |plan[k]|
    ensures Before(plan, k, pc) + [plan[k][pc]] == Before(plan, k, pc + 1)
  {
  }

  lemma FetchKeepsLog(s: State, b: nat)
    requires Shaped(s) && b < |s.locs| && s.locs[b].Fetch? && LogInv(s, b) && s.phase.Checked?
    requires s.phase.k < |s.plan| && s.phase.pc < |s.plan[s.phase.k]|
    requires s.plan[s.phase.k] == QueuePlan(s.queue.inst, s.queue.num, s.queue.base)
    requires s.locs[b].job.pc == s.phase.pc && |s.locs[b].words| < INST_WORDS
    ensures LogInv(LocalStep(s, b), b)
  {
    var pc := s.phase.pc;
    assert s.plan[s.phase.k][pc] == SlotEntry(s.queue.inst, s.queue.base, pc);
    NextWordMatches(s.queue.inst, s.queue.base, pc, s.locs[b].words);
    BeforeGrows(s.plan, s.phase.k, pc);
  }

  lemma LocalStepKeepsOtherLogs(s: State, b: nat, c: nat)
    requires Shaped(s) && b < |s.locs| && c < |s.locs| && !AtBarrier(s.locs[b])
    requires LogInv(s, c) && (c == b ==> !s.locs[b].Fetch?)
    ensures LogInv(LocalStep(s, b), c)
  {
  }

  lemma LocalStepKeepsData(s: State, b: nat)
    requires Control(s) && Data(s) && b < |s.locs| && !AtBarrier(s.locs[b])
    ensures Data(LocalStep(s, b))
  {
    forall c: nat | c < |s.locs| ensures LogInv(LocalStep(s, b), c) {
      assert LogInv(s, c);
      if c == b && s.locs[b].Fetch? {
        ReaderSeesTheBatch(s, b);
        FetchKeepsLog(s, b);
      } else {
        LocalStepKeepsOtherLogs(s, b, c);
      }
    }
  }

  lemma {:induction false} FlatGrows(plan: seq<seq<Entry>>, k: nat)
    requires k < |plan|
    ensures Flat(plan[..k + 1]) == Flat(plan[..k]) + plan[k]
  {
    assert plan[..k + 1][..k] == plan[..k];
  }

  /** The instruction a block is past when the phase ends is counted as executed in the next. */
  lemma ExecutedCarriesOver(p: Phase, plan: seq<seq<Entry>>)
    requires p.Checked? ==> p.k < |plan| && p.pc < |plan[p.k]|
    ensures Executed(p, plan, true) == Executed(NextPhase(p, PlanLen(plan, p.k)), plan, false)
  {
    if p.Checked? {
      FlatGrows(plan, p.k);
      assert plan[p.k][..|plan[p.k]|] == plan[p.k];
    }
  }

  lemma BarrierStepKeepsData(s: State, b: nat)
    requires Control(s) && Data(s) && b < |s.locs| && AtBarrier(s.locs[b])
    ensures Data(BarrierStep(s, b))
  {
    var s' := BarrierStep(s, b);
    forall c: nat | c < |s.locs| ensures LogInv(s', c) {
      assert LogInv(s, c) && PlaceInv(s, c) && B.PcConsistent(s.bar, c);
      if s.bar.pcs[b].CounterReset? {
        EveryoneMeets(s, b, c);
        ExecutedCarriesOver(s.phase, s.plan);
      }
    }
  }

  // ---------------------------------------------------------------- data: the host

  /** A fully written nonempty batch is exactly what the worker will execute. */
  lemma WrittenBatchIsPlanned(inst: seq<Word>, batch: Batch)
    requires |inst| == BUFFER_WORDS && ValidBatch(batch) && Written(inst, batch, |batch.insts| * INST_WORDS)
    ensures PlannedAs(batch, QueuePlan(inst, |batch.insts|, batch.base))
  {
    var plan := QueuePlan(inst, |batch.insts|, batch.base);
    forall i | 0 <= i < |batch.insts| ensures plan[i] == Stamp(batch)[i] {
      var slot := inst[i * INST_WORDS .. (i + 1) * INST_WORDS];
      forall j | 0 <= j < INST_WORDS ensures slot[j] == batch.insts[i][j] {
        assert slot[j] == inst[i * INST_WORDS + j] == BatchWord(batch, i * INST_WORDS + j);
      }
      assert slot == batch.insts[i];
    }
    assert batch.insts != [] ==> plan == Stamp(batch);
  }

  lemma NewBatchKeepsLog(s: State, s': State, b: nat)
    requires Shaped(s) && Shaped(s') && b < |s.locs| == |s'.locs|
    requires s'.locs == s.locs && s'.logs == s.logs && s'.phase == s.phase && s.phase.k <= |s.plan|
    requires |s'.plan| == |s.plan| + 1 && s'.plan[..|s.plan|] == s.plan
    requires s.phase.Top? || s.phase.Dispatch?
    requires LogInv(s, b)
    ensures LogInv(s', b)
  {
    assert s'.plan[..s.phase.k] == s'.plan[..|s.plan|][..s.phase.k] == s.plan[..s.phase.k];
  }

  lemma PublishBatchKeepsData(s: State)
    requires Control(s) && Data(s) && s.host.BaseWritten?
    ensures Data(HostAct(s))
  {
    var s' := HostAct(s);
    WrittenBatchIsPlanned(s.queue.inst, s.host.batch);
    assert PlaceInv(s, 0);
    assert s'.plan[..|s.plan|] == s.plan;
    forall b: nat | b < |s.locs| ensures LogInv(s', b) {
      assert LogInv(s, b);
      NewBatchKeepsLog(s, s', b);
    }
  }

  /** Events that touch neither plan nor logs only have to account for the buffer. */
  lemma QuietEventKeepsData(s: State, s': State)
    requires Shaped(s) && Data(s) && Shaped(s')
    requires s'.locs == s.locs && s'.logs == s.logs && s'.plan == s.plan && s'.sent == s.sent && s'.phase == s.phase
    requires HostContent(s')
    ensures Data(s')
  {
    forall b: nat | b < |s.locs| ensures LogInv(s', b) {
      assert LogInv(s, b);
    }
  }

  lemma OneMoreWord(inst: seq<Word>, batch: Batch, w: nat)
    requires |inst| == BUFFER_WORDS && ValidBatch(batch) && w < |batch.insts| * INST_WORDS
    requires Written(inst, batch, w)
    ensures Written(inst[w := BatchWord(batch, w)], batch, w + 1)
  {
  }

  lemma WriteKeepsContent(s: State)
    requires Shaped(s) && HostContent(s) && !s.host.BaseWritten?
    ensures HostContent(HostAct(s))
  {
    if s.host.Filling? && s.host.written < |s.host.batch.insts| * INST_WORDS {
      OneMoreWord(s.queue.inst, s.host.batch, s.host.written);
    }
  }

  lemma BlockEventKeepsInv(s: State, b: nat)
    requires Inv(s) && b < |s.locs|
    ensures Inv(BlockAct(s, b))
  {
    hide PlaceInv, LogInv, HostContent, AckCoupled, PaceCoupled, PlanMatches, B.Inv;
    BlockStepKeepsControl(s, b);
    if AtBarrier(s.locs[b]) {
      BarrierStepKeepsData(s, b);
    } else {
      LocalStepKeepsData(s, b);
    }
  }

  lemma HostEventKeepsInv(s: State)
    requires Inv(s)
    ensures Inv(HostAct(s))
  {
    hide PlaceInv, LogInv, HostContent, AckCoupled, PaceCoupled, PlanMatches, B.Inv;
    HostStepKeepsControl(s);
    if s.host.BaseWritten? {
      PublishBatchKeepsData(s);
    } else {
      WriteKeepsContent(s);
      QuietEventKeepsData(s, HostAct(s));
    }
  }

  lemma OutsideEventKeepsInv(s: State, e: Event)
    requires Inv(s) && Enabled(s, e) && !e.BlockStep? && !e.HostStep?
    ensures Inv(Apply(s, e))
  {
    hide PlaceInv, LogInv, PlanMatches, PaceCoupled, B.Inv;
    QuietEventKeepsControl(s, Apply(s, e));
    QuietEventKeepsData(s, Apply(s, e));
  }

  lemma EventKeepsInv(s: State, e: Event)
    requires Inv(s) && Enabled(s, e)
    ensures Inv(Apply(s, e))
  {
    match e
    case BlockStep(b) => BlockEventKeepsInv(s, b);
    case HostStep => HostEventKeepsInv(s);
    case _ => OutsideEventKeepsInv(s, e);
  }

  lemma InitHasInv(s: State, n: nat)
    requires Init(s, n) && !s.late
    ensures Inv(s)
  {
    B.StartInv(n);
  }

  lemma {:induction false} RunKeepsInv(s: State, events: seq<Event>)
    requires Inv(s) && CanRun(s, events)
    ensures Inv(RunEvents(s, events))
    decreases events
  {
    if events != [] {
      EventKeepsInv(s, events[0]);
      RunKeepsInv(Apply(s, events[0]), events[1..]);
    }
  }

  // ---------------------------------------------------------------- theorems over whole runs

  lemma {:induction false} FlatPrefix(plan: seq<seq<Entry>>, i: nat, k: nat)
    requires i <= k <= |plan|
    ensures Flat(plan[..i]) <= Flat(plan[..k])
  {
    if i < k {
      FlatPrefix(plan, i, k - 1);
      FlatGrows(plan, k - 1);
    }
  }

  lemma PrefixWithin(start: seq<Entry>, done: seq<Entry>, batch: seq<Entry>, j: nat, all: seq<Entry>)
    requires start <= done && j <= |batch| && done + batch <= all
    ensures start <= done + batch[..j] <= all
  {
  }

  lemma BeforeLiesBetween(plan: seq<seq<Entry>>, i: nat, k: nat, j: nat)
    requires i <= k <= |plan| && (j > 0 ==> k < |plan| && j <= |plan[k]|)
    ensures Flat(plan[..i]) <= Before(plan, k, j) <= Flat(plan)
  {
    hide Flat;
    assert plan[..|plan|] == plan;
    FlatPrefix(plan, i, k);
    if j > 0 {
      FlatGrows(plan, k);
      FlatPrefix(plan, k + 1, |plan|);
      PrefixWithin(Flat(plan[..i]), Flat(plan[..k]), plan[k], j, Flat(plan));
    } else {
      FlatPrefix(plan, k, |plan|);
    }
  }

  lemma LogLiesBetween(s: State, b: nat)
    requires Inv(s) && b < |s.locs|
    ensures s.acked <= s.phase.k && s.acked <= |s.plan| <= s.acked + 1
    ensures Flat(s.plan[..s.acked]) <= s.logs[b] <= Flat(s.plan)
  {
    hide HostContent, PlanMatches, B.Inv, Flat;
    assert PlaceInv(s, b) && LogInv(s, b) && PlaceInv(s, 0);
    var j := match s.phase
      case Checked(k, pc) => (if Past(s.phase, s.locs[b]) then pc + 1 else pc)
      case Between(k, pc) => pc + 1
      case _ => 0;
    BeforeLiesBetween(s.plan, s.acked, s.phase.k, j);
  }

  /**
   Over every run, every block has executed exactly a prefix of what the host published, in
   order and word for word, and at least everything the host has been told is done; what was
   planned for a batch is the batch itself unless it was empty; and no more than one batch
   is in flight.
   */
  lemma BlocksExecuteTheHostsBatches(s0: State, n: nat, events: seq<Event>, b: nat)
    requires Init(s0, n) && !s0.late && CanRun(s0, events) && b < n
    ensures var s := RunEvents(s0, events);
            && |s.logs| == n && s.acked <= |s.plan| <= s.acked + 1
            && Flat(s.plan[..s.acked]) <= s.logs[b] <= Flat(s.plan)
            && PlanMatches(s.sent, s.plan)
  {
    InitHasInv(s0, n);
    RunKeepsInv(s0, events);
    RunKeepsBlocks(s0, events);
    LogLiesBetween(RunEvents(s0, events), b);
  }

  lemma {:induction false} RunKeepsBlocks(s: State, events: seq<Event>)
    requires Shaped(s) && CanRun(s, events)
    ensures |RunEvents(s, events).locs| == |s.locs|
    decreases events
  {
    if events != [] {
      RunKeepsBlocks(Apply(s, events[0]), events[1..]);
    }
  }

  /** At the moment a wait returns Ok, every block has executed every published instruction. */
  lemma OkAfterEveryBlockExecuted(s: State, b: nat)
    requires Inv(s) && b < |s.locs| && s.host.Waiting? && HostAct(s).host.Ready?
    ensures s.logs[b] == Flat(s.plan)
  {
    OkMeansAcknowledged(s);
    assert PlaceInv(s, b) && LogInv(s, b) && PlaceInv(s, 0);
    assert s.plan[..|s.plan|] == s.plan;
  }

  /** Over every run, a wait returns Ok only after every block has executed everything published so far. */
  lemma OkOnlyAfterExecution(s0: State, n: nat, events: seq<Event>, b: nat)
    requires Init(s0, n) && !s0.late && CanRun(s0, events) && b < n
    requires RunEvents(s0, events).host.Waiting? && HostAct(RunEvents(s0, events)).host.Ready?
    ensures var s := RunEvents(s0, events);
            |s.logs| == n && s.logs[b] == Flat(s.plan) && PlanMatches(s.sent, s.plan)
  {
    InitHasInv(s0, n);
    RunKeepsInv(s0, events);
    RunKeepsBlocks(s0, events);
    OkAfterEveryBlockExecuted(RunEvents(s0, events), b);
  }

  /** A batch as the host meant it is executed exactly when it is not empty. */
  lemma PlannedAsSentIffNonempty(s: State, i: nat)
    requires Inv(s) && i < |s.sent|
    ensures |s.sent| == |s.plan|
    ensures s.plan[i] == Stamp(s.sent[i]) <==> s.sent[i].insts != []
  {
  }

  predicate HasJob(loc: Loc) {
    loc.WatchdogPoll? || loc.WatchdogBarrier? || loc.CheckWatchdog? || loc.Fetch? || loc.OpBarrier?
  }

  /** All blocks that run a batch took the same sequence number and length from the queue. */
  lemma BlocksAgreeOnTheBatch(s: State, b: nat, c: nat)
    requires Inv(s) && b < |s.locs| && c < |s.locs| && HasJob(s.locs[b]) && HasJob(s.locs[c])
    ensures s.locs[b].job.seqNum == s.locs[c].job.seqNum && s.locs[b].job.num == s.locs[c].job.num
    ensures -1 <= s.locs[b].job.pc - s.locs[c].job.pc <= 1
  {
    assert PlaceInv(s, b) && PlaceInv(s, c);
  }

  /** No run gets an Ok for more than 0xFFFFFFFE dispatches: the next one is never noticed. */
  lemma WrappedDispatchIsNeverAcknowledged(s0: State, n: nat, events: seq<Event>)
    requires Init(s0, n) && !s0.late && CanRun(s0, events)
    ensures RunEvents(s0, events).acked <= LAST_SEQ
  {
    InitHasInv(s0, n);
    RunKeepsInv(s0, events);
  }

  // ---------------------------------------------------------------- exit

  /** Reads the exit flag next. */
  predicate AtCheck(loc: Loc) {
    loc.CheckShutdown? || loc.CheckWatchdog?
  }

  /**
   Once one block has taken the shutdown or watchdog exit, every other block has taken it
   too, is about to read the same flag, or has been released from the barrier in front of
   that check: none is left waiting in a barrier, and all have executed the same.
   */
  lemma ExitAgreement(s: State, b: nat, c: nat)
    requires Inv(s) && b < |s.locs| && c < |s.locs| && s.locs[b].Exited?
    ensures Leaving(ContextOf(s))
    ensures s.locs[c].Exited? || AtCheck(s.locs[c]) || (Released(s.bar, c) && AtBarrier(s.locs[c]) && AtCheck(AfterBarrier(s.locs[c])))
    ensures !B.Blocked(s.bar, c)
    ensures s.logs[c] == s.logs[b]
  {
    assert PlaceInv(s, b) && PlaceInv(s, c) && LogInv(s, b) && LogInv(s, c) && B.PcConsistent(s.bar, c);
  }

  /** Over every run: when one block has exited, no block is blocked in a barrier and all executed the same. */
  lemma NoBlockIsLeftBehind(s0: State, n: nat, events: seq<Event>, b: nat, c: nat)
    requires Init(s0, n) && !s0.late && CanRun(s0, events) && b < n && c < n
    ensures var s := RunEvents(s0, events);
            && |s.locs| == n
            && (s.locs[b].Exited? ==>
                  && s.logs[c] == s.logs[b] && !B.Blocked(s.bar, c)
                  && (s.locs[c].Exited? || AtCheck(s.locs[c]) || (Released(s.bar, c) && AtBarrier(s.locs[c]) && AtCheck(AfterBarrier(s.locs[c])))))
  {
    InitHasInv(s0, n);
    RunKeepsInv(s0, events);
    RunKeepsBlocks(s0, events);
    if RunEvents(s0, events).locs[b].Exited? {
      ExitAgreement(RunEvents(s0, events), b, c);
    }
  }

  function ExitWork(s: State, upto: nat): nat
    requires Shaped(s) && upto <= |s.locs|
  {
    if upto == 0 then 0 else
    ExitWork(s, upto - 1) +
    (if s.locs[upto - 1].Exited? then 0 else if AtCheck(s.locs[upto - 1]) then 1 else 2)
  }

  lemma {:induction false} ExitWorkFalls(s: State, s': State, c: nat, upto: nat)
    requires Shaped(s) && Shaped(s') && |s.locs| == |s'.locs| && c < upto <= |s.locs|
    requires forall d: nat :: d < |s.locs| && d != c ==> s'.locs[d] == s.locs[d]
    requires (s'.locs[c].Exited? && !s.locs[c].Exited?) || (AtCheck(s'.locs[c]) && !AtCheck(s.locs[c]) && !s.locs[c].Exited?)
    ensures ExitWork(s', upto) < ExitWork(s, upto)
  {
    if upto - 1 != c {
      ExitWorkFalls(s, s', c, upto - 1);
    } else {
      ExitWorkSame(s, s', upto - 1);
    }
  }

  lemma {:induction false} ExitWorkSame(s: State, s': State, upto: nat)
    requires Shaped(s) && Shaped(s') && |s.locs| == |s'.locs| && upto <= |s.locs|
    requires forall d: nat :: d < upto ==> s'.locs[d] == s.locs[d]
    ensures ExitWork(s', upto) == ExitWork(s, upto)
  {
    if upto > 0 {
      ExitWorkSame(s, s', upto - 1);
    }
  }

  lemma ExitStep(s: State, b: nat, c: nat)
    requires Inv(s) && b < |s.locs| && c < |s.locs| && s.locs[b].Exited? && !s.locs[c].Exited?
    ensures var s' := BlockAct(s, c); s'.locs[b].Exited? && ExitWork(s', |s.locs|) < ExitWork(s, |s.locs|)
  {
    hide LogInv, HostContent, PlanMatches, AckCoupled, PaceCoupled, B.PcConsistent, ExitWork;
    ExitAgreement(s, b, c);
    var s' := BlockAct(s, c);
    assert PlaceInv(s, c);
    assert AtCheck(s.locs[c]) ==> s'.locs[c].Exited?;
    assert !AtCheck(s.locs[c]) ==> s'.locs[c] == AfterBarrier(s.locs[c]);
    ExitWorkFalls(s, s', c, |s.locs|);
  }

  /** Nobody is left behind: after one exit the others can all follow, by their own steps alone. */
  lemma {:induction false} EveryBlockExits(s: State, b: nat) returns (events: seq<Event>)
    requires Inv(s) && b < |s.locs| && s.locs[b].Exited?
    ensures CanRun(s, events) && |events| <= ExitWork(s, |s.locs|)
    ensures var r := RunEvents(s, events); |r.locs| == |s.locs| && forall c: nat :: c < |r.locs| ==> r.locs[c].Exited?
    decreases ExitWork(s, |s.locs|)
  {
    if forall c: nat :: c < |s.locs| ==> s.locs[c].Exited? {
      events := [];
    } else {
      var c: nat :| c < |s.locs| && !s.locs[c].Exited?;
      ExitStep(s, b, c);
      BlockEventKeepsInv(s, c);
      var rest := EveryBlockExits(BlockAct(s, c), b);
      events := [BlockStep(c)] + rest;
      assert events[1..] == rest;
    }
  }
}
