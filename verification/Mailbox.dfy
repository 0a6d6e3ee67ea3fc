/**
 The host mailbox and the persistent worker that serves it: the host writes a batch of
 instructions word by word, then its length, its program base and a new sequence number;
 block 0 polls, all blocks meet at a grid barrier, read the batch, execute it with a
 watchdog check before and a grid barrier after each instruction, and block 0 acknowledges.

 Every shared access is one event; a run is any sequence of events of the blocks, of the
 dispatching host thread, of whoever requests shutdown and of the watchdog thread.

 `sent`, `plan`, `logs`, `acked` and `phase` are history values that no event reads for its
 effect on the shared words: the batches the host published, what the queue then held, the
 instructions each block has executed, the number of waits that returned Ok, and the site
 of the last published barrier.
 */
module Mailbox {
  import B = GridBarrier
  import opened Words

  const MAX_BATCH: nat := 256
  const INST_WORDS: nat := 19
  const BUFFER_WORDS: nat := 4864
  const LAST_SEQ: nat := 0xFFFF_FFFE
  const SHUTDOWN_SEQ: nat := 0xFFFF_FFFF

  type Word = nat

  /** A batch of instructions and the index of its first instruction in the whole program. */
  datatype Batch = Batch(insts: seq<seq<Word>>, base: nat)

  /** One executed instruction: its words and the program index the trace records for it. */
  datatype Entry = Entry(words: seq<Word>, index: nat)

  datatype Queue = Queue(
    seqNum: nat, num: nat, base: nat, inst: seq<Word>, ack: nat, shutdown: bool, done: bool)

  datatype Host =
    | Ready
    | Filling(batch: Batch, written: nat)
    | NumWritten(batch: Batch)
    | BaseWritten(batch: Batch)
    | Waiting
    | GaveUp

  /** What a block remembers of the batch it runs. */
  datatype Job = Job(seqNum: nat, num: nat, pc: nat)

  datatype Loc =
    | Poll(last: nat)
    | PollSeq(last: nat)
    | LateAck(last: nat)
    | PollBarrier(last: nat)
    | CheckShutdown(last: nat)
    | ReadSeq(last: nat)
    | ReadNum(seqNum: nat)
    | WatchdogPoll(job: Job)
    | WatchdogBarrier(job: Job)
    | CheckWatchdog(job: Job)
    | Fetch(job: Job, words: seq<Word>)
    | OpBarrier(job: Job)
    | Ack(seqNum: nat)
    | Exited

  /** The last barrier all blocks were released from, and so the stretch of code they are in. */
  datatype Phase =
    | Top(k: nat)                   // last op of batch k-1, or nothing yet: acknowledge, poll
    | Dispatch(k: nat)              // poll barrier of batch k: read the queue
    | Checked(k: nat, pc: nat)      // watchdog barrier before instruction pc: execute it
    | Between(k: nat, pc: nat)      // barrier after instruction pc, which was not the last

  datatype State = State(
    late: bool,
    bar: B.State,
    queue: Queue,
    forceExit: bool,
    shutdownSeen: bool,
    watchdogExit: bool,
    host: Host,
    seqCounter: nat,
    locs: seq<Loc>,
    logs: seq<seq<Entry>>,
    sent: seq<Batch>,
    plan: seq<seq<Entry>>,
    acked: nat,
    phase: Phase)

  datatype Event =
    | BlockStep(b: nat)
    | HostStart(batch: Batch)
    | HostStep
    | HostGivesUp
    | RequestShutdown
    | ForceExit

  // ---------------------------------------------------------------- shared words

  /** The host's next sequence number: 0 is the initial ack, 0xFFFFFFFF means shutdown. */
  function NextSeq(c: nat): nat {
    var s := (c + 1) % TWO_32;
    if s == 0 || s == SHUTDOWN_SEQ then 1 else s
  }

  /** The sequence number of the k-th batch, counting from one. */
  function SeqOf(k: nat): nat {
    if k == 0 then 0 else NextSeq(SeqOf(k - 1))
  }

  predicate ValidBatch(batch: Batch) {
    && |batch.insts| <= MAX_BATCH
    && batch.base < TWO_32
    && forall i :: 0 <= i < |batch.insts| ==> |batch.insts[i]| == INST_WORDS
  }

  /** The worker reads an announced length of zero as one. */
  function EffectiveNum(num: nat): nat {
    if num == 0 then 1 else num
  }

  /** What a worker that reads slot `i` of the buffer would execute. */
  function SlotEntry(inst: seq<Word>, base: nat, i: nat): Entry
    requires i < MAX_BATCH && |inst| == BUFFER_WORDS
  {
    Entry(inst[i * INST_WORDS .. (i + 1) * INST_WORDS], (i + base) % TWO_32)
  }

  /** What a worker that reads the queue would execute. */
  function QueuePlan(inst: seq<Word>, num: nat, base: nat): seq<Entry>
    requires num <= MAX_BATCH && |inst| == BUFFER_WORDS
  {
    seq(EffectiveNum(num), i requires 0 <= i < EffectiveNum(num) => SlotEntry(inst, base, i))
  }

  /** The batch as the host means it: each instruction with its index in the program. */
  function Stamp(batch: Batch): seq<Entry> {
    seq(|batch.insts|, i requires 0 <= i < |batch.insts| => Entry(batch.insts[i], (i + batch.base) % TWO_32))
  }

  function BatchWord(batch: Batch, w: nat): Word
    requires ValidBatch(batch) && w < |batch.insts| * INST_WORDS
  {
    batch.insts[w / INST_WORDS][w % INST_WORDS]
  }

  function Flat(plan: seq<seq<Entry>>): seq<Entry> {
    if plan == [] then [] else Flat(plan[..|plan| - 1]) + plan[|plan| - 1]
  }

  // ---------------------------------------------------------------- events

  predicate Shaped(s: State) {
    && B.WellShaped(s.bar)
    && |s.locs| == |s.bar.pcs|
    && |s.logs| == |s.bar.pcs|
    && |s.queue.inst| == BUFFER_WORDS
    && s.queue.num <= MAX_BATCH
    && (s.host.Filling? ==> ValidBatch(s.host.batch) && s.host.written <= |s.host.batch.insts| * INST_WORDS)
    && (s.host.NumWritten? || s.host.BaseWritten? ==> ValidBatch(s.host.batch))
  }

  predicate AtBarrier(loc: Loc) {
    loc.PollBarrier? || loc.WatchdogBarrier? || loc.OpBarrier?
  }

  /** Where a block goes on leaving the barrier it is in. */
  function AfterBarrier(loc: Loc): Loc
    requires AtBarrier(loc)
  {
    match loc
    case PollBarrier(l) => CheckShutdown(l)
    case WatchdogBarrier(j) => CheckWatchdog(j)
    case OpBarrier(j) => if j.pc + 1 < j.num then WatchdogPoll(j.(pc := j.pc + 1)) else Ack(j.seqNum)
  }

  /** Length of planned batch `k`, zero when there is none yet. */
  function PlanLen(plan: seq<seq<Entry>>, k: nat): nat {
    if k < |plan| then |plan[k]| else 0
  }

  function NextPhase(p: Phase, len: nat): Phase {
    match p
    case Top(k) => Dispatch(k)
    case Dispatch(k) => Checked(k, 0)
    case Checked(k, pc) => if pc + 1 < len then Between(k, pc) else Top(k + 1)
    case Between(k, pc) => Checked(k, pc + 1)
  }

  function BarrierStep(s: State, b: nat): (r: State)
    requires Shaped(s) && b < |s.locs| && AtBarrier(s.locs[b])
    ensures Shaped(r) && |r.locs| == |s.locs|
  {
    var bar := B.Act(s.bar, b);
    var left := !s.bar.pcs[b].Outside? && bar.pcs[b].Outside?;
    s.(bar := bar,
       locs := if left then s.locs[b := AfterBarrier(s.locs[b])] else s.locs,
       phase := if s.bar.pcs[b].CounterReset? then NextPhase(s.phase, PlanLen(s.plan, s.phase.k)) else s.phase)
  }

  /** After the inner poll; the late variant acknowledges the previous batch here. */
  function AfterPoll(late: bool, last: nat): Loc {
    if late then LateAck(last) else PollBarrier(last)
  }

  /** Where a block goes next outside the barrier; only the leader, block 0, polls. */
  function NextLoc(late: bool, leader: bool, q: Queue, shut: bool, fired: bool, loc: Loc): Loc
    requires |q.inst| == BUFFER_WORDS
  {
    match loc
    case Poll(l) =>
      if !leader then PollBarrier(l) else if q.shutdown then AfterPoll(late, l) else PollSeq(l)
    case PollSeq(l) => if q.seqNum > l then AfterPoll(late, l) else Poll(l)
    case LateAck(l) => PollBarrier(l)
    case CheckShutdown(l) => if shut then Exited else ReadSeq(l)
    case ReadSeq(l) => ReadNum(q.seqNum)
    case ReadNum(n) => WatchdogPoll(Job(n, EffectiveNum(q.num), 0))
    case WatchdogPoll(j) => WatchdogBarrier(j)
    case CheckWatchdog(j) => if fired then Exited else Fetch(j, [])
    case Fetch(j, words) => if |words| + 1 < INST_WORDS then Fetch(j, words + [WordAt(q.inst, j.pc, |words|)]) else OpBarrier(j)
    case Ack(n) => Poll(n)
    case _ => loc
  }

  /** Word `w` of instruction `pc`; a program counter past the buffer reads nothing. */
  function WordAt(inst: seq<Word>, pc: nat, w: nat): Word
    requires |inst| == BUFFER_WORDS
  {
    if pc < MAX_BATCH && w < INST_WORDS then inst[pc * INST_WORDS + w] else 0
  }

  /** What the action of the leader at `loc` does to the shared words. */
  function LeaderEffect(s: State, loc: Loc): (r: State)
    ensures r == s.(queue := r.queue, shutdownSeen := r.shutdownSeen, watchdogExit := r.watchdogExit)
    ensures r.queue == s.queue.(seqNum := r.queue.seqNum, ack := r.queue.ack, done := r.queue.done)
  {
    match loc
    case Poll(l) => if s.queue.shutdown then s.(shutdownSeen := true) else s
    case LateAck(l) => s.(queue := s.queue.(ack := l))
    case CheckShutdown(l) =>
      if s.shutdownSeen then s.(queue := s.queue.(seqNum := SHUTDOWN_SEQ, done := true)) else s
    case WatchdogPoll(j) => s.(watchdogExit := s.forceExit)
    case Ack(n) => if s.late then s else s.(queue := s.queue.(ack := n))
    case _ => s
  }

  /** A block executes an instruction when it has fetched its last word. */
  function NextLog(q: Queue, loc: Loc, log: seq<Entry>): seq<Entry>
    requires |q.inst| == BUFFER_WORDS
  {
    if loc.Fetch? && |loc.words| + 1 >= INST_WORDS then
      log + [Entry(loc.words + [WordAt(q.inst, loc.job.pc, |loc.words|)], (loc.job.pc + q.base) % TWO_32)]
    else
      log
  }

  /** One action of block `b` outside the barrier. */
  function LocalStep(s: State, b: nat): (r: State)
    requires Shaped(s) && b < |s.locs| && !AtBarrier(s.locs[b])
    ensures Shaped(r) && |r.locs| == |s.locs|
  {
    var t := if b == 0 then LeaderEffect(s, s.locs[b]) else s;
    t.(locs := s.locs[b := NextLoc(s.late, b == 0, s.queue, s.shutdownSeen, s.watchdogExit, s.locs[b])],
       logs := s.logs[b := NextLog(s.queue, s.locs[b], s.logs[b])])
  }

  function BlockAct(s: State, b: nat): (r: State)
    requires Shaped(s) && b < |s.locs|
    ensures Shaped(r) && |r.locs| == |s.locs|
  {
    if AtBarrier(s.locs[b]) then BarrierStep(s, b) else LocalStep(s, b)
  }

  /** One action of the dispatching thread: write a word, a field, or look at the ack. */
  function HostAct(s: State): (r: State)
    requires Shaped(s)
    ensures Shaped(r) && |r.locs| == |s.locs|
  {
    match s.host
    case Filling(batch, w) =>
      if w < |batch.insts| * INST_WORDS then
        s.(queue := s.queue.(inst := s.queue.inst[w := BatchWord(batch, w)]), host := Filling(batch, w + 1))
      else
        s.(queue := s.queue.(num := |batch.insts|), host := NumWritten(batch))
    case NumWritten(batch) =>
      s.(queue := s.queue.(base := batch.base), host := BaseWritten(batch))
    case BaseWritten(batch) =>
      var c := NextSeq(s.seqCounter);
      s.(queue := s.queue.(seqNum := c), seqCounter := c, host := Waiting,
         sent := s.sent + [batch], plan := s.plan + [QueuePlan(s.queue.inst, s.queue.num, s.queue.base)])
    case Waiting =>
      if s.queue.ack == s.seqCounter then s.(host := Ready, acked := s.acked + 1) else s
    case _ => s
  }

  predicate Enabled(s: State, e: Event)
    requires Shaped(s)
  {
    match e
    case BlockStep(b) => b < |s.locs|
    case HostStart(batch) => s.host.Ready? && ValidBatch(batch)
    case HostGivesUp => s.host.Waiting?
    case _ => true
  }

  function Apply(s: State, e: Event): (r: State)
    requires Shaped(s) && Enabled(s, e)
    ensures Shaped(r) && |r.locs| == |s.locs|
  {
    match e
    case BlockStep(b) => BlockAct(s, b)
    case HostStart(batch) => s.(host := Filling(batch, 0))
    case HostStep => HostAct(s)
    case HostGivesUp => s.(host := GaveUp)
    case RequestShutdown => s.(queue := s.queue.(shutdown := true))
    case ForceExit => s.(forceExit := true)
  }

  /** `n` blocks before their first poll and a zeroed queue with any buffer contents. */
  predicate Init(s: State, n: nat) {
    && 0 < n < TWO_32
    && Shaped(s)
    && s.bar == B.Start(n)
    && s.queue.seqNum == 0 && s.queue.ack == 0 && s.seqCounter == 0
    && !s.shutdownSeen && !s.watchdogExit
    && s.host == Ready && s.acked == 0 && s.sent == [] && s.plan == []
    && s.phase == Top(0)
    && (forall b :: 0 <= b < n ==> s.locs[b] == Poll(0) && s.logs[b] == [])
  }

  /** `events` can happen one after another from `s`. */
  predicate CanRun(s: State, events: seq<Event>)
    requires Shaped(s)
    decreases events
  {
    events == [] || (Enabled(s, events[0]) && CanRun(Apply(s, events[0]), events[1..]))
  }

  function RunEvents(s: State, events: seq<Event>): (r: State)
    requires Shaped(s) && CanRun(s, events)
    ensures Shaped(r)
    decreases events
  {
    if events == [] then s else RunEvents(Apply(s, events[0]), events[1..])
  }

  // ---------------------------------------------------------------- sequence numbers

  lemma {:induction false} SeqOfSmall(k: nat)
    requires k <= LAST_SEQ
    ensures SeqOf(k) == k
  {
    if k > 0 {
      SeqOfSmall(k - 1);
      assert SeqOf(k) == NextSeq(k - 1);
    }
  }

  /** The k-th number: counting from 1 to 0xFFFFFFFE and round again, never the initial ack or the shutdown number. */
  lemma {:induction false} SeqOfIs(k: nat)
    requires k > 0
    ensures SeqOf(k) == (k - 1) % 0xFFFF_FFFE + 1
  {
    if k > 1 {
      SeqOfIs(k - 1);
      NextInTurn(k - 2);
    }
  }

  lemma NextInTurn(j: nat)
    ensures (j + 1) % 0xFFFF_FFFE == if j % 0xFFFF_FFFE == 0xFFFF_FFFD then 0 else j % 0xFFFF_FFFE + 1
  {
  }

  /**
   A worker that has served k batches notices batch k + 1 exactly when the host's counter has
   not wrapped: for k below 0xFFFFFFFE yes, for k equal to it no.
   */
  lemma NewBatchIsNoticed(k: nat)
    requires k <= LAST_SEQ
    ensures SeqOf(k + 1) != SeqOf(k)
    ensures SeqOf(k + 1) > SeqOf(k) <==> k < LAST_SEQ
  {
    SeqOfSmall(k);
    if k < LAST_SEQ {
      SeqOfSmall(k + 1);
    }
  }

  // ---------------------------------------------------------------- invariant: control

  /** The numbers the place of a block is described with. */
  datatype Ctx = Ctx(phase: Phase, last: nat, next: nat, len: nat, prevLen: nat, shut: bool, fired: bool)

  function ContextOf(s: State): Ctx {
    var k := s.phase.k;
    Ctx(s.phase, SeqOf(k), SeqOf(k + 1), PlanLen(s.plan, k), if k == 0 then 0 else PlanLen(s.plan, k - 1),
        s.shutdownSeen, s.watchdogExit)
  }

  /** The phase names an existing batch and instruction. */
  predicate PhaseValid(c: Ctx) {
    match c.phase
    case Top(k) => k > 0 ==> c.prevLen > 0
    case Dispatch(k) => true
    case Checked(k, pc) => pc < c.len
    case Between(k, pc) => pc + 1 < c.len
  }

  /** The barrier all blocks were released from when the phase began. */
  predicate IsReleaseSite(c: Ctx, loc: Loc) {
    match c.phase
    case Top(k) => k > 0 && c.prevLen > 0 && loc == OpBarrier(Job(c.last, c.prevLen, c.prevLen - 1))
    case Dispatch(k) => loc == PollBarrier(c.last)
    case Checked(k, pc) => loc == WatchdogBarrier(Job(c.next, c.len, pc))
    case Between(k, pc) => loc == OpBarrier(Job(c.next, c.len, pc))
  }

  /** The barrier all blocks meet at when the phase ends. */
  predicate IsMeetingSite(c: Ctx, loc: Loc) {
    match c.phase
    case Top(k) => loc == PollBarrier(c.last)
    case Dispatch(k) => c.len > 0 && loc == WatchdogBarrier(Job(c.next, c.len, 0))
    case Checked(k, pc) => loc == OpBarrier(Job(c.next, c.len, pc))
    case Between(k, pc) => loc == WatchdogBarrier(Job(c.next, c.len, pc + 1))
  }

  /** A block may not leave the phase once its exit flag is up. */
  predicate Leaving(c: Ctx) {
    (c.phase.Dispatch? && c.shut) || (c.phase.Checked? && c.fired)
  }

  /** Locations of the phase's stretch of code that are not barriers. */
  predicate IsWithin(c: Ctx, loc: Loc) {
    match c.phase
    case Top(k) =>
      loc == Poll(c.last) || loc == PollSeq(c.last) || (k > 0 && loc == Ack(c.last))
    case Dispatch(k) =>
      || loc == CheckShutdown(c.last)
      || (c.shut && loc == Exited)
      || (!c.shut && (loc == ReadSeq(c.last) || loc == ReadNum(c.next)))
      || (!c.shut && c.len > 0 && loc == WatchdogPoll(Job(c.next, c.len, 0)))
    case Checked(k, pc) =>
      || loc == CheckWatchdog(Job(c.next, c.len, pc))
      || (c.fired && loc == Exited)
      || (!c.fired && loc.Fetch? && loc.job == Job(c.next, c.len, pc) && |loc.words| < INST_WORDS)
    case Between(k, pc) =>
      loc == WatchdogPoll(Job(c.next, c.len, pc + 1))
  }

  predicate Placed(c: Ctx, released: bool, outside: bool, loc: Loc) {
    if released then IsReleaseSite(c, loc)
    else (outside && IsWithin(c, loc)) || (IsMeetingSite(c, loc) && !Leaving(c))
  }

  predicate Released(bar: B.State, b: nat)
    requires B.WellShaped(bar) && b < |bar.pcs|
  {
    bar.pcs[b].Spinning? && bar.completed[b] < bar.rounds
  }

  predicate PlaceInv(s: State, b: nat)
    requires Shaped(s) && b < |s.locs|
  {
    && Placed(ContextOf(s), Released(s.bar, b), s.bar.pcs[b].Outside?, s.locs[b])
    && (s.locs[b].PollSeq? ==> b == 0)
  }

  /** Batches acknowledged so far, read off the place of block 0. */
  function AckCount(p: Phase, released0: bool, loc0: Loc): nat {
    if p.Top? && p.k > 0 && (released0 || loc0.Ack?) then p.k - 1 else p.k
  }

  function Acks(s: State): nat
    requires Shaped(s)
  {
    AckCount(s.phase, Released(s.bar, 0), s.locs[0])
  }

  /** How far the host can be ahead of the worker. */
  predicate Pace(p: Phase, published: nat, shut: bool, loc0: Loc) {
    && p.k <= published <= p.k + 1
    && p.k <= LAST_SEQ
    && (p.Top? && loc0.PollBarrier? && !shut ==> published == p.k + 1 && p.k < LAST_SEQ)
    && (p.Dispatch? && !shut ==> published == p.k + 1 && p.k < LAST_SEQ)
    && (p.Checked? || p.Between? ==> published == p.k + 1 && p.k < LAST_SEQ && !shut)
    && (p.Top? && shut ==> loc0.PollBarrier?)
  }

  /** Where the host stands relative to the acknowledgements. */
  predicate HostPace(h: Host, published: nat, acked: nat, acks: nat) {
    if h.Waiting? || h.GaveUp? then published == acked + 1 && acked <= acks <= acked + 1
    else published == acked == acks
  }

  predicate AckCoupled(s: State)
    requires Shaped(s)
  {
    && s.seqCounter == SeqOf(|s.plan|)
    && s.queue.ack == SeqOf(Acks(s))
    && HostPace(s.host, |s.plan|, s.acked, Acks(s))
    && ((s.host.Waiting? || s.host.GaveUp?) ==> PlanLen(s.plan, s.acked) == EffectiveNum(s.queue.num))
  }

  predicate PaceCoupled(s: State)
    requires Shaped(s)
  {
    && Pace(s.phase, |s.plan|, s.shutdownSeen, s.locs[0])
    && ((s.phase.Dispatch? && s.shutdownSeen) || s.queue.seqNum == s.seqCounter)
    && PhaseValid(ContextOf(s))
  }

  ghost predicate Control(s: State) {
    && Shaped(s) && !s.late
    && B.Inv(s.bar)
    && (forall b: nat :: b < |s.locs| ==> PlaceInv(s, b))
    && AckCoupled(s) && PaceCoupled(s)
  }

  // ---------------------------------------------------------------- invariant: data

  /** Instructions of the first k planned batches and the first j of batch k. */
  function Before(plan: seq<seq<Entry>>, k: nat, j: nat): seq<Entry> {
    if k > |plan| then []
    else if j == 0 || k == |plan| || j > |plan[k]| then Flat(plan[..k])
    else Flat(plan[..k]) + plan[k][..j]
  }

  /** What a block has executed, given its phase and whether it is past the phase's instruction. */
  function Executed(p: Phase, plan: seq<seq<Entry>>, past: bool): seq<Entry> {
    match p
    case Top(k) => Before(plan, k, 0)
    case Dispatch(k) => Before(plan, k, 0)
    case Checked(k, pc) => Before(plan, k, if past then pc + 1 else pc)
    case Between(k, pc) => Before(plan, k, pc + 1)
  }

  predicate Past(p: Phase, loc: Loc) {
    p.Checked? && loc.OpBarrier?
  }

  predicate LogInv(s: State, b: nat)
    requires b < |s.locs| == |s.logs|
  {
    && s.logs[b] == Executed(s.phase, s.plan, Past(s.phase, s.locs[b]))
    && (s.locs[b].Fetch? && s.phase.Checked? && s.phase.k < |s.plan| && s.phase.pc < |s.plan[s.phase.k]| ==>
          s.locs[b].words <= s.plan[s.phase.k][s.phase.pc].words)
  }

  /** The buffer holds the first `w` words of the batch. */
  predicate Written(inst: seq<Word>, batch: Batch, w: nat)
    requires |inst| == BUFFER_WORDS && ValidBatch(batch) && w <= |batch.insts| * INST_WORDS
  {
    forall i: nat :: i < w ==> inst[i] == BatchWord(batch, i)
  }

  predicate HostContent(s: State)
    requires Shaped(s)
  {
    match s.host
    case Ready => true
    case Filling(batch, w) => Written(s.queue.inst, batch, w)
    case NumWritten(batch) => s.queue.num == |batch.insts| && Written(s.queue.inst, batch, |batch.insts| * INST_WORDS)
    case BaseWritten(batch) =>
      s.queue.num == |batch.insts| && s.queue.base == batch.base && Written(s.queue.inst, batch, |batch.insts| * INST_WORDS)
    case _ => s.acked < |s.plan| && s.plan[s.acked] == QueuePlan(s.queue.inst, s.queue.num, s.queue.base)
  }

  /** The planned batch is the host's batch unless the host sent an empty one. */
  predicate PlanMatches(sent: seq<Batch>, plan: seq<seq<Entry>>) {
    && |sent| == |plan|
    && forall i :: 0 <= i < |plan| ==> PlannedAs(sent[i], plan[i])
  }

  predicate PlannedAs(batch: Batch, entries: seq<Entry>) {
    if batch.insts == [] then |entries| == 1 else entries == Stamp(batch)
  }

  ghost predicate Data(s: State)
    requires Shaped(s)
  {
    && HostContent(s)
    && PlanMatches(s.sent, s.plan)
    && (forall b: nat :: b < |s.locs| ==> LogInv(s, b))
  }

  ghost predicate Inv(s: State) {
    Control(s) && Data(s)
  }
}
