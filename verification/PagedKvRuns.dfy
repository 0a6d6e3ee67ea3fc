/**
 Whole runs of the paged cache refine the simple thing it implements: a list of KV entries
 per sequence.
 */
module PagedKvRuns {
  import opened Options
  import opened Pools
  import opened PagedKv
  import opened PagedKvOps
  import opened PagedKvTiers
  import opened PagedKvSequences
  import opened PagedKvAppend
  import opened PagedKvWrite
  import opened PagedKvReset
  import opened PagedKvHandles

  datatype Op =
    | ForkOp(s: nat)
    | ExclusiveOp(s: nat, i: nat, copyOk: bool)
    | AppendOp(s: nat, position: int, useHost: bool)
    | WriteOp(s: nat, i: nat, off: nat, kv: Kv)
    | PromoteOp(id: nat, copyOk: bool)
    | EvictOp(id: nat, copyOk: bool)
    | CompleteOp
    | FlushOp
    | FinishEvictOp(id: nat)
    | ResetOp(s: nat, useHost: bool)
    | AllocBackedOp
    | CloneOp(s: nat, i: nat)
    | AttachOp(s: nat, h: nat, positions: seq<int>)
    | IncrementOp(h: nat)
    | ForgetOp(h: nat)

  /**
   The contract of the callers: a chunk that somebody else holds is made exclusive before a token
   is counted or written on it, a slot is freed or written only when no pending copy uses it,
   host slots are given back with the host allocator at hand, and a caller does not forget the
   last handle of a chunk.
   */
  ghost predicate Allowed(st: Store, op: Op) {
    match op
    case ForkOp(s) => s < |st.seqs|
    case ExclusiveOp(s, i, copyOk) => Copyable(st, s, i) && MakeExclusive(st, s, i, copyOk).1 != CopyFailed
    case AppendOp(s, _, _) => s < |st.seqs| && !st.seqs[s].loose && !AppendsToHeld(st, s)
    case WriteOp(s, i, off, _) =>
      && s < |st.seqs| && i < |st.seqs[s].handles| && Writable(st, st.seqs[s].handles[i], off)
      && !Shared(st.seqs, s, st.seqs[s].handles[i])
    case PromoteOp(id, _) => TierOf(st, id) == Some(HostPinned)
    case EvictOp(id, _) => TierOf(st, id) == Some(Vram) && st.chunks[id].host.Some?
    case CompleteOp => st.pending != []
    case FlushOp => true
    case FinishEvictOp(id) => id in st.evicting && id in st.chunks && VramIdle(st.pending, st.chunks[id].vram)
    case ResetOp(s, useHost) => s < |st.seqs| && !st.seqs[s].loose && ResetIsSafe(st, s, useHost)
    case AllocBackedOp => true
    case CloneOp(s, i) => s < |st.seqs| && i < |st.seqs[s].handles|
    case AttachOp(s, h, positions) => CanAttach(st, s, h, positions)
    case IncrementOp(h) => CanIncrement(st, h)
    case ForgetOp(h) => h < |st.seqs| && st.seqs[h].loose && HeldElsewhere(st, h)
  }

  /** One operation and its outcome. */
  ghost function Apply(st: Store, op: Op): (Store, Outcome)
    requires Valid(st) && Allowed(st, op)
  {
    match op
    case ForkOp(s) => (Fork(st, s), Success)
    case ExclusiveOp(s, i, copyOk) => MakeExclusive(st, s, i, copyOk)
    case AppendOp(s, position, useHost) => HandlesKnown(st, s); Append(st, s, position, useHost)
    case WriteOp(s, i, off, kv) => (Write(st, st.seqs[s].handles[i], off, kv), Success)
    case PromoteOp(id, copyOk) => PromoteReady(st, id); Promote(st, id, copyOk)
    case EvictOp(id, copyOk) => EvictReady(st, id); Evict(st, id, copyOk)
    case CompleteOp => (CompleteOne(st), Success)
    case FlushOp => (Flush(st), Success)
    case FinishEvictOp(id) => FinishEvictKeepsValid(st, id); (FinishEvict(st, id), Success)
    case ResetOp(s, useHost) => HandlesOfValid(st, s); (Reset(st, s, useHost), Success)
    case AllocBackedOp => PoolsReady(st); AllocWithHostBacking(st)
    case CloneOp(s, i) => (CloneHandle(st, s, i), Success)
    case AttachOp(s, h, positions) => (Attach(st, s, h, positions), Success)
    case IncrementOp(h) => (IncrementLen(st, st.seqs[h].handles[0]), Success)
    case ForgetOp(h) => (Forget(st, h), Success)
  }

  lemma PromoteReady(st: Store, id: nat)
    requires Valid(st) && TierOf(st, id) == Some(HostPinned)
    ensures st.chunks[id].host.Some? && NoDuplicates(st.vramPool.free) && forall v :: v in st.vramPool.free ==> v < st.vramPool.capacity
  {
  }

  lemma PoolsReady(st: Store)
    requires Valid(st)
    ensures NoDuplicates(st.vramPool.free) && forall v :: v in st.vramPool.free ==> v < st.vramPool.capacity
  {
  }

  lemma EvictReady(st: Store, id: nat)
    requires Valid(st) && TierOf(st, id) == Some(Vram)
    ensures st.chunks[id].vram.Some?
  {
  }

  lemma HandlesOfValid(st: Store, s: nat)
    requires Valid(st) && s < |st.seqs|
    ensures HandlesOk(st.chunks, st.seqs[s])
  {
  }

  // ---------------------------------------------------------------- the simple thing

  type Lists = seq<seq<Kv>>

  ghost function Views(st: Store): (lists: Lists)
    requires CopiesInRange(st.mem, st.pending)
    ensures |lists| == |st.seqs|
  {
    seq(|st.seqs|, s requires 0 <= s < |st.seqs| => View(st, s))
  }

  /** What the operation does to plain lists. */
  ghost predicate ListStep(lists: Lists, op: Op, tokens: nat, outcome: Outcome, lists': Lists) {
    match op
    case ForkOp(s) => s < |lists| && lists' == lists + [lists[s]]
    case AppendOp(s, _, _) =>
      if outcome == Success then s < |lists| && exists x :: lists' == lists[s := lists[s] + [x]]
      else lists' == lists
    case WriteOp(s, i, off, kv) =>
      && s < |lists| && Token(tokens, i, off) < |lists[s]|
      && lists' == lists[s := lists[s][Token(tokens, i, off) := kv]]
    case ResetOp(s, _) => s < |lists| && lists' == lists[s := []]
    case AllocBackedOp => lists' == if outcome == Success then lists + [[]] else lists
    case CloneOp(s, i) => s < |lists| && lists' == lists + [Piece(lists[s], tokens, i)]
    case AttachOp(s, h, _) => s < |lists| && h < |lists| && lists' == lists[s := lists[s] + lists[h]][h := []]
    case IncrementOp(h) => h < |lists| && exists x :: lists' == lists[h := lists[h] + [x]]
    case ForgetOp(h) => h < |lists| && lists' == lists[h := []]
    case _ => lists' == lists
  }

  lemma ViewsOfSame(st: Store, st': Store)
    requires SameViews(st, st') && |st'.seqs| == |st.seqs|
    ensures Views(st') == Views(st)
  {
  }

  ghost predicate Refines(st: Store, op: Op, st': Store, outcome: Outcome) {
    && Valid(st) && Valid(st') && st'.tokens == st.tokens
    && ListStep(Views(st), op, st.tokens, outcome, Views(st'))
    && (outcome != Success ==> st' == st)
  }

  lemma ForkRefines(st: Store, s: nat)
    requires Valid(st) && Allowed(st, ForkOp(s))
    ensures Refines(st, ForkOp(s), Fork(st, s), Success)
  {
    hide View, SlotsOk, SequencesOk, Referenced;
    ForkKeepsValid(st, s);
    var a, b := Views(st), Views(Fork(st, s));
    assert b == a + [a[s]];
  }

  lemma ExclusiveRefines(st: Store, s: nat, i: nat, copyOk: bool)
    requires Valid(st) && Allowed(st, ExclusiveOp(s, i, copyOk))
    ensures Refines(st, ExclusiveOp(s, i, copyOk), MakeExclusive(st, s, i, copyOk).0, MakeExclusive(st, s, i, copyOk).1)
  {
    hide View, SlotsOk, SequencesOk, Referenced, Shared;
    MakeExclusiveKeepsValid(st, s, i, copyOk);
    ViewsOfSame(st, MakeExclusive(st, s, i, copyOk).0);
  }

  lemma AppendRefines(st: Store, s: nat, position: int, useHost: bool)
    requires Valid(st) && Allowed(st, AppendOp(s, position, useHost))
    ensures forall i :: 0 <= i < |st.seqs[s].handles| ==> st.seqs[s].handles[i] in st.chunks
    ensures Refines(st, AppendOp(s, position, useHost), Append(st, s, position, useHost).0, Append(st, s, position, useHost).1)
  {
    hide View, SlotsOk, SequencesOk, Referenced, AppendsToShared, AppendsToHeld, NoSlotLeft;
    HandlesKnown(st, s);
    TokenHoldersAreHolders(st, s);
    AppendKeepsValid(st, s, position, useHost);
    var st' := Append(st, s, position, useHost).0;
    if Append(st, s, position, useHost).1 == Success {
      var x :| View(st', s) == View(st, s) + [x];
      assert Views(st') == Views(st)[s := Views(st)[s] + [x]];
    }
  }

  lemma WriteRefines(st: Store, s: nat, i: nat, off: nat, kv: Kv)
    requires Valid(st) && Allowed(st, WriteOp(s, i, off, kv))
    ensures Refines(st, WriteOp(s, i, off, kv), Write(st, st.seqs[s].handles[i], off, kv), Success)
  {
    hide View, SlotsOk, SequencesOk, Referenced, Token, Writable;
    var id := st.seqs[s].handles[i];
    WriteKeepsValid(st, id, off, kv);
    var st' := Write(st, id, off, kv);
    forall o: nat | o < |st.seqs| && o != s ensures Views(st')[o] == Views(st)[o] {
      assert id !in st.seqs[o].handles;
      assert View(st', o) == View(st, o);
    }
    assert Views(st') == Views(st)[s := Views(st)[s][Token(st.tokens, i, off) := kv]];
  }

  lemma ResetRefines(st: Store, s: nat, useHost: bool)
    requires Valid(st) && Allowed(st, ResetOp(s, useHost))
    ensures HandlesOk(st.chunks, st.seqs[s])
    ensures Refines(st, ResetOp(s, useHost), Reset(st, s, useHost), Success)
  {
    hide View, SlotsOk, SequencesOk, Referenced, ResetIsSafe, DropHandles;
    HandlesOfValid(st, s);
    ResetKeepsValid(st, s, useHost);
    DropKeepsTokens(Drained(st, s), st.seqs[s].handles, useHost);
    var st' := Reset(st, s, useHost);
    forall o: nat | o < |st.seqs| && o != s ensures Views(st')[o] == Views(st)[o] {
      assert View(st', o) == View(st, o);
    }
    assert Views(st') == Views(st)[s := []];
  }

  lemma {:induction false} DropKeepsTokens(st: Store, handles: seq<nat>, useHost: bool)
    requires NoDuplicates(handles) && forall i :: 0 <= i < |handles| ==> handles[i] in st.chunks
    ensures DropHandles(st, handles, useHost).tokens == st.tokens
    decreases |handles|
  {
    hide Referenced, Release;
    if handles != [] {
      assert forall i :: 0 < i < |handles| ==> handles[i] != handles[0] && handles[i] == handles[1..][i - 1];
      DropKeepsTokens(DropHandle(st, handles[0], useHost), handles[1..], useHost);
    }
  }

  lemma AllocBackedRefines(st: Store)
    requires Valid(st)
    ensures NoDuplicates(st.vramPool.free) && forall v :: v in st.vramPool.free ==> v < st.vramPool.capacity
    ensures Refines(st, AllocBackedOp, AllocWithHostBacking(st).0, AllocWithHostBacking(st).1)
  {
    hide View, SlotsOk, SequencesOk, Referenced;
    PoolsReady(st);
    AllocWithHostBackingKeepsValid(st);
    AllocBackedKeepsTokens(st);
    if AllocWithHostBacking(st).1 == Success {
      var st' := AllocWithHostBacking(st).0;
      assert Views(st') == Views(st) + [[]];
    }
  }

  lemma AllocBackedKeepsTokens(st: Store)
    requires NoDuplicates(st.vramPool.free) && forall v :: v in st.vramPool.free ==> v < st.vramPool.capacity
    ensures AllocWithHostBacking(st).0.tokens == st.tokens && AllocWithHostBacking(st).1 != CopyFailed
  {
  }

  lemma CloneInRange(st: Store, s: nat, i: nat)
    requires Allowed(st, CloneOp(s, i))
    ensures s < |st.seqs| && i < |st.seqs[s].handles|
  {
  }

  lemma CloneRefines(st: Store, s: nat, i: nat)
    requires Valid(st) && s < |st.seqs| && i < |st.seqs[s].handles|
    ensures Refines(st, CloneOp(s, i), CloneHandle(st, s, i), Success)
  {
    hide View, SlotsOk, SequencesOk, Referenced, Piece;
    CloneKeepsValid(st, s, i);
    var a, b := Views(st), Views(CloneHandle(st, s, i));
    assert b == a + [Piece(a[s], st.tokens, i)];
  }

  lemma AttachRefines(st: Store, s: nat, h: nat, positions: seq<int>)
    requires Valid(st) && Allowed(st, AttachOp(s, h, positions))
    ensures Refines(st, AttachOp(s, h, positions), Attach(st, s, h, positions), Success)
  {
    hide View, SlotsOk, SequencesOk, Referenced;
    AttachKeepsValid(st, s, h, positions);
    var a, b := Views(st), Views(Attach(st, s, h, positions));
    assert b == a[s := a[s] + a[h]][h := []];
  }

  lemma IncrementRefines(st: Store, h: nat)
    requires Valid(st) && Allowed(st, IncrementOp(h))
    ensures Refines(st, IncrementOp(h), IncrementLen(st, st.seqs[h].handles[0]), Success)
  {
    hide View, SlotsOk, SequencesOk, Referenced;
    IncrementKeepsValid(st, h);
    var st' := IncrementLen(st, st.seqs[h].handles[0]);
    var x :| View(st', h) == View(st, h) + [x];
    assert Views(st') == Views(st)[h := Views(st)[h] + [x]];
  }

  lemma ForgetRefines(st: Store, h: nat)
    requires Valid(st) && Allowed(st, ForgetOp(h))
    ensures Refines(st, ForgetOp(h), Forget(st, h), Success)
  {
    hide View, SlotsOk, SequencesOk, Referenced, HeldElsewhere;
    ForgetKeepsValid(st, h);
    assert Views(Forget(st, h)) == Views(st)[h := []];
  }

  lemma TierOpsRefine(st: Store, op: Op)
    requires Valid(st) && Allowed(st, op)
    requires op.PromoteOp? || op.EvictOp? || op.CompleteOp? || op.FlushOp? || op.FinishEvictOp?
    ensures Refines(st, op, Apply(st, op).0, Apply(st, op).1)
  {
    hide View, SlotsOk, SequencesOk, Referenced;
    match op
    case PromoteOp(id, copyOk) =>
      PromoteReady(st, id);
      PromoteKeepsValid(st, id, copyOk);
      ViewsOfSame(st, Promote(st, id, copyOk).0);
    case EvictOp(id, copyOk) =>
      EvictKeepsValid(st, id, copyOk);
      ViewsOfSame(st, Evict(st, id, copyOk).0);
    case CompleteOp =>
      CompleteOneKeepsValid(st);
      ViewsOfSame(st, CompleteOne(st));
    case FlushOp =>
      FlushKeepsValid(st);
      ViewsOfSame(st, Flush(st));
    case FinishEvictOp(id) =>
      FinishEvictKeepsValid(st, id);
      ViewsOfSame(st, FinishEvict(st, id));
  }

  /** Every allowed operation keeps the invariant and does to the lists what it should; a failed one changes nothing. */
  lemma StepRefines(st: Store, op: Op)
    requires Valid(st) && Allowed(st, op)
    ensures Refines(st, op, Apply(st, op).0, Apply(st, op).1)
  {
    hide Valid, Refines, Allowed;
    match op
    case ForkOp(s) => ForkRefines(st, s);
    case ExclusiveOp(s, i, copyOk) => ExclusiveRefines(st, s, i, copyOk);
    case AppendOp(s, position, useHost) => AppendRefines(st, s, position, useHost);
    case WriteOp(s, i, off, kv) => WriteRefines(st, s, i, off, kv);
    case ResetOp(s, useHost) => ResetRefines(st, s, useHost);
    case AllocBackedOp => AllocBackedRefines(st);
    case CloneOp(s, i) =>
      CloneInRange(st, s, i);
      CloneRefines(st, s, i);
    case AttachOp(s, h, positions) => AttachRefines(st, s, h, positions);
    case IncrementOp(h) => IncrementRefines(st, h);
    case ForgetOp(h) => ForgetRefines(st, h);
    case _ => TierOpsRefine(st, op);
  }

  // ---------------------------------------------------------------- runs

  ghost predicate CanRun(st: Store, ops: seq<Op>)
    decreases |ops|
  {
    Valid(st) && (ops != [] ==> Allowed(st, ops[0]) && CanRun(Apply(st, ops[0]).0, ops[1..]))
  }

  ghost function Run(st: Store, ops: seq<Op>): Store
    requires CanRun(st, ops)
    decreases |ops|
  {
    if ops == [] then st else Run(Apply(st, ops[0]).0, ops[1..])
  }

  ghost function Outcomes(st: Store, ops: seq<Op>): seq<Outcome>
    requires CanRun(st, ops)
    decreases |ops|
  {
    if ops == [] then [] else [Apply(st, ops[0]).1] + Outcomes(Apply(st, ops[0]).0, ops[1..])
  }

  /** The callers keep their contract at every step of the run. */
  ghost predicate Obeys(st: Store, ops: seq<Op>)
    decreases |ops|
  {
    ops == [] || (Valid(st) ==> Allowed(st, ops[0]) && Obeys(Apply(st, ops[0]).0, ops[1..]))
  }

  ghost predicate ListRun(lists: Lists, ops: seq<Op>, tokens: nat, outcomes: seq<Outcome>, lists': Lists)
    decreases |ops|
  {
    if ops == [] then lists' == lists
    else
      && outcomes != []
      && exists mid :: ListStep(lists, ops[0], tokens, outcomes[0], mid) && ListRun(mid, ops[1..], tokens, outcomes[1..], lists')
  }

  /**
   The cache refines one list per sequence over every run that obeys the callers' contract:
   the invariant holds throughout and the lists change exactly as plain lists would.
   */
  lemma {:induction false} RunRefines(st: Store, ops: seq<Op>)
    requires Valid(st) && Obeys(st, ops)
    ensures CanRun(st, ops) && Valid(Run(st, ops)) && Run(st, ops).tokens == st.tokens
    ensures ListRun(Views(st), ops, st.tokens, Outcomes(st, ops), Views(Run(st, ops)))
    decreases |ops|
  {
    hide MemoryOk, Conserved, ChunksOk, OnUsedSlots, EvictingOk, SequencesOk, Referenced, Allowed, Apply, ListStep, Views;
    if ops != [] {
      var st' := Apply(st, ops[0]).0;
      StepRefines(st, ops[0]);
      RunRefines(st', ops[1..]);
      assert Outcomes(st, ops)[1..] == Outcomes(st', ops[1..]);
      assert ListStep(Views(st), ops[0], st.tokens, Outcomes(st, ops)[0], Views(st'));
    }
  }

  /** The operation is addressed to another sequence, or to no sequence at all. */
  predicate Spares(op: Op, s: nat) {
    match op
    case AppendOp(o, _, _) => o != s
    case WriteOp(o, _, _, _) => o != s
    case ResetOp(o, _) => o != s
    case AttachOp(o, h, _) => o != s && h != s
    case IncrementOp(h) => h != s
    case ForgetOp(h) => h != s
    case _ => true
  }

  lemma ListStepSpares(lists: Lists, op: Op, tokens: nat, outcome: Outcome, lists': Lists, s: nat)
    requires ListStep(lists, op, tokens, outcome, lists') && s < |lists| && Spares(op, s)
    ensures s < |lists'| && lists'[s] == lists[s]
  {
    hide Token, Piece;
  }

  lemma {:induction false} ListRunSpares(lists: Lists, ops: seq<Op>, tokens: nat, outcomes: seq<Outcome>, lists': Lists, s: nat)
    requires ListRun(lists, ops, tokens, outcomes, lists') && s < |lists|
    requires forall i :: 0 <= i < |ops| ==> Spares(ops[i], s)
    ensures s < |lists'| && lists'[s] == lists[s]
    decreases |ops|
  {
    hide ListStep, Spares;
    if ops != [] {
      var mid :| ListStep(lists, ops[0], tokens, outcomes[0], mid) && ListRun(mid, ops[1..], tokens, outcomes[1..], lists');
      assert forall i :: 0 <= i < |ops| - 1 ==> ops[1..][i] == ops[i + 1];
      ListStepSpares(lists, ops[0], tokens, outcomes[0], mid, s);
      ListRunSpares(mid, ops[1..], tokens, outcomes[1..], lists', s);
    }
  }

  /**
   Whatever happens to the tiers, the copies and the other sequences, a sequence that is not
   appended to, written or reset reads the same entries at the end, even when its chunks were
   evicted, their VRAM slots reused, and promoted again.
   */
  lemma UntouchedSequencesReadTheSame(st: Store, ops: seq<Op>, s: nat)
    requires Valid(st) && Obeys(st, ops) && s < |st.seqs|
    requires forall i :: 0 <= i < |ops| ==> Spares(ops[i], s)
    ensures CanRun(st, ops) && Valid(Run(st, ops)) && s < |Run(st, ops).seqs|
    ensures View(Run(st, ops), s) == View(st, s)
  {
    hide MemoryOk, Conserved, ChunksOk, OnUsedSlots, EvictingOk, SequencesOk, Referenced, Obeys, CanRun, Run, ListRun, View;
    RunRefines(st, ops);
    ListRunSpares(Views(st), ops, st.tokens, Outcomes(st, ops), Views(Run(st, ops)), s);
  }

  // ---------------------------------------------------------------- from the start

  /** A new cache over memory with arbitrary contents. */
  ghost predicate Fresh(st: Store) {
    && st.tokens > 0 && st.chunks == map[] && st.pending == [] && st.evicting == {}
    && st.vramPool == NewPool(st.vramPool.capacity) && st.hostPool == NewPool(st.hostPool.capacity)
    && MemoryOk(st.tokens, st.vramPool.capacity, st.hostPool.capacity, st.mem)
    && forall s :: 0 <= s < |st.seqs| ==> st.seqs[s] == EmptySequence()
  }

  lemma FreshIsValid(st: Store)
    requires Fresh(st)
    ensures Valid(st)
  {
    NewPoolConserved(st.vramPool.capacity);
    NewPoolConserved(st.hostPool.capacity);
    assert VramHeld(st.chunks) == map[] && HostHeld(st.chunks) == map[];
  }

  /** The `i`-th chunk of sequence `s` holds `kv` at `off`, in its VRAM slot when that is where it lives. */
  ghost predicate Holds(st: Store, s: nat, i: nat, off: nat, kv: Kv) {
    && s < |st.seqs| && i < |st.seqs[s].handles|
    && var id := st.seqs[s].handles[i];
    && id in st.chunks && off < st.chunks[id].len
    && (st.chunks[id].tier == Vram ==>
          && st.chunks[id].vram.Some? && st.chunks[id].vram.value < |st.mem.vram|
          && off < |st.mem.vram[st.chunks[id].vram.value]|
          && st.mem.vram[st.chunks[id].vram.value][off] == kv)
  }

  /** What the kernel reads for token t is entry t of the list, at chunk t / tokens and offset t % tokens. */
  ghost predicate KernelReads(st: Store, s: nat, t: nat) {
    && st.tokens > 0 && CopiesInRange(st.mem, st.pending) && s < |st.seqs| && t < |View(st, s)|
    && Holds(st, s, t / st.tokens, t % st.tokens, View(st, s)[t])
  }

  /** In every state a new cache can reach, once the copies are done, the kernel reads every sequence's list. */
  lemma KernelReadsTheList(st0: Store, ops: seq<Op>, s: nat, t: nat)
    requires Fresh(st0) && Obeys(st0, ops)
    ensures Valid(st0) && CanRun(st0, ops) && Valid(Run(st0, ops))
    ensures var st := Run(st0, ops);
            s < |st.seqs| && st.pending == [] && t < |View(st, s)| ==> KernelReads(st, s, t)
  {
    hide Obeys, CanRun, Run, ListRun, Fresh, SlotsOk, SequencesOk, Referenced, KernelReads;
    FreshIsValid(st0);
    RunRefines(st0, ops);
    var st := Run(st0, ops);
    if s < |st.seqs| && st.pending == [] && t < |View(st, s)| {
      SettledRead(st, s, t);
    }
  }

  lemma SettledRead(st: Store, s: nat, t: nat)
    requires Valid(st) && s < |st.seqs| && t < |View(st, s)| && st.pending == []
    ensures KernelReads(st, s, t)
  {
    hide MemoryOk, Conserved, ChunksOk, OnUsedSlots, EvictingOk, SequencesOk, Referenced, Holds, ValidPart, Join;
    SequenceIsPaged(st, s);
    TokenLocation(Contents(st), st.seqs[s].handles, st.tokens, t);
    ReadFromSlot(st, s, t / st.tokens, t % st.tokens);
  }

  lemma ReadFromSlot(st: Store, s: nat, i: nat, off: nat)
    requires SlotsOk(st) && s < |st.seqs| && i < |st.seqs[s].handles| && st.pending == []
    requires st.seqs[s].handles[i] in Contents(st) && off < |Contents(st)[st.seqs[s].handles[i]]|
    ensures Holds(st, s, i, off, Contents(st)[st.seqs[s].handles[i]][off])
  {
  }

  /** After any run that leaves every sequence empty, both pools are full again. */
  lemma ResetGivesEverythingBack(st0: Store, ops: seq<Op>)
    requires Fresh(st0) && Obeys(st0, ops)
    ensures Valid(st0) && CanRun(st0, ops)
    ensures var st := Run(st0, ops);
            (forall s :: 0 <= s < |st.seqs| ==> st.seqs[s].handles == []) ==>
              && |st.vramPool.free| == st.vramPool.capacity && |st.hostPool.free| == st.hostPool.capacity
              && (forall v: nat :: v < st.vramPool.capacity <==> v in st.vramPool.free)
              && (forall h: nat :: h < st.hostPool.capacity <==> h in st.hostPool.free)
  {
    hide Obeys, CanRun, Run, ListRun, Fresh, SlotsOk, SequencesOk, Referenced;
    FreshIsValid(st0);
    RunRefines(st0, ops);
    var st := Run(st0, ops);
    if forall s :: 0 <= s < |st.seqs| ==> st.seqs[s].handles == [] {
      AllEmptyMeansPoolsFull(st);
    }
  }
}
