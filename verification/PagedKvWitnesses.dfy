/** Small runs of a new cache into the states where an operation breaks it. */
module PagedKvWitnesses {
  import opened Options
  import opened Pools
  import opened PagedKv
  import opened PagedKvOps
  import opened PagedKvTiers
  import opened PagedKvSequences
  import opened PagedKvAppend
  import opened PagedKvReset
  import opened PagedKvHandles
  import opened PagedKvRuns

  /** Chunks of two tokens, the given number of VRAM slots, one host slot and one empty sequence. */
  function SmallCache(vramSlots: nat): Store {
    Store(2, NewPool(vramSlots), NewPool(1), Memory(seq(vramSlots, _ => [0, 0]), [[0, 0]]), [], map[], 0, [EmptySequence()], {})
  }

  lemma SmallCacheIsFresh(vramSlots: nat)
    ensures Fresh(SmallCache(vramSlots)) && Valid(SmallCache(vramSlots))
  {
    FreshIsValid(SmallCache(vramSlots));
  }

  /** `st` is reached from a new cache by callers that keep their contract. */
  ghost predicate Reachable(st: Store) {
    exists st0, ops :: Fresh(st0) && Obeys(st0, ops) && CanRun(st0, ops) && Run(st0, ops) == st
  }

  lemma NewIsReachable(st: Store)
    requires Fresh(st)
    ensures Valid(st) && Reachable(st)
  {
    hide Fresh, SlotsOk, SequencesOk, Referenced;
    FreshIsValid(st);
    assert Obeys(st, []) && CanRun(st, []) && Run(st, []) == st;
  }

  lemma {:induction false} RunOneMore(st: Store, ops: seq<Op>, op: Op)
    requires CanRun(st, ops) && Obeys(st, ops) && Valid(Run(st, ops)) && Allowed(Run(st, ops), op)
    ensures Obeys(st, ops + [op]) && CanRun(st, ops + [op])
    ensures Run(st, ops + [op]) == Apply(Run(st, ops), op).0
    decreases |ops|
  {
    hide SlotsOk, SequencesOk, Referenced, Allowed, Apply;
    if ops == [] {
      assert (ops + [op])[1..] == [];
      StepRefines(st, op);
    } else {
      assert (ops + [op])[1..] == ops[1..] + [op];
      RunOneMore(Apply(st, ops[0]).0, ops[1..], op);
    }
  }

  lemma NextIsReachable(st: Store, op: Op)
    requires Reachable(st) && Valid(st) && Allowed(st, op)
    ensures Valid(Apply(st, op).0) && Reachable(Apply(st, op).0)
  {
    hide Fresh, SlotsOk, SequencesOk, Referenced, Allowed, Apply, Obeys, CanRun, Run;
    var st0, ops :| Fresh(st0) && Obeys(st0, ops) && CanRun(st0, ops) && Run(st0, ops) == st;
    RunOneMore(st0, ops, op);
    StepRefines(st, op);
    assert Fresh(st0) && Obeys(st0, ops + [op]) && CanRun(st0, ops + [op]) && Run(st0, ops + [op]) == Apply(st, op).0;
  }

  // ---------------------------------------------------------------- a shared partial chunk

  /** One token in the first chunk of the first sequence. */
  function OneToken(): Store {
    SmallCache(2).(vramPool := Pool(2, [1]), chunks := map[0 := Chunk(Some(0), None, 1, Vram)], next := 1,
                   seqs := [Sequence([0], 1, [0], 1, false)])
  }

  function Forked(): Store {
    OneToken().(seqs := [Sequence([0], 1, [0], 1, false), Sequence([0], 1, [0], 1, false)])
  }

  lemma OneTokenIsAppended()
    ensures Append(SmallCache(2), 0, 0, false) == (OneToken(), Success)
  {
    var st, vp := SmallCache(2), Pool(2, [1]);
    assert NewPool(2).free == [1, 0] && [1, 0][..1] == [1];
    assert NewChunk(st.vramPool, st.hostPool, false) == (vp, st.hostPool, Some(Chunk(Some(0), None, 0, Vram)));
    BumpNewChunk(st, 0, 0, vp, st.hostPool, Chunk(Some(0), None, 0, Vram));
    assert st.seqs[0].handles + [st.next] == [0] && st.seqs[0].positions + [0] == [0];
    assert st.seqs[0 := Sequence([0], 1, [0], 1, false)] == OneToken().seqs;
    assert st.chunks[0 := Chunk(Some(0), None, 1, Vram)] == OneToken().chunks;
  }

  lemma ForkedIsReachable()
    ensures Valid(Forked()) && Reachable(Forked())
  {
    hide Valid, Fresh, Reachable;
    SmallCacheIsFresh(2);
    NewIsReachable(SmallCache(2));
    OneTokenIsAppended();
    NextIsReachable(SmallCache(2), AppendOp(0, 0, false));
    assert Fork(OneToken(), 0) == Forked();
    NextIsReachable(OneToken(), ForkOp(0));
  }

  lemma ForkedShares()
    ensures Shared(Forked().seqs, 0, 0) && Shared(Forked().seqs, 1, 0) && SharedTokens(Forked().seqs, 0, 0)
  {
    assert Forked().seqs[0].handles[0] == 0 && Forked().seqs[1].handles[0] == 0;
    assert 0 in Forked().seqs[0].handles && 0 in Forked().seqs[1].handles;
  }

  /** After one append and one fork, the next append corrupts the cache. */
  lemma AppendCanCorrupt()
    ensures Valid(Forked()) && Reachable(Forked())
    ensures AppendsToShared(Forked(), 0) && !Valid(Append(Forked(), 0, 1, false).0)
  {
    hide SlotsOk, SequencesOk, Referenced, Reachable;
    ForkedIsReachable();
    ForkedShares();
    AppendKeepsValid(Forked(), 0, 1, false);
  }

  /** From there a failed copy loses the last VRAM slot. */
  lemma ExclusiveCanLoseASlot()
    ensures Valid(Forked()) && Reachable(Forked())
    ensures Copyable(Forked(), 0, 0) && MakeExclusive(Forked(), 0, 0, false).1 == CopyFailed
    ensures !Valid(MakeExclusive(Forked(), 0, 0, false).0)
  {
    hide SlotsOk, SequencesOk, Referenced, Reachable;
    ForkedIsReachable();
    ForkedShares();
    MakeExclusiveKeepsValid(Forked(), 0, 0, false);
  }

  /** The second sequence with its own copy of the chunk, the copy still pending. */
  function Separated(): Store {
    Forked().(vramPool := Pool(2, []), next := 2, pending := [Duplicate(0, 1)],
              chunks := map[0 := Chunk(Some(0), None, 1, Vram), 1 := Chunk(Some(1), None, 1, Vram)],
              seqs := [Sequence([0], 1, [0], 1, false), Sequence([1], 1, [0], 1, false)])
  }

  lemma SeparatedIsExclusive()
    ensures Copyable(Forked(), 1, 0) && MakeExclusive(Forked(), 1, 0, true) == (Separated(), Success)
  {
    var st := Forked();
    ForkedShares();
    assert [1][..0] == [];
    assert OwnCopy(st.(vramPool := Pool(2, [])), 1, 0, 1) == Separated() by {
      assert [0][0 := 1] == [1];
      assert st.chunks[1 := Chunk(Some(1), None, 1, Vram)] == Separated().chunks;
      assert st.seqs[1 := Sequence([1], 1, [0], 1, false)] == Separated().seqs;
    }
  }

  /** A reset right after the copy was issued frees the slot the copy is about to fill. */
  lemma ResetCanFreeABusySlot()
    ensures Valid(Separated()) && Reachable(Separated())
    ensures HandlesOk(Separated().chunks, Separated().seqs[1]) && !Valid(Reset(Separated(), 1, true))
  {
    hide SlotsOk, SequencesOk, Referenced, Reachable, Reset;
    ForkedIsReachable();
    SeparatedIsExclusive();
    NextIsReachable(Forked(), ExclusiveOp(1, 0, true));
    assert UsesVram(Separated().pending[0], 1);
    assert !Shared(Separated().seqs, 1, 1);
    assert !ResetIsSafe(Separated(), 1, true) by {
      assert Separated().seqs[1].handles[0] == 1;
    }
    ResetKeepsValid(Separated(), 1, true);
  }

  // ---------------------------------------------------------------- host slots

  /** A token whose chunk spilled to host memory. */
  function Spilled(): Store {
    SmallCache(0).(hostPool := Pool(1, []), chunks := map[0 := Chunk(None, Some(0), 1, HostPinned)], next := 1,
                   seqs := [Sequence([0], 1, [0], 1, false)])
  }

  lemma SpilledIsAppended()
    ensures Append(SmallCache(0), 0, 0, true) == (Spilled(), Success)
  {
    var st, hp := SmallCache(0), Pool(1, []);
    assert NewPool(0).free == [] && NewPool(1).free == [0] && [0][..0] == [];
    assert NewChunk(st.vramPool, st.hostPool, true) == (st.vramPool, hp, Some(Chunk(None, Some(0), 0, HostPinned)));
    BumpNewChunk(st, 0, 0, st.vramPool, hp, Chunk(None, Some(0), 0, HostPinned));
    assert st.seqs[0].handles + [st.next] == [0] && st.seqs[0].positions + [0] == [0];
    assert st.seqs[0 := Sequence([0], 1, [0], 1, false)] == Spilled().seqs;
    assert st.chunks[0 := Chunk(None, Some(0), 1, HostPinned)] == Spilled().chunks;
  }

  /** A reset without the host allocator loses the host slot. */
  lemma ResetCanLeak()
    ensures Valid(Spilled()) && Reachable(Spilled())
    ensures HandlesOk(Spilled().chunks, Spilled().seqs[0]) && !Valid(Reset(Spilled(), 0, false))
  {
    hide SlotsOk, SequencesOk, Referenced, Reachable, Reset;
    SmallCacheIsFresh(0);
    NewIsReachable(SmallCache(0));
    SpilledIsAppended();
    NextIsReachable(SmallCache(0), AppendOp(0, 0, true));
    assert !Shared(Spilled().seqs, 0, 0);
    assert !ResetIsSafe(Spilled(), 0, false) by {
      assert Spilled().seqs[0].handles[0] == 0;
    }
    ResetKeepsValid(Spilled(), 0, false);
  }

  // ---------------------------------------------------------------- a backed chunk

  /** A caller holds a chunk with a slot in both tiers. */
  function Backed(): Store {
    SmallCache(2).(vramPool := Pool(2, [1]), hostPool := Pool(1, []), next := 1,
                   chunks := map[0 := Chunk(Some(0), Some(0), 0, Vram)],
                   seqs := [EmptySequence(), LooseHandle(0)])
  }

  lemma BackedIsReachable()
    ensures Valid(Backed()) && Reachable(Backed())
  {
    hide SlotsOk, SequencesOk, Referenced, Reachable;
    SmallCacheIsFresh(2);
    NewIsReachable(SmallCache(2));
    var st := SmallCache(2);
    assert NewPool(2).free == [1, 0] && [1, 0][..1] == [1] && NewPool(1).free == [0] && [0][..0] == [];
    PoolsReady(st);
    assert AllocWithHostBacking(st).0 == Backed() by {
      assert st.chunks[0 := Chunk(Some(0), Some(0), 0, Vram)] == Backed().chunks;
      assert st.seqs + [LooseHandle(0)] == Backed().seqs;
    }
    NextIsReachable(st, AllocBackedOp);
  }

  /** Forgetting its only handle loses both slots. */
  lemma ForgetCanLeak()
    ensures Valid(Backed()) && Reachable(Backed()) && !Valid(Forget(Backed(), 1))
  {
    hide SlotsOk, SequencesOk, Referenced, Reachable, Forget;
    BackedIsReachable();
    assert !Shared(Backed().seqs, 1, 0);
    assert !HeldElsewhere(Backed(), 1) by {
      assert Backed().seqs[1].handles[0] == 0;
    }
    ForgetKeepsValid(Backed(), 1);
  }

  function Leaving(): Store {
    Backed().(pending := [Download(0, 0)], evicting := {0})
  }

  /** Freeing the VRAM slot before the flush frees it under the copy that reads it. */
  lemma FinishCanFreeABusySlot()
    ensures Valid(Leaving()) && Reachable(Leaving())
    ensures CanFree(Leaving().vramPool, 0) && !Valid(FinishEvict(Leaving(), 0))
  {
    hide SlotsOk, SequencesOk, Referenced, Reachable, FinishEvict;
    BackedIsReachable();
    assert Evict(Backed(), 0, true).0 == Leaving();
    NextIsReachable(Backed(), EvictOp(0, true));
    assert UsesVram(Leaving().pending[0], 0);
    FinishEvictKeepsValid(Leaving(), 0);
  }
}
