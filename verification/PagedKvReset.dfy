/** Giving a sequence's chunks back. */
module PagedKvReset {
  import opened Options
  import opened Pools
  import opened PagedKv
  import opened PagedKvOps
  import opened PagedKvTiers

  /** Give a slot back, if there is one. */
  function Release(p: Pool, slot: Option<nat>): Pool {
    if slot.Some? && CanFree(p, slot.value) then Free(p, slot.value) else p
  }

  /**
   A drained handle goes out of scope.  The last one frees the slots of its record; the host
   slot only when the host allocator is passed in.
   */
  function DropHandle(st: Store, id: nat, useHost: bool): Store
    requires id in st.chunks
  {
    if Referenced(st.seqs, id) then st
    else
      var c := st.chunks[id];
      st.(vramPool := Release(st.vramPool, c.vram),
          hostPool := if useHost then Release(st.hostPool, c.host) else st.hostPool,
          chunks := st.chunks - {id},
          evicting := st.evicting - {id})
  }

  function DropHandles(st: Store, handles: seq<nat>, useHost: bool): Store
    requires NoDuplicates(handles) && forall i :: 0 <= i < |handles| ==> handles[i] in st.chunks
    decreases |handles|
  {
    if handles == [] then st
    else
      assert forall i :: 0 < i < |handles| ==> handles[i] != handles[0] && handles[i] == handles[1..][i - 1];
      DropHandles(DropHandle(st, handles[0], useHost), handles[1..], useHost)
  }

  function Emptied(q: Sequence): Sequence {
    q.(handles := [], seqLen := 0, positions := [], version := q.version + 1)
  }

  function Drained(st: Store, s: nat): Store
    requires s < |st.seqs|
  {
    st.(seqs := st.seqs[s := Emptied(st.seqs[s])])
  }

  /** Drain the handles of a sequence, front to back, and clear its metadata. */
  function Reset(st: Store, s: nat, useHost: bool): Store
    requires s < |st.seqs| && HandlesOk(st.chunks, st.seqs[s])
  {
    DropHandles(Drained(st, s), st.seqs[s].handles, useHost)
  }

  lemma HeldRemove(chunks: map<nat, Chunk>, id: nat)
    ensures VramHeld(chunks - {id}) == VramHeld(chunks) - {id}
    ensures HostHeld(chunks - {id}) == HostHeld(chunks) - {id}
  {
  }

  lemma ReleaseConserves(p: Pool, held: map<nat, nat>, id: nat, slot: Option<nat>)
    requires Conserved(p, held)
    requires if slot.Some? then id in held && held[id] == slot.value else id !in held
    ensures Conserved(Release(p, slot), held - {id})
    ensures slot.Some? ==> CanFree(p, slot.value)
    ensures Release(p, slot).capacity == p.capacity
  {
    if slot.Some? {
      FreeConserves(p, held, id);
    } else {
      assert held - {id} == held;
    }
  }

  /** Nothing is lost when the record goes: no host slot, or a host allocator to take it. */
  predicate NoLeak(c: Chunk, useHost: bool) {
    c.host.None? || useHost
  }

  /** The record's slots can be given back: none is lost, and none is still used by a pending copy. */
  predicate FreesSafely(pending: seq<Copy>, c: Chunk, useHost: bool) {
    NoLeak(c, useHost) && VramIdle(pending, c.vram) && HostIdle(pending, c.host)
  }

  lemma DropPools(st: Store, id: nat, useHost: bool)
    requires SlotsOk(st) && id in st.chunks && !Referenced(st.seqs, id) && NoLeak(st.chunks[id], useHost)
    ensures var st' := DropHandle(st, id, useHost);
            && Conserved(st'.vramPool, VramHeld(st'.chunks)) && Conserved(st'.hostPool, HostHeld(st'.chunks))
            && st'.vramPool.capacity == st.vramPool.capacity && st'.hostPool.capacity == st.hostPool.capacity
  {
    hide Conserved, PendingOk, EvictingOk, MemoryOk, ChunksOk;
    var c := st.chunks[id];
    HeldRemove(st.chunks, id);
    ReleaseConserves(st.vramPool, VramHeld(st.chunks), id, c.vram);
    ReleaseConserves(st.hostPool, HostHeld(st.chunks), id, c.host);
  }

  lemma ReleaseLeavesPending(m: Memory, pending: seq<Copy>, vp: Pool, hp: Pool, c: Chunk)
    requires PendingOk(m, pending, vp.free, hp.free) && VramIdle(pending, c.vram) && HostIdle(pending, c.host)
    ensures PendingOk(m, pending, Release(vp, c.vram).free, Release(hp, c.host).free)
  {
    forall i | 0 <= i < |pending| ensures OnUsedSlots(pending[i], Release(vp, c.vram).free, Release(hp, c.host).free) {
      assert OnUsedSlots(pending[i], vp.free, hp.free);
    }
  }

  lemma DropKeepsOthers(st: Store, id: nat, useHost: bool)
    requires SlotsOk(st) && id in st.chunks && !Referenced(st.seqs, id) && FreesSafely(st.pending, st.chunks[id], useHost)
    ensures OthersKept(st, DropHandle(st, id, useHost), id)
  {
    hide Conserved, Referenced, PendingOk, CopiesInRange, Settle, VramIdle, HostIdle;
    DropPools(st, id, useHost);
    ReleaseLeavesPending(st.mem, st.pending, st.vramPool, st.hostPool, st.chunks[id]);
  }

  lemma DropKeepsValid(st: Store, drained: set<nat>, id: nat, useHost: bool)
    requires ValidExcept(st, drained) && id in drained && id in st.chunks
    requires !Referenced(st.seqs, id) ==> FreesSafely(st.pending, st.chunks[id], useHost)
    ensures ValidExcept(DropHandle(st, id, useHost), drained - {id})
    ensures SameViews(st, DropHandle(st, id, useHost))
  {
    hide SequencesOk, Referenced, MemoryOk, Conserved, EvictingOk, OnUsedSlots, Settle, OthersKept, Join, Contents, SameViews;
    if !Referenced(st.seqs, id) {
      DropKeepsOthers(st, id, useHost);
      UnreferencedRecordGone(st, DropHandle(st, id, useHost), drained, id);
    } else {
      NothingChanged(st);
    }
  }

  lemma NothingChanged(st: Store)
    requires SlotsOk(st)
    ensures SameViews(st, st)
  {
  }

  lemma UnreferencedRecordGone(st: Store, st': Store, drained: set<nat>, id: nat)
    requires ValidExcept(st, drained) && OthersKept(st, st', id) && !Referenced(st.seqs, id)
    requires st'.seqs == st.seqs && st'.chunks == st.chunks - {id}
    ensures ValidExcept(st', drained - {id}) && SameViews(st, st')
  {
    hide MemoryOk, Conserved, EvictingOk, OnUsedSlots, Settle, ValidPart, LengthsOk, Join, NoDuplicates, ChunksOk, HandlesOk;
    assert SlotsOk(st');
    forall s: nat | s < |st.seqs| ensures SequenceOk(st'.tokens, st'.chunks, st'.seqs[s]) && View(st', s) == View(st, s) {
      assert SequenceOk(st.tokens, st.chunks, st.seqs[s]);
      UntouchedSequence(st, st', s, id);
    }
  }

  /** Handles drained from a sequence. */
  ghost predicate Drainable(st: Store, handles: seq<nat>) {
    NoDuplicates(handles) && forall i :: 0 <= i < |handles| ==> handles[i] in st.chunks
  }

  ghost predicate AllFreeSafely(st: Store, handles: seq<nat>, useHost: bool) {
    forall i :: 0 <= i < |handles| ==>
      handles[i] in st.chunks && (!Referenced(st.seqs, handles[i]) ==> FreesSafely(st.pending, st.chunks[handles[i]], useHost))
  }

  function AsSet(handles: seq<nat>): set<nat> {
    set h | h in handles
  }

  lemma DropFrame(st: Store, handles: seq<nat>, useHost: bool)
    requires Drainable(st, handles) && handles != []
    ensures var st' := DropHandle(st, handles[0], useHost);
            && Drainable(st', handles[1..]) && st'.seqs == st.seqs
            && (AllFreeSafely(st, handles, useHost) ==> AllFreeSafely(st', handles[1..], useHost))
    ensures AsSet(handles) - {handles[0]} == AsSet(handles[1..])
  {
    hide Referenced, FreesSafely;
    assert forall i :: 0 <= i < |handles| - 1 ==> handles[1..][i] == handles[i + 1] && handles[i + 1] != handles[0];
    assert handles == [handles[0]] + handles[1..];
  }

  lemma {:induction false} DropHandlesKeepsValid(st: Store, handles: seq<nat>, useHost: bool)
    requires ValidExcept(st, AsSet(handles)) && Drainable(st, handles) && AllFreeSafely(st, handles, useHost)
    ensures ValidExcept(DropHandles(st, handles, useHost), {})
    ensures SameViews(st, DropHandles(st, handles, useHost)) && DropHandles(st, handles, useHost).seqs == st.seqs
    decreases |handles|
  {
    hide SlotsOk, SequencesOk, Referenced, NoDuplicates, View, FreesSafely;
    if handles != [] {
      DropFrame(st, handles, useHost);
      DropKeepsValid(st, AsSet(handles), handles[0], useHost);
      DropHandlesKeepsValid(DropHandle(st, handles[0], useHost), handles[1..], useHost);
    } else {
      NothingChanged(st);
    }
  }

  lemma DrainedValid(st: Store, s: nat)
    requires Valid(st) && s < |st.seqs|
    ensures ValidExcept(Drained(st, s), AsSet(st.seqs[s].handles))
    ensures forall id :: Referenced(Drained(st, s).seqs, id) <==> Shared(st.seqs, s, id)
  {
    hide SlotsOk, SequenceOk;
    var st' := Drained(st, s);
    SlotsIgnoreSequences(st, st'.seqs);
    forall o | 0 <= o < |st'.seqs| ensures SequenceOk(st'.tokens, st'.chunks, st'.seqs[o]) {
      assert SequenceOk(st.tokens, st.chunks, st.seqs[o]);
      EmptiedOk(st.tokens, st.chunks, st.seqs[s]);
    }
    forall id | Shared(st.seqs, s, id) ensures Referenced(st'.seqs, id) {
      var o :| 0 <= o < |st.seqs| && o != s && id in st.seqs[o].handles;
      assert id in st'.seqs[o].handles;
    }
    forall id | Referenced(st'.seqs, id) ensures Shared(st.seqs, s, id) {
      var o :| 0 <= o < |st'.seqs| && id in st'.seqs[o].handles;
      assert o != s && id in st.seqs[o].handles;
    }
    forall id | id in st.chunks && !Shared(st.seqs, s, id) ensures id in AsSet(st.seqs[s].handles) {
      var o :| 0 <= o < |st.seqs| && id in st.seqs[o].handles;
      assert o == s;
    }
  }

  lemma EmptiedOk(tokens: nat, chunks: map<nat, Chunk>, q: Sequence)
    ensures SequenceOk(tokens, chunks, Emptied(q))
  {
  }

  /** Without the host allocator a drained handle leaves host pool and other records alone. */
  lemma {:induction false} DropHandlesWithoutHost(st: Store, handles: seq<nat>, id: nat)
    requires Drainable(st, handles)
    ensures var st' := DropHandles(st, handles, false);
            && st'.hostPool == st.hostPool && st'.chunks.Keys <= st.chunks.Keys
            && (forall a :: a in st'.chunks ==> st'.chunks[a] == st.chunks[a])
            && (id in handles && !Referenced(st.seqs, id) ==> id !in st'.chunks)
    decreases |handles|
  {
    hide Referenced;
    if handles != [] {
      DropFrame(st, handles, false);
      DropHandlesWithoutHost(DropHandle(st, handles[0], false), handles[1..], id);
      assert handles == [handles[0]] + handles[1..];
    }
  }

  lemma HostSlotLost(st: Store, chunks': map<nat, Chunk>, id: nat)
    requires SlotsOk(st) && id in st.chunks && st.chunks[id].host.Some? && id !in chunks'
    requires forall a :: a in chunks' ==> a in st.chunks && chunks'[a] == st.chunks[a]
    ensures !Conserved(st.hostPool, HostHeld(chunks'))
  {
    hide MemoryOk, PendingOk, EvictingOk, ChunksOk;
    var slot, held, held' := st.chunks[id].host.value, HostHeld(st.chunks), HostHeld(chunks');
    assert held[id] == slot;
    forall a | a in held' ensures held'[a] != slot {
      assert held[a] == held'[a] && a != id;
    }
    assert slot !in held'.Values;
  }

  /** A slot given back stays free, and the pending copies stay pending. */
  lemma {:induction false} DropHandlesFrees(st: Store, handles: seq<nat>, useHost: bool, id: nat)
    requires Drainable(st, handles) && id in st.chunks
    ensures var st', c := DropHandles(st, handles, useHost), st.chunks[id];
            && st'.mem == st.mem && st'.pending == st.pending
            && st'.vramPool.capacity == st.vramPool.capacity && st'.hostPool.capacity == st.hostPool.capacity
            && (forall x :: x in st.vramPool.free ==> x in st'.vramPool.free)
            && (forall x :: x in st.hostPool.free ==> x in st'.hostPool.free)
            && (id in handles && !Referenced(st.seqs, id) ==>
                  && (c.vram.Some? && c.vram.value < st.vramPool.capacity ==> c.vram.value in st'.vramPool.free)
                  && (useHost && c.host.Some? && c.host.value < st.hostPool.capacity ==> c.host.value in st'.hostPool.free))
    decreases |handles|
  {
    hide Referenced;
    if handles != [] {
      DropFrame(st, handles, useHost);
      var st1 := DropHandle(st, handles[0], useHost);
      assert handles == [handles[0]] + handles[1..];
      if id in st1.chunks {
        DropHandlesFrees(st1, handles[1..], useHost, id);
      } else if handles[1..] != [] {
        assert handles[1] in st1.chunks;
        DropHandlesFrees(st1, handles[1..], useHost, handles[1]);
      }
    }
  }

  lemma BusySlotIsNotFree(st: Store, c: Chunk)
    requires PendingOk(st.mem, st.pending, st.vramPool.free, st.hostPool.free)
    ensures c.vram.Some? && c.vram.value in st.vramPool.free ==> VramIdle(st.pending, c.vram)
    ensures c.host.Some? && c.host.value in st.hostPool.free ==> HostIdle(st.pending, c.host)
  {
  }

  /** Its own list becomes empty, every other list stays. */
  ghost predicate ViewsReset(st: Store, st': Store, s: nat) {
    && CopiesInRange(st.mem, st.pending) && CopiesInRange(st'.mem, st'.pending)
    && s < |st.seqs| && |st'.seqs| == |st.seqs| && View(st', s) == []
    && (forall o: nat :: o < |st.seqs| && o != s ==> View(st', o) == View(st, o))
  }

  /** Every chunk that only this sequence holds can be given back. */
  ghost predicate ResetIsSafe(st: Store, s: nat, useHost: bool)
    requires s < |st.seqs|
  {
    forall i :: 0 <= i < |st.seqs[s].handles| ==>
      var id := st.seqs[s].handles[i];
      id in st.chunks && (!Shared(st.seqs, s, id) ==> FreesSafely(st.pending, st.chunks[id], useHost))
  }

  lemma ResetWell(st: Store, s: nat, useHost: bool)
    requires Valid(st) && s < |st.seqs| && HandlesOk(st.chunks, st.seqs[s]) && ResetIsSafe(st, s, useHost)
    ensures Valid(Reset(st, s, useHost)) && ViewsReset(st, Reset(st, s, useHost), s)
    ensures Reset(st, s, useHost).seqs == st.seqs[s := Emptied(st.seqs[s])]
  {
    hide SequencesOk, Referenced, NoDuplicates, MemoryOk, Conserved, EvictingOk, OnUsedSlots, ChunksOk, Shared, DropHandles, FreesSafely;
    DrainedValid(st, s);
    DropHandlesKeepsValid(Drained(st, s), st.seqs[s].handles, useHost);
    assert Contents(Drained(st, s)) == Contents(st);
  }

  lemma ResetBreaks(st: Store, s: nat, useHost: bool)
    requires Valid(st) && s < |st.seqs| && HandlesOk(st.chunks, st.seqs[s]) && !ResetIsSafe(st, s, useHost)
    ensures !Valid(Reset(st, s, useHost))
  {
    hide SequencesOk, Referenced, NoDuplicates, Shared, DropHandles, MemoryOk, Conserved, EvictingOk, ChunksOk, PendingOk;
    var i :| 0 <= i < |st.seqs[s].handles| && !Shared(st.seqs, s, st.seqs[s].handles[i]) && !FreesSafely(st.pending, st.chunks[st.seqs[s].handles[i]], useHost);
    var id, st' := st.seqs[s].handles[i], Reset(st, s, useHost);
    DrainedValid(st, s);
    if !NoLeak(st.chunks[id], useHost) {
      DropHandlesWithoutHost(Drained(st, s), st.seqs[s].handles, id);
      HostSlotLost(st, st'.chunks, id);
    } else if PendingOk(st'.mem, st'.pending, st'.vramPool.free, st'.hostPool.free) {
      SlotsInUse(st, id);
      DropHandlesFrees(Drained(st, s), st.seqs[s].handles, useHost, id);
      BusySlotIsNotFree(st', st.chunks[id]);
    }
  }

  /**
   Reset empties the sequence's list and leaves every other list alone, freeing a slot only
   when nobody else holds the chunk.  It keeps the cache intact exactly when no host slot is
   left without an owner and no freed slot is still used by a pending copy.
   */
  lemma ResetKeepsValid(st: Store, s: nat, useHost: bool)
    requires Valid(st) && s < |st.seqs|
    ensures HandlesOk(st.chunks, st.seqs[s])
    ensures Valid(Reset(st, s, useHost)) <==> ResetIsSafe(st, s, useHost)
    ensures ResetIsSafe(st, s, useHost) ==>
              ViewsReset(st, Reset(st, s, useHost), s) && Reset(st, s, useHost).seqs == st.seqs[s := Emptied(st.seqs[s])]
    ensures ResetIsSafe(st, s, useHost) ==>
              var q := Reset(st, s, useHost).seqs[s];
              q.handles == [] && q.seqLen == 0 && q.positions == [] && q.version == st.seqs[s].version + 1 && q.loose == st.seqs[s].loose
  {
    hide SlotsOk, ViewsReset, Reset, ResetIsSafe, Referenced, LengthsOk;
    assert SequenceOk(st.tokens, st.chunks, st.seqs[s]);
    if ResetIsSafe(st, s, useHost) {
      ResetWell(st, s, useHost);
    } else {
      ResetBreaks(st, s, useHost);
    }
  }

  /** Once every sequence is empty, every slot of both pools is free again. */
  lemma AllEmptyMeansPoolsFull(st: Store)
    requires Valid(st) && forall s :: 0 <= s < |st.seqs| ==> st.seqs[s].handles == []
    ensures |st.vramPool.free| == st.vramPool.capacity && |st.hostPool.free| == st.hostPool.capacity
    ensures forall v: nat :: v < st.vramPool.capacity <==> v in st.vramPool.free
    ensures forall h: nat :: h < st.hostPool.capacity <==> h in st.hostPool.free
  {
    hide MemoryOk, PendingOk, EvictingOk, ChunksOk, SequencesOk, Conserved;
    assert st.chunks == map[];
    assert VramHeld(st.chunks) == map[] && HostHeld(st.chunks) == map[];
    NothingHeldMeansFull(st.vramPool);
    NothingHeldMeansFull(st.hostPool);
  }
}
