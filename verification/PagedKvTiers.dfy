/** Tier transitions: promote, evict and the flush contract keep the cache intact. */
module PagedKvTiers {
  import opened Options
  import opened Pools
  import opened PagedKv
  import opened PagedKvOps

  /** No free list shrinks the set of slots copies may touch. */
  lemma PendingAfterAlloc(m: Memory, pending: seq<Copy>, p: Pool, hostFree: seq<nat>)
    requires PendingOk(m, pending, p.free, hostFree) && p.free != []
    ensures PendingOk(m, pending, Alloc(p).0.free, hostFree)
  {
  }

  lemma PendingOneMore(m: Memory, pending: seq<Copy>, c: Copy, vramFree: seq<nat>, hostFree: seq<nat>)
    requires PendingOk(m, pending, vramFree, hostFree) && CopyInRange(m, c) && OnUsedSlots(c, vramFree, hostFree)
    ensures PendingOk(m, pending + [c], vramFree, hostFree)
  {
  }

  // ---------------------------------------------------------------- a record takes a fresh VRAM slot

  /** Record `id` becomes `c`, on the VRAM slot just popped, possibly filled by a copy. */
  function TakeVram(st: Store, id: nat, c: Chunk, copies: seq<Copy>, next: nat): Store {
    st.(vramPool := Alloc(st.vramPool).0, chunks := st.chunks[id := c], pending := st.pending + copies, next := next)
  }

  /** The copy fills `slot` from a slot in use. */
  ghost predicate Fills(st: Store, copy: Copy, slot: nat) {
    match copy
    case Upload(h, v) => v == slot && h < st.hostPool.capacity && h !in st.hostPool.free
    case Duplicate(v, w) => w == slot && v < st.vramPool.capacity && v !in st.vramPool.free
    case Download(_, _) => false
  }

  ghost predicate CanTake(st: Store, id: nat, c: Chunk, copies: seq<Copy>, next: nat) {
    && SlotsOk(st) && st.vramPool.free != []
    && id !in VramHeld(st.chunks)
    && c.vram == Alloc(st.vramPool).1 && c.tier == Vram && c.len <= st.tokens
    && c.host == (if id in st.chunks then st.chunks[id].host else None)
    && id < next && st.next <= next
    && |copies| <= 1 && (copies != [] ==> Fills(st, copies[0], c.vram.value))
  }

  lemma TakeVramPools(st: Store, id: nat, c: Chunk, copies: seq<Copy>, next: nat)
    requires CanTake(st, id, c, copies, next)
    ensures var st' := TakeVram(st, id, c, copies, next);
            && Conserved(st'.vramPool, VramHeld(st'.chunks)) && Conserved(st'.hostPool, HostHeld(st'.chunks)) && ChunksOk(st')
    ensures c.vram.value < st.vramPool.capacity && c.vram.value in st.vramPool.free
    ensures c.vram.value !in Alloc(st.vramPool).0.free
  {
    AllocConserves(st.vramPool, VramHeld(st.chunks), id);
    HeldUpdate(st.chunks, id, c);
    assert id in st.chunks ==> ChunkOk(st.chunks[id], st.tokens);
    assert HostHeld(st.chunks[id := c]) == HostHeld(st.chunks);
  }

  lemma TakeVramCopies(st: Store, id: nat, c: Chunk, copies: seq<Copy>, next: nat)
    requires CanTake(st, id, c, copies, next)
    ensures var st' := TakeVram(st, id, c, copies, next);
            PendingOk(st'.mem, st'.pending, st'.vramPool.free, st'.hostPool.free)
    ensures copies != [] ==> CopyInRange(Settled(st), copies[0])
    ensures Settled(TakeVram(st, id, c, copies, next)) == if copies == [] then Settled(st) else Perform(Settled(st), copies[0])
  {
    TakeVramPools(st, id, c, copies, next);
    PendingAfterAlloc(st.mem, st.pending, st.vramPool, st.hostPool.free);
    if copies != [] {
      assert copies == [copies[0]];
      assert forall v :: v in Alloc(st.vramPool).0.free ==> v in st.vramPool.free;
      PendingOneMore(st.mem, st.pending, copies[0], Alloc(st.vramPool).0.free, st.hostPool.free);
      SettleOneMore(st.mem, st.pending, copies[0]);
    } else {
      assert st.pending + copies == st.pending;
    }
  }

  lemma TakeVramData(st: Store, id: nat, c: Chunk, copies: seq<Copy>, next: nat, a: nat)
    requires CanTake(st, id, c, copies, next) && a in st.chunks && a != id
    ensures var st' := TakeVram(st, id, c, copies, next);
            && CopiesInRange(st'.mem, st'.pending)
            && DataOf(st.chunks[a], Settled(st')) == DataOf(st.chunks[a], Settled(st))
            && DataOf(st.chunks[a].(tier := HostPinned), Settled(st')) == DataOf(st.chunks[a].(tier := HostPinned), Settled(st))
  {
    TakeVramCopies(st, id, c, copies, next);
    TakeVramPools(st, id, c, copies, next);
    SlotsInUse(st, a);
  }

  lemma EvictingHoldsVram(st: Store, e: nat)
    requires SlotsOk(st) && e in st.evicting
    ensures e in st.chunks && e in VramHeld(st.chunks)
  {
  }

  lemma TakeVramEvicting(st: Store, id: nat, c: Chunk, copies: seq<Copy>, next: nat)
    requires CanTake(st, id, c, copies, next)
    ensures var st' := TakeVram(st, id, c, copies, next);
            CopiesInRange(st'.mem, st'.pending) && EvictingOk(st'.chunks, st'.evicting, Settled(st'))
  {
    TakeVramCopies(st, id, c, copies, next);
    forall e | e in st.evicting
      ensures e != id && e in st.chunks && st.chunks[e].tier == Vram && st.chunks[e].host.Some?
      ensures var m' := Settled(TakeVram(st, id, c, copies, next));
              DataOf(st.chunks[e].(tier := HostPinned), m') == DataOf(st.chunks[e], m')
    {
      EvictingHoldsVram(st, e);
      TakeVramData(st, id, c, copies, next, e);
    }
  }

  lemma TakeVramOwn(st: Store, id: nat, c: Chunk, copies: seq<Copy>, next: nat)
    requires CanTake(st, id, c, copies, next) && copies != []
    ensures var st' := TakeVram(st, id, c, copies, next);
            && CopiesInRange(st'.mem, st'.pending) && CopyInRange(Settled(st), copies[0])
            && (copies[0].Upload? ==> DataOf(c, Settled(st')) == Settled(st).host[copies[0].hostSlot])
            && (copies[0].Duplicate? ==> DataOf(c, Settled(st')) == Settled(st).vram[copies[0].from])
  {
    TakeVramCopies(st, id, c, copies, next);
    TakeVramPools(st, id, c, copies, next);
  }

  /** Every record but `id` is there as before, with its contents. */
  ghost predicate OthersKept(st: Store, st': Store, id: nat) {
    && SlotsOk(st) && SlotsOk(st') && st'.tokens == st.tokens
    && (forall a :: a in st.chunks && a != id ==> a in st'.chunks && st'.chunks[a] == st.chunks[a] && Contents(st')[a] == Contents(st)[a])
  }

  lemma TakeVramSlots(st: Store, id: nat, c: Chunk, copies: seq<Copy>, next: nat)
    requires CanTake(st, id, c, copies, next)
    ensures OthersKept(st, TakeVram(st, id, c, copies, next), id)
  {
    var st' := TakeVram(st, id, c, copies, next);
    TakeVramPools(st, id, c, copies, next);
    TakeVramCopies(st, id, c, copies, next);
    TakeVramEvicting(st, id, c, copies, next);
    forall a | a in st.chunks && a != id ensures Contents(st')[a] == Contents(st)[a] {
      TakeVramData(st, id, c, copies, next, a);
    }
  }

  // ---------------------------------------------------------------- promote

  function PromotedRecord(st: Store, id: nat): Chunk
    requires id in st.chunks
  {
    st.chunks[id].(vram := Alloc(st.vramPool).1, tier := Vram)
  }

  ghost predicate CanPromote(st: Store, id: nat) {
    && SlotsOk(st) && id in st.chunks && st.chunks[id].tier == HostPinned && st.chunks[id].host.Some?
    && st.vramPool.free != []
  }

  function UploadOps(st: Store, id: nat): seq<Copy>
    requires id in st.chunks && st.chunks[id].host.Some? && st.vramPool.free != []
  {
    [Upload(st.chunks[id].host.value, Alloc(st.vramPool).1.value)]
  }

  lemma PromoteCanTake(st: Store, id: nat)
    requires CanPromote(st, id)
    ensures CanTake(st, id, PromotedRecord(st, id), UploadOps(st, id), st.next)
  {
    assert ChunkOk(st.chunks[id], st.tokens);
    SlotsInUse(st, id);
  }

  lemma PromoteOthers(st: Store, id: nat)
    requires CanPromote(st, id)
    ensures OthersKept(st, Promote(st, id, true).0, id)
  {
    hide SlotsOk, CanTake, OthersKept;
    PromoteCanTake(st, id);
    TakeVramSlots(st, id, PromotedRecord(st, id), UploadOps(st, id), st.next);
  }

  lemma PromoteOwn(st: Store, id: nat)
    requires CanPromote(st, id)
    ensures var st' := Promote(st, id, true).0;
            && CopiesInRange(st'.mem, st'.pending) && id in st'.chunks && Contents(st')[id] == Contents(st)[id]
  {
    PromoteCanTake(st, id);
    TakeVramOwn(st, id, PromotedRecord(st, id), UploadOps(st, id), st.next);
  }

  lemma PromoteSlots(st: Store, id: nat)
    requires CanPromote(st, id)
    ensures Moved(st, Promote(st, id, true).0)
  {
    hide SlotsOk, Contents;
    PromoteOthers(st, id);
    PromoteOwn(st, id);
  }

  /** A sequence that does not refer to the record keeps its tokens. */
  lemma UntouchedSequence(st: Store, w: Store, o: nat, id: nat)
    requires o < |st.seqs| && SequenceOk(st.tokens, st.chunks, st.seqs[o]) && id !in st.seqs[o].handles && OthersKept(st, w, id)
    ensures SequenceOk(st.tokens, w.chunks, st.seqs[o])
    ensures Join(Contents(w), st.seqs[o].handles) == Join(Contents(st), st.seqs[o].handles)
  {
    hide MemoryOk, Conserved, ChunksOk, OnUsedSlots, EvictingOk, Settle, ValidPart;
    var h := st.seqs[o].handles;
    assert forall k :: 0 <= k < |h| ==> h[k] in st.chunks && h[k] != id;
    TotalLenSame(st.chunks, h, w.chunks, h);
    JoinSame(Contents(st), h, Contents(w), h);
  }

  // ---------------------------------------------------------------- operations that move bytes only

  function TierOf(st: Store, id: nat): Option<Tier> {
    if id in st.chunks then Some(st.chunks[id].tier) else None
  }

  lemma SameSequence(tokens: nat, chunks: map<nat, Chunk>, chunks': map<nat, Chunk>, q: Sequence)
    requires SequenceOk(tokens, chunks, q)
    requires forall a :: a in chunks ==> a in chunks' && chunks'[a].len == chunks[a].len
    ensures SequenceOk(tokens, chunks', q)
  {
    TotalLenSame(chunks, q.handles, chunks', q.handles);
  }

  /** The same records with the same lengths and contents, wherever the bytes now live. */
  ghost predicate Moved(st: Store, st': Store) {
    && SlotsOk(st) && SlotsOk(st') && st'.seqs == st.seqs && st'.tokens == st.tokens
    && (forall a :: a in st'.chunks <==> a in st.chunks)
    && (forall a :: a in st.chunks ==> st'.chunks[a].len == st.chunks[a].len && Contents(st')[a] == Contents(st)[a])
  }

  /** An operation that keeps handles, lengths and contents keeps validity and every view. */
  lemma SameRecords(st: Store, st': Store)
    requires Valid(st) && Moved(st, st')
    ensures Valid(st') && SameViews(st, st')
  {
    forall id | id in st'.chunks ensures Referenced(st'.seqs, id) {
      assert id in st.chunks;
    }
    forall s: nat | s < |st.seqs| ensures SequenceOk(st'.tokens, st'.chunks, st'.seqs[s]) && View(st', s) == View(st, s) {
      assert SequenceOk(st.tokens, st.chunks, st.seqs[s]);
      SameSequence(st.tokens, st.chunks, st'.chunks, st.seqs[s]);
      ViewSame(st, st', s, s);
    }
  }

  lemma PromoteSucceeds(st: Store, id: nat)
    requires Valid(st) && TierOf(st, id) == Some(HostPinned) && st.vramPool.free != []
    ensures st.chunks[id].host.Some?
    ensures Valid(Promote(st, id, true).0) && SameViews(st, Promote(st, id, true).0)
  {
    assert ChunkOk(st.chunks[id], st.tokens);
    PromoteSlots(st, id);
    SameRecords(st, Promote(st, id, true).0);
  }

  /** Promote changes no view; when it fails, it changes nothing at all. */
  lemma PromoteKeepsValid(st: Store, id: nat, copyOk: bool)
    requires Valid(st) && TierOf(st, id) == Some(HostPinned)
    ensures st.chunks[id].host.Some?
    ensures Promote(st, id, copyOk).1 == Success <==> copyOk && st.vramPool.free != []
    ensures Promote(st, id, copyOk).1 != Success ==> Promote(st, id, copyOk).0 == st
    ensures Promote(st, id, copyOk).1 == Success ==> TierOf(Promote(st, id, copyOk).0, id) == Some(Vram)
    ensures Valid(Promote(st, id, copyOk).0) && SameViews(st, Promote(st, id, copyOk).0)
  {
    assert ChunkOk(st.chunks[id], st.tokens);
    if st.vramPool.free != [] {
      if copyOk {
        PromoteSucceeds(st, id);
      } else {
        AllocThenFree(st.vramPool);
      }
    }
  }

  lemma EvictSlots(st: Store, id: nat)
    requires SlotsOk(st) && id in st.chunks && st.chunks[id].tier == Vram && st.chunks[id].host.Some?
    ensures st.chunks[id].vram.Some? && Moved(st, Evict(st, id, true).0)
  {
    var c, m := st.chunks[id], Settled(st);
    assert ChunkOk(c, st.tokens);
    var copy := Download(c.vram.value, c.host.value);
    SlotsInUse(st, id);
    PendingOneMore(st.mem, st.pending, copy, st.vramPool.free, st.hostPool.free);
    SettleOneMore(st.mem, st.pending, copy);
    forall a | a in st.chunks && a != id
      ensures DataOf(st.chunks[a], Perform(m, copy)) == DataOf(st.chunks[a], m)
      ensures DataOf(st.chunks[a].(tier := HostPinned), Perform(m, copy)) == DataOf(st.chunks[a].(tier := HostPinned), m)
    {
      SlotsApart(st, a, id);
    }
  }

  /** Issuing the download changes no view, and the record can then be moved to the host tier. */
  lemma EvictKeepsValid(st: Store, id: nat, copyOk: bool)
    requires Valid(st) && TierOf(st, id) == Some(Vram) && st.chunks[id].host.Some?
    ensures st.chunks[id].vram.Some?
    ensures Valid(Evict(st, id, copyOk).0)
    ensures Evict(st, id, copyOk).1 == Success <==> copyOk
    ensures if copyOk then id in Evict(st, id, copyOk).0.evicting else Evict(st, id, copyOk).0 == st
    ensures SameViews(st, Evict(st, id, copyOk).0)
  {
    assert ChunkOk(st.chunks[id], st.tokens);
    if copyOk {
      EvictSlots(st, id);
      SameRecords(st, Evict(st, id, true).0);
    }
  }

  lemma FreedSlotLeavesPending(m: Memory, pending: seq<Copy>, vramFree: seq<nat>, hostFree: seq<nat>, v: nat)
    requires PendingOk(m, pending, vramFree, hostFree)
    ensures PendingOk(m, pending, vramFree + [v], hostFree) <==> VramIdle(pending, Some(v))
  {
    if VramIdle(pending, Some(v)) {
      forall i | 0 <= i < |pending| ensures OnUsedSlots(pending[i], vramFree + [v], hostFree) {
        assert OnUsedSlots(pending[i], vramFree, hostFree) && !UsesVram(pending[i], v);
      }
    } else {
      var i :| 0 <= i < |pending| && UsesVram(pending[i], v);
      assert !OnUsedSlots(pending[i], vramFree + [v], hostFree);
    }
  }

  lemma FinishEvictPools(st: Store, id: nat)
    requires SlotsOk(st) && id in st.evicting
    ensures id in st.chunks && st.chunks[id].vram.Some? && CanFree(st.vramPool, st.chunks[id].vram.value)
    ensures var st' := FinishEvict(st, id);
            Conserved(st'.vramPool, VramHeld(st'.chunks)) && Conserved(st'.hostPool, HostHeld(st'.chunks))
  {
    hide Conserved, PendingOk, MemoryOk;
    var c := st.chunks[id];
    assert ChunkOk(c, st.tokens);
    FreeConserves(st.vramPool, VramHeld(st.chunks), id);
    HeldUpdate(st.chunks, id, c.(vram := None, tier := HostPinned));
    assert HostHeld(st.chunks)[id := c.host.value] == HostHeld(st.chunks);
  }

  lemma FinishEvictSlots(st: Store, id: nat)
    requires SlotsOk(st) && id in st.evicting && id in st.chunks && VramIdle(st.pending, st.chunks[id].vram)
    ensures st.chunks[id].vram.Some? && CanFree(st.vramPool, st.chunks[id].vram.value)
    ensures Moved(st, FinishEvict(st, id))
  {
    hide Conserved, PendingOk, Settle, VramIdle, NoDuplicates;
    FinishEvictPools(st, id);
    FreedSlotLeavesPending(st.mem, st.pending, st.vramPool.free, st.hostPool.free, st.chunks[id].vram.value);
    assert st.evicting - {id} <= st.evicting;
  }

  /**
   Freeing the slot moves the record to the host tier and changes no view.  It keeps the cache
   intact exactly when no pending copy still uses the slot, as after a flush.
   */
  lemma FinishEvictKeepsValid(st: Store, id: nat)
    requires Valid(st) && id in st.evicting
    ensures id in st.chunks && st.chunks[id].vram.Some? && CanFree(st.vramPool, st.chunks[id].vram.value)
    ensures Valid(FinishEvict(st, id)) <==> VramIdle(st.pending, st.chunks[id].vram)
    ensures VramIdle(st.pending, st.chunks[id].vram) ==> SameViews(st, FinishEvict(st, id))
  {
    hide Conserved, MemoryOk, OnUsedSlots, SequencesOk, Referenced, ChunksOk, SameViews, VramIdle;
    FinishEvictPools(st, id);
    if VramIdle(st.pending, st.chunks[id].vram) {
      FinishEvictSlots(st, id);
      SameRecords(st, FinishEvict(st, id));
    } else {
      FreedSlotLeavesPending(st.mem, st.pending, st.vramPool.free, st.hostPool.free, st.chunks[id].vram.value);
    }
  }
}
