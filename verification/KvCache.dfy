/** The cache as the program holds it: allocators, chunk records and sequences updated in place. */
module KvCache {
  import opened Options
  import opened Pools
  import opened PagedKv
  import opened PagedKvOps
  import opened PagedKvTiers
  import opened PagedKvSequences
  import opened PagedKvAppend
  import opened PagedKvReset
  import opened PagedKvHandles

  class PageAllocator {
    const capacity: nat
    var freeList: seq<nat>

    function AsPool(): Pool
      reads this
    {
      Pool(capacity, freeList)
    }

    constructor (capacity: nat)
      ensures AsPool() == NewPool(capacity)
    {
      this.capacity := capacity;
      freeList := seq(capacity, i requires 0 <= i < capacity => capacity - 1 - i);
    }

    method AllocSlot() returns (slot: Option<nat>)
      modifies this
      ensures (AsPool(), slot) == Alloc(old(AsPool()))
    {
      if |freeList| == 0 {
        return None;
      }
      slot := Some(freeList[|freeList| - 1]);
      freeList := freeList[..|freeList| - 1];
    }

    /** Refused for a slot out of range or already free. */
    method FreeSlot(slot: nat)
      requires CanFree(AsPool(), slot)
      modifies this
      ensures AsPool() == Free(old(AsPool()), slot)
    {
      freeList := freeList + [slot];
    }
  }

  class Cache {
    const tokens: nat
    const vram: PageAllocator
    const host: PageAllocator
    var mem: Memory
    var pending: seq<Copy>
    var chunks: map<nat, Chunk>
    var next: nat
    var seqs: seq<Sequence>
    var evicting: set<nat>

    function State(): Store
      reads this, vram, host
    {
      Store(tokens, vram.AsPool(), host.AsPool(), mem, pending, chunks, next, seqs, evicting)
    }

    constructor (tokens: nat, vramCapacity: nat, hostCapacity: nat, mem: Memory, sequences: nat)
      requires tokens > 0 && MemoryOk(tokens, vramCapacity, hostCapacity, mem)
      ensures vram != host && fresh(vram) && fresh(host)
      ensures State() == Store(tokens, NewPool(vramCapacity), NewPool(hostCapacity), mem, [], map[], 0,
                               seq(sequences, i => EmptySequence()), {})
    {
      this.tokens := tokens;
      vram := new PageAllocator(vramCapacity);
      host := new PageAllocator(hostCapacity);
      this.mem, pending, chunks, next, evicting := mem, [], map[], 0, {};
      seqs := seq(sequences, i => EmptySequence());
    }

    /** Push a new record on a sequence. */
    method PushChunk(s: nat, record: Chunk)
      requires s < |seqs|
      modifies this
      ensures State() == AddChunk(old(State()), s, vram.AsPool(), host.AsPool(), record)
      ensures vram.AsPool() == old(vram.AsPool()) && host.AsPool() == old(host.AsPool())
    {
      chunks := chunks[next := record];
      seqs := seqs[s := seqs[s].(handles := seqs[s].handles + [next], version := seqs[s].version + 1)];
      next := next + 1;
    }

    /** Count one more token on the last chunk of a sequence. */
    method CountToken(s: nat, position: int)
      requires s < |seqs| && seqs[s].handles != [] && Last(seqs[s]) in chunks
      modifies this
      ensures State() == Bump(old(State()), s, position)
    {
      var q := seqs[s];
      chunks := chunks[Last(q) := chunks[Last(q)].(len := chunks[Last(q)].len + 1)];
      seqs := seqs[s := q.(seqLen := q.seqLen + 1, positions := q.positions + [position])];
    }

    method AppendToken(s: nat, position: int, useHost: bool) returns (outcome: Outcome)
      requires vram != host && s < |seqs|
      requires forall i :: 0 <= i < |seqs[s].handles| ==> seqs[s].handles[i] in chunks
      modifies this, vram, host
      ensures (State(), outcome) == Append(old(State()), s, position, useHost)
    {
      hide Bump;
      var q := seqs[s];
      if |q.handles| == 0 || chunks[Last(q)].len >= tokens {
        var v := vram.AllocSlot();
        if v.Some? {
          PushChunk(s, Chunk(v, None, 0, Vram));
        } else {
          if !useHost {
            return OutOfMemory;
          }
          var h := host.AllocSlot();
          if h.None? {
            return OutOfMemory;
          }
          PushChunk(s, Chunk(None, h, 0, HostPinned));
        }
      }
      CountToken(s, position);
      outcome := Success;
    }

    method MakeExclusiveChunk(s: nat, i: nat, copyOk: bool) returns (outcome: Outcome)
      requires vram != host && Copyable(State(), s, i)
      modifies this, vram
      ensures (State(), outcome) == MakeExclusive(old(State()), s, i, copyOk)
    {
      var id := seqs[s].handles[i];
      if !Shared(seqs, s, id) {
        return Success;
      }
      var slot := vram.AllocSlot();
      if slot.None? {
        return OutOfMemory;
      }
      var c := chunks[id];
      if c.len > 0 {
        if !copyOk {
          return CopyFailed;
        }
        pending := pending + [Duplicate(c.vram.value, slot.value)];
      }
      chunks := chunks[next := Chunk(slot, None, c.len, Vram)];
      seqs := seqs[s := seqs[s].(handles := seqs[s].handles[i := next])];
      next := next + 1;
      outcome := Success;
    }

    method PromoteChunk(id: nat, copyOk: bool) returns (outcome: Outcome)
      requires vram != host && id in chunks && chunks[id].tier == HostPinned && chunks[id].host.Some?
      requires NoDuplicates(vram.freeList) && forall v :: v in vram.freeList ==> v < vram.capacity
      modifies this, vram
      ensures (State(), outcome) == Promote(old(State()), id, copyOk)
    {
      assert vram.freeList != [] ==> vram.freeList[|vram.freeList| - 1] in vram.freeList;
      var slot := vram.AllocSlot();
      if slot.None? {
        return OutOfMemory;
      }
      if !copyOk {
        vram.FreeSlot(slot.value);
        return CopyFailed;
      }
      var c := chunks[id];
      pending := pending + [Upload(c.host.value, slot.value)];
      chunks := chunks[id := c.(vram := slot, tier := Vram)];
      outcome := Success;
    }

    method EvictChunk(id: nat, copyOk: bool) returns (outcome: Outcome)
      requires id in chunks && chunks[id].vram.Some? && chunks[id].host.Some?
      modifies this
      ensures (State(), outcome) == Evict(old(State()), id, copyOk)
    {
      if !copyOk {
        return CopyFailed;
      }
      pending := pending + [Download(chunks[id].vram.value, chunks[id].host.value)];
      evicting := evicting + {id};
      outcome := Success;
    }

    /** Wait for the copies one after the other, in the order they were issued. */
    method FlushTierOps()
      requires CopiesInRange(mem, pending)
      modifies this
      ensures State() == Flush(old(State()))
    {
      while pending != []
        invariant CopiesInRange(mem, pending)
        invariant Settle(mem, pending) == old(Settle(mem, pending))
        invariant State() == old(State()).(mem := mem, pending := pending)
        decreases |pending|
      {
        var m := Perform(mem, pending[0]);
        assert forall i :: 0 <= i < |pending| - 1 ==> CopyInRange(m, pending[1..][i]);
        mem, pending := m, pending[1..];
      }
    }

    /**
     Evict, wait for the copies, free.  When issuing the copy fails nothing has changed; when the
     wait fails the copy stays pending, the eviction is given up, and no list has changed.
     */
    method EvictChunkAndFree(id: nat, copyOk: bool, syncOk: bool) returns (outcome: Outcome)
      requires Valid(State()) && vram != host && TierOf(State(), id) == Some(Vram) && chunks[id].host.Some?
      modifies this, vram
      ensures Valid(State()) && SameViews(old(State()), State()) && seqs == old(seqs)
      ensures outcome == Success <==> copyOk && syncOk
      ensures outcome == Success ==> TierOf(State(), id) == Some(HostPinned) && pending == []
      ensures !copyOk ==> State() == old(State())
      ensures copyOk && !syncOk ==>
                && chunks == old(chunks) && mem == old(mem) && vram.AsPool() == old(vram.AsPool()) && evicting == old(evicting)
                && old(chunks)[id].vram.Some?
                && pending == old(pending) + [Download(old(chunks)[id].vram.value, old(chunks)[id].host.value)]
    {
      hide MemoryOk, Conserved, ChunksOk, OnUsedSlots, EvictingOk, SequencesOk, Referenced, View, Settle;
      ghost var st0 := State();
      var before := evicting;
      EvictKeepsValid(st0, id, copyOk);
      outcome := EvictChunk(id, copyOk);
      if outcome != Success {
        return;
      }
      ghost var st1 := State();
      if !syncOk {
        evicting := before;
        GiveUpEvict(st1, before);
        return CopyFailed;
      }
      FlushKeepsValid(st1);
      FlushTierOps();
      ghost var st2 := State();
      FinishEvictKeepsValid(st2, id);
      var c := chunks[id];
      vram.FreeSlot(c.vram.value);
      chunks := chunks[id := c.(vram := None, tier := HostPinned)];
      evicting := evicting - {id};
      assert State() == FinishEvict(st2, id);
    }

    /** A record with a slot in both tiers, its handle in the caller's hands; the VRAM slot is pushed back on failure. */
    method AllocBacked() returns (outcome: Outcome)
      requires vram != host && NoDuplicates(vram.freeList) && forall v :: v in vram.freeList ==> v < vram.capacity
      modifies this, vram, host
      ensures (State(), outcome) == AllocWithHostBacking(old(State()))
    {
      assert vram.freeList != [] ==> vram.freeList[|vram.freeList| - 1] in vram.freeList;
      var v := vram.AllocSlot();
      if v.None? {
        return OutOfMemory;
      }
      var h := host.AllocSlot();
      if h.None? {
        vram.FreeSlot(v.value);
        return OutOfMemory;
      }
      chunks := chunks[next := Chunk(v, h, 0, Vram)];
      seqs := seqs + [LooseHandle(next)];
      next := next + 1;
      outcome := Success;
    }

    /** Drain the handles front to back; the last owner of a record frees its slots, which are never free already. */
    method ResetSequence(s: nat, useHost: bool)
      requires vram != host && SlotsOk(State()) && s < |seqs| && HandlesOk(chunks, seqs[s])
      modifies this, vram, host
      ensures State() == Reset(old(State()), s, useHost)
    {
      hide Referenced, AllFreeSafely, AsSet, MemoryOk, EvictingOk, PendingOk, Conserved, VramHeld, HostHeld;
      ghost var st0 := State();
      var drained := seqs[s].handles;
      seqs := seqs[s := seqs[s].(handles := [], seqLen := 0, positions := [], version := seqs[s].version + 1)];
      while drained != []
        invariant Drainable(State(), drained)
        invariant DropHandles(State(), drained, useHost) == Reset(st0, s, useHost)
        invariant ChunksOk(State()) && Conserved(vram.AsPool(), VramHeld(chunks))
        invariant useHost ==> Conserved(host.AsPool(), HostHeld(chunks))
        decreases |drained|
      {
        var id := drained[0];
        ghost var st1 := State();
        DropFrame(st1, drained, useHost);
        if !Referenced(seqs, id) {
          var c := chunks[id];
          assert ChunkOk(c, tokens);
          SlotsToFree(st1, id, useHost);
          match c.tier {
            case Vram =>
              if c.vram.Some? {
                vram.FreeSlot(c.vram.value);
              }
              if useHost && c.host.Some? {
                host.FreeSlot(c.host.value);
              }
            case HostPinned =>
              if useHost && c.host.Some? {
                host.FreeSlot(c.host.value);
              }
          }
          chunks := chunks - {id};
          evicting := evicting - {id};
        }
        assert State() == DropHandle(st1, id, useHost);
        drained := drained[1..];
      }
    }
  }

  /** An eviction that is given up leaves the cache as it is. */
  lemma GiveUpEvict(st: Store, evicting: set<nat>)
    requires Valid(st) && evicting <= st.evicting
    ensures Valid(st.(evicting := evicting)) && SameViews(st, st.(evicting := evicting))
  {
    hide MemoryOk, Conserved, OnUsedSlots, SequenceOk, Settle, Join;
    assert Contents(st.(evicting := evicting)) == Contents(st);
  }

  /** The slots of a record that goes are not free, and giving them back conserves all slots. */
  lemma SlotsToFree(st: Store, id: nat, useHost: bool)
    requires id in st.chunks && Conserved(st.vramPool, VramHeld(st.chunks))
    requires useHost ==> Conserved(st.hostPool, HostHeld(st.chunks))
    ensures var c := st.chunks[id];
            && (c.vram.Some? ==> CanFree(st.vramPool, c.vram.value))
            && Conserved(Release(st.vramPool, c.vram), VramHeld(st.chunks - {id}))
            && (useHost && c.host.Some? ==> CanFree(st.hostPool, c.host.value))
            && (useHost ==> Conserved(Release(st.hostPool, c.host), HostHeld(st.chunks - {id})))
  {
    hide Conserved;
    var c := st.chunks[id];
    HeldRemove(st.chunks, id);
    ReleaseConserves(st.vramPool, VramHeld(st.chunks), id, c.vram);
    if useHost {
      ReleaseConserves(st.hostPool, HostHeld(st.chunks), id, c.host);
    }
  }
}
