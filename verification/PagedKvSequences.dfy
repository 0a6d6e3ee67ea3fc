/** Sequences: copy-on-write, appending, writing and resetting. */
module PagedKvSequences {
  import opened Options
  import opened Pools
  import opened PagedKv
  import opened PagedKvOps
  import opened PagedKvTiers

  /** Ids are handed out upwards, so the next one is unused. */
  lemma NextIsFresh(st: Store)
    requires SlotsOk(st)
    ensures st.next !in st.chunks && st.next !in VramHeld(st.chunks) && st.next !in HostHeld(st.chunks)
  {
  }

  lemma HandleFacts(st: Store, s: nat, i: nat)
    requires Valid(st) && s < |st.seqs| && i < |st.seqs[s].handles|
    ensures st.seqs[s].handles[i] in st.chunks
    ensures ChunkOk(st.chunks[st.seqs[s].handles[i]], st.tokens)
  {
    assert SequenceOk(st.tokens, st.chunks, st.seqs[s]);
  }

  // ---------------------------------------------------------------- make_exclusive

  ghost predicate CanCopy(st: Store, id: nat) {
    id in st.chunks && st.chunks[id].vram.Some? && st.vramPool.free != []
  }

  /** The record of a private copy of `id`. */
  function CopyRecord(st: Store, id: nat): Chunk
    requires CanCopy(st, id)
  {
    Chunk(Alloc(st.vramPool).1, None, st.chunks[id].len, Vram)
  }

  function CopyOps(st: Store, id: nat): seq<Copy>
    requires CanCopy(st, id)
  {
    if st.chunks[id].len == 0 then [] else [Duplicate(st.chunks[id].vram.value, Alloc(st.vramPool).1.value)]
  }

  ghost function WithCopy(st: Store, id: nat): Store
    requires CanCopy(st, id)
  {
    TakeVram(st, st.next, CopyRecord(st, id), CopyOps(st, id), st.next + 1)
  }

  lemma CopyCanTake(st: Store, id: nat)
    requires SlotsOk(st) && CanCopy(st, id)
    ensures CanTake(st, st.next, CopyRecord(st, id), CopyOps(st, id), st.next + 1)
  {
    NextIsFresh(st);
    assert ChunkOk(st.chunks[id], st.tokens);
    SlotsInUse(st, id);
  }

  lemma WithCopyKeepsOthers(st: Store, id: nat)
    requires SlotsOk(st) && CanCopy(st, id)
    ensures OthersKept(st, WithCopy(st, id), st.next)
  {
    hide OthersKept, CanTake, SlotsOk, TakeVram, CanCopy, CopyOps, CopyRecord;
    CopyCanTake(st, id);
    TakeVramSlots(st, st.next, CopyRecord(st, id), CopyOps(st, id), st.next + 1);
  }

  /** The private copy holds the same valid entries. */
  lemma WithCopyHoldsTheSame(st: Store, id: nat)
    requires SlotsOk(st) && CanCopy(st, id)
    ensures OthersKept(st, WithCopy(st, id), st.next) && st.next in WithCopy(st, id).chunks
    ensures Contents(WithCopy(st, id))[st.next] == Contents(st)[id]
  {
    WithCopyKeepsOthers(st, id);
    CopyCanTake(st, id);
    DataFillsASlot(st, id);
    assert ChunkOk(st.chunks[id], st.tokens);
    if st.chunks[id].len > 0 {
      TakeVramOwn(st, st.next, CopyRecord(st, id), CopyOps(st, id), st.next + 1);
    } else {
      DataFillsASlot(WithCopy(st, id), st.next);
    }
  }

  /** Sequence `s` refers to the record `own` in place of its handle `i`. */
  function SwapHandle(seqs: seq<Sequence>, s: nat, i: nat, own: nat): seq<Sequence>
    requires s < |seqs| && i < |seqs[s].handles|
  {
    seqs[s := seqs[s].(handles := seqs[s].handles[i := own])]
  }

  lemma SwapKeepsReferences(seqs: seq<Sequence>, s: nat, i: nat, own: nat, a: nat)
    requires s < |seqs| && i < |seqs[s].handles| && Shared(seqs, s, seqs[s].handles[i])
    requires Referenced(seqs, a) || a == own
    ensures Referenced(SwapHandle(seqs, s, i, own), a)
  {
    var seqs' := SwapHandle(seqs, s, i, own);
    if a == own {
      assert seqs'[s].handles[i] == own;
    } else if a == seqs[s].handles[i] {
      var o :| 0 <= o < |seqs| && o != s && a in seqs[o].handles;
      assert a in seqs'[o].handles;
    } else {
      var o :| 0 <= o < |seqs| && a in seqs[o].handles;
      var k :| 0 <= k < |seqs[o].handles| && seqs[o].handles[k] == a;
      assert seqs'[o].handles[k] == a;
    }
  }

  lemma SwapKeepsSequence(tokens: nat, chunks: map<nat, Chunk>, chunks': map<nat, Chunk>, q: Sequence, i: nat, own: nat)
    requires SequenceOk(tokens, chunks, q) && i < |q.handles| && own !in chunks && own in chunks'
    requires forall a :: a in chunks ==> a in chunks' && chunks'[a].len == chunks[a].len
    requires chunks'[own].len == chunks[q.handles[i]].len
    ensures SequenceOk(tokens, chunks', q.(handles := q.handles[i := own]))
  {
    var h' := q.handles[i := own];
    assert forall k :: 0 <= k < |h'| ==> LenOf(chunks', h'[k]) == LenOf(chunks, q.handles[k]);
    TotalLenSame(chunks, q.handles, chunks', h');
  }

  /** A store that gained the record `own`, a copy of `id`, and changed nothing else a reader sees. */
  ghost predicate HasCopy(st: Store, st': Store, id: nat, own: nat) {
    && OthersKept(st, st', own) && st'.seqs == st.seqs
    && id in st.chunks && own !in st.chunks && own in st'.chunks
    && (forall a :: a in st'.chunks ==> a in st.chunks || a == own)
    && st'.chunks[own].len == st.chunks[id].len && Contents(st')[own] == Contents(st)[id]
  }

  lemma WithCopyHasCopy(st: Store, id: nat)
    requires SlotsOk(st) && CanCopy(st, id)
    ensures HasCopy(st, WithCopy(st, id), id, st.next)
  {
    hide SlotsOk, OthersKept, Contents;
    NextIsFresh(st);
    WithCopyHoldsTheSame(st, id);
  }

  lemma SwapValid(st: Store, w: Store, s: nat, i: nat, own: nat)
    requires Valid(st) && s < |st.seqs| && i < |st.seqs[s].handles|
    requires HasCopy(st, w, st.seqs[s].handles[i], own) && Shared(st.seqs, s, st.seqs[s].handles[i])
    ensures Valid(w.(seqs := SwapHandle(st.seqs, s, i, own)))
  {
    hide SlotsOk, SequenceOk, LenOf;
    var st' := w.(seqs := SwapHandle(st.seqs, s, i, own));
    SlotsIgnoreSequences(w, st'.seqs);
    forall a | a in st'.chunks ensures Referenced(st'.seqs, a) {
      SwapKeepsReferences(st.seqs, s, i, own, a);
    }
    forall o | 0 <= o < |st'.seqs| ensures SequenceOk(st'.tokens, st'.chunks, st'.seqs[o]) {
      assert SequenceOk(st.tokens, st.chunks, st.seqs[o]);
      if o == s {
        SwapKeepsSequence(st.tokens, st.chunks, w.chunks, st.seqs[s], i, own);
      } else {
        SameSequence(st.tokens, st.chunks, w.chunks, st.seqs[o]);
      }
    }
  }

  lemma SwapJoin(a: map<nat, SlotData>, b: map<nat, SlotData>, handles: seq<nat>, i: nat, own: nat)
    requires forall k :: 0 <= k < |handles| ==> handles[k] in a && handles[k] in b && b[handles[k]] == a[handles[k]]
    requires i < |handles| ==> own in b && b[own] == a[handles[i]]
    ensures Join(b, handles) == Join(a, handles)
    ensures i < |handles| ==> Join(b, handles[i := own]) == Join(a, handles)
  {
    JoinSame(a, handles, b, handles);
    if i < |handles| {
      JoinSame(a, handles, b, handles[i := own]);
    }
  }

  lemma SwapViews(st: Store, w: Store, s: nat, i: nat, own: nat)
    requires Valid(st) && s < |st.seqs| && i < |st.seqs[s].handles|
    requires HasCopy(st, w, st.seqs[s].handles[i], own)
    ensures SameViews(st, w.(seqs := SwapHandle(st.seqs, s, i, own)))
  {
    hide LengthsOk, NoDuplicates, ChunksOk, Conserved, EvictingOk, MemoryOk, OnUsedSlots, Referenced, Settle, ValidPart, Join;
    var st' := w.(seqs := SwapHandle(st.seqs, s, i, own));
    assert Contents(st') == Contents(w);
    forall o: nat | o < |st.seqs| ensures View(st', o) == View(st, o) {
      assert SequenceOk(st.tokens, st.chunks, st.seqs[o]);
      SwapJoin(Contents(st), Contents(w), st.seqs[o].handles, if o == s then i else |st.seqs[o].handles|, own);
    }
  }

  /** Handle `i` of sequence `s` may be made exclusive: a shared chunk must be in VRAM. */
  ghost predicate Copyable(st: Store, s: nat, i: nat) {
    && s < |st.seqs| && i < |st.seqs[s].handles| && st.seqs[s].handles[i] in st.chunks
    && (Shared(st.seqs, s, st.seqs[s].handles[i]) ==> TierOf(st, st.seqs[s].handles[i]) == Some(Vram) && st.chunks[st.seqs[s].handles[i]].vram.Some?)
  }

  lemma OwnCopyIsSwap(st: Store, s: nat, i: nat, id: nat, copyOk: bool)
    requires Copyable(st, s, i) && id == st.seqs[s].handles[i] && Shared(st.seqs, s, id) && st.vramPool.free != []
    requires copyOk || st.chunks[id].len == 0
    ensures MakeExclusive(st, s, i, copyOk) == (WithCopy(st, id).(seqs := SwapHandle(st.seqs, s, i, st.next)), Success)
  {
    assert st.pending + [] == st.pending;
  }

  /** A slot that is neither free nor held by a record is lost. */
  lemma PoppedSlotIsLost(p: Pool, held: map<nat, nat>)
    requires Conserved(p, held) && p.free != []
    ensures !Conserved(Alloc(p).0, held)
  {
    var slot := Alloc(p).1.value;
    assert slot in p.free && slot !in Alloc(p).0.free;
    assert slot !in held.Values;
  }

  lemma NoLongerShared(st: Store, s: nat, i: nat)
    requires SlotsOk(st) && SequencesOk(st) && s < |st.seqs| && i < |st.seqs[s].handles|
    ensures !Shared(SwapHandle(st.seqs, s, i, st.next), s, st.next)
  {
  }

  /** Copy-on-write changes no view and leaves the chunk to one sequence. */
  lemma ExclusiveCopy(st: Store, s: nat, i: nat, copyOk: bool)
    requires Valid(st) && Copyable(st, s, i) && Shared(st.seqs, s, st.seqs[s].handles[i]) && st.vramPool.free != []
    requires copyOk || st.chunks[st.seqs[s].handles[i]].len == 0
    ensures var st' := MakeExclusive(st, s, i, copyOk).0;
            Valid(st') && SameViews(st, st') && !Shared(st'.seqs, s, st.next) && st'.seqs == SwapHandle(st.seqs, s, i, st.next)
  {
    hide SlotsOk, SequencesOk, HasCopy, SameViews, Shared, Contents, WithCopy, MakeExclusive;
    var id := st.seqs[s].handles[i];
    OwnCopyIsSwap(st, s, i, id, copyOk);
    WithCopyHasCopy(st, id);
    SwapValid(st, WithCopy(st, id), s, i, st.next);
    SwapViews(st, WithCopy(st, id), s, i, st.next);
    NoLongerShared(st, s, i);
  }

  /**
   Make-exclusive never changes what a sequence reads; a sole owner's chunk and an exhausted
   pool change nothing, and a copy takes one slot.  It keeps the cache intact except when the copy fails: the slot popped for the
   copy is then in no free list and in no record.
   */
  lemma MakeExclusiveKeepsValid(st: Store, s: nat, i: nat, copyOk: bool)
    requires Valid(st) && Copyable(st, s, i)
    ensures var (st', outcome) := MakeExclusive(st, s, i, copyOk);
            var shared := Shared(st.seqs, s, st.seqs[s].handles[i]);
            && (outcome == OutOfMemory <==> shared && st.vramPool.free == [])
            && (outcome == CopyFailed <==> shared && st.vramPool.free != [] && st.chunks[st.seqs[s].handles[i]].len > 0 && !copyOk)
            && (Valid(st') <==> outcome != CopyFailed)
            && SameViews(st, st')
            && (outcome == OutOfMemory || !shared ==> st' == st)
            && (outcome == Success && shared ==> |st'.vramPool.free| == |st.vramPool.free| - 1 && st'.hostPool == st.hostPool)
            && (outcome == Success ==> !Shared(st'.seqs, s, st'.seqs[s].handles[i]))
  {
    HandleFacts(st, s, i);
    var id := st.seqs[s].handles[i];
    if Shared(st.seqs, s, id) && st.vramPool.free != [] {
      if copyOk || st.chunks[id].len == 0 {
        ExclusiveCopy(st, s, i, copyOk);
      } else {
        PoppedSlotIsLost(st.vramPool, VramHeld(st.chunks));
      }
    }
  }
}
