/** Appending a token slot to a sequence. */
module PagedKvAppend {
  import opened Options
  import opened Pools
  import opened PagedKv
  import opened PagedKvOps
  import opened PagedKvTiers
  import opened PagedKvSequences

  // ---------------------------------------------------------------- the record that gains a token

  /** Record `id` counts one token more; a new record counts its first. */
  ghost predicate Extended(st: Store, w: Store, id: nat) {
    && OthersKept(st, w, id) && w.seqs == st.seqs && id in w.chunks
    && (forall a :: a in w.chunks ==> a in st.chunks || a == id)
    && w.chunks[id].len == LenOf(st.chunks, id) + 1
    && |Contents(w)[id]| == w.chunks[id].len
    && Contents(w)[id][..LenOf(st.chunks, id)] == if id in st.chunks then Contents(st)[id] else []
  }

  /** A new one-token record in VRAM. */
  function WithVramChunk(st: Store): Store {
    TakeVram(st, st.next, Chunk(Alloc(st.vramPool).1, None, 1, Vram), [], st.next + 1)
  }

  lemma WithVramChunkExtends(st: Store)
    requires SlotsOk(st) && st.vramPool.free != []
    ensures Extended(st, WithVramChunk(st), st.next)
  {
    hide Contents, Conserved, EvictingOk, MemoryOk, Settle, PendingOk, CopiesInRange;
    var c := Chunk(Alloc(st.vramPool).1, None, 1, Vram);
    NextIsFresh(st);
    TakeVramSlots(st, st.next, c, [], st.next + 1);
    NewContents(WithVramChunk(st), st.next);
  }

  lemma NewContents(w: Store, id: nat)
    requires SlotsOk(w) && id in w.chunks
    ensures id in Contents(w) && |Contents(w)[id]| == w.chunks[id].len
  {
    DataFillsASlot(w, id);
  }

  /** A new record in host memory. */
  function WithHostChunk(st: Store, len: nat): Store {
    st.(hostPool := Alloc(st.hostPool).0,
        chunks := st.chunks[st.next := Chunk(None, Alloc(st.hostPool).1, len, HostPinned)],
        next := st.next + 1)
  }

  lemma WithHostChunkSlots(st: Store, len: nat)
    requires SlotsOk(st) && st.hostPool.free != [] && len <= st.tokens
    ensures OthersKept(st, WithHostChunk(st, len), st.next)
  {
    hide Settle, Conserved, VramHeld, HostHeld, MemoryOk;
    var c := Chunk(None, Alloc(st.hostPool).1, len, HostPinned);
    NextIsFresh(st);
    AllocConserves(st.hostPool, HostHeld(st.chunks), st.next);
    HeldUpdate(st.chunks, st.next, c);
    assert VramHeld(st.chunks) - {st.next} == VramHeld(st.chunks);
    assert forall h :: h in Alloc(st.hostPool).0.free ==> h in st.hostPool.free;
  }

  lemma WithHostChunkExtends(st: Store)
    requires SlotsOk(st) && st.hostPool.free != []
    ensures Extended(st, WithHostChunk(st, 1), st.next)
  {
    hide MemoryOk, Conserved, ChunksOk, OnUsedSlots, EvictingOk, Contents;
    NextIsFresh(st);
    WithHostChunkSlots(st, 1);
    NewContents(WithHostChunk(st, 1), st.next);
  }

  lemma IncrementedHoldsTheSame(st: Store, id: nat)
    requires id in st.chunks
    ensures VramHeld(IncrementLen(st, id).chunks) == VramHeld(st.chunks) && HostHeld(IncrementLen(st, id).chunks) == HostHeld(st.chunks)
  {
  }

  lemma IncrementedSlots(st: Store, id: nat)
    requires SlotsOk(st) && id in st.chunks && st.chunks[id].len < st.tokens
    ensures OthersKept(st, IncrementLen(st, id), id)
  {
    hide Settle, Conserved, PendingOk, CopiesInRange, VramHeld, HostHeld, MemoryOk;
    assert ChunkOk(st.chunks[id], st.tokens);
    IncrementedHoldsTheSame(st, id);
  }

  lemma IncrementedExtends(st: Store, id: nat)
    requires SlotsOk(st) && id in st.chunks && st.chunks[id].len < st.tokens
    ensures Extended(st, IncrementLen(st, id), id)
  {
    hide SlotsOk, MemoryOk;
    IncrementedSlots(st, id);
    DataFillsASlot(st, id);
    NewContents(IncrementLen(st, id), id);
  }

  // ---------------------------------------------------------------- the sequence that gains a token

  /** The handle that receives the next token: the last one, or a new one. */
  ghost predicate Receives(chunks: map<nat, Chunk>, tokens: nat, q: Sequence, id: nat) {
    if id in chunks then q.handles != [] && q.handles[|q.handles| - 1] == id && chunks[id].len < tokens
    else q.handles == [] || LenOf(chunks, q.handles[|q.handles| - 1]) == tokens
  }

  function Grown(chunks: map<nat, Chunk>, q: Sequence, id: nat, position: int): Sequence {
    var q' := if id in chunks then q else q.(handles := q.handles + [id], version := q.version + 1);
    q'.(seqLen := q.seqLen + 1, positions := q.positions + [position])
  }

  lemma GrownHandles(chunks: map<nat, Chunk>, tokens: nat, q: Sequence, id: nat, position: int)
    requires HandlesOk(chunks, q) && Receives(chunks, tokens, q, id)
    ensures var h := if id in chunks then q.handles[..|q.handles| - 1] else q.handles;
            && Grown(chunks, q, id, position).handles == h + [id] && id !in h
            && (id in chunks ==> q.handles == h + [id])
            && forall k :: 0 <= k < |h| ==> h[k] == q.handles[k] && h[k] in chunks
  {
  }

  lemma GrownSequenceOk(chunks: map<nat, Chunk>, chunks': map<nat, Chunk>, tokens: nat, q: Sequence, id: nat, position: int)
    requires SequenceOk(tokens, chunks, q) && !q.loose && Receives(chunks, tokens, q, id)
    requires id in chunks' && chunks'[id].len == LenOf(chunks, id) + 1
    requires forall a :: a in chunks && a != id ==> a in chunks' && chunks'[a] == chunks[a]
    ensures SequenceOk(tokens, chunks', Grown(chunks, q, id, position))
  {
    GrownHandles(chunks, tokens, q, id, position);
    var h := if id in chunks then q.handles[..|q.handles| - 1] else q.handles;
    TotalLenSame(chunks, h, chunks', h);
    assert (h + [id])[..|h|] == h;
  }

  lemma GrownJoin(a: map<nat, SlotData>, b: map<nat, SlotData>, h: seq<nat>, id: nat)
    requires id !in h && id in b && |b[id]| > 0
    requires forall k :: 0 <= k < |h| ==> h[k] in a && h[k] in b && b[h[k]] == a[h[k]]
    requires b[id][..|b[id]| - 1] == if id in a then a[id] else []
    ensures Join(b, h + [id]) == (if id in a then Join(a, h + [id]) else Join(a, h)) + [b[id][|b[id]| - 1]]
  {
    assert (h + [id])[..|h|] == h;
    JoinSame(a, h, b, h);
    assert b[id] == b[id][..|b[id]| - 1] + [b[id][|b[id]| - 1]];
  }

  /** Sequence `s` of `st` gained one token on record `id` of `w`. */
  function GrownStore(st: Store, w: Store, s: nat, id: nat, position: int): Store
    requires s < |st.seqs|
  {
    w.(seqs := st.seqs[s := Grown(st.chunks, st.seqs[s], id, position)])
  }

  ghost predicate CanGrow(st: Store, w: Store, s: nat, id: nat) {
    && Valid(st) && s < |st.seqs| && !st.seqs[s].loose && Extended(st, w, id)
    && Receives(st.chunks, st.tokens, st.seqs[s], id) && !SharedTokens(st.seqs, s, id)
  }

  lemma GrownReferenced(st: Store, w: Store, s: nat, id: nat, position: int, a: nat)
    requires CanGrow(st, w, s, id) && a in w.chunks
    ensures Referenced(GrownStore(st, w, s, id, position).seqs, a)
  {
    hide SlotsOk, OthersKept, LengthsOk, Contents;
    var seqs' := GrownStore(st, w, s, id, position).seqs;
    assert SequenceOk(st.tokens, st.chunks, st.seqs[s]);
    GrownHandles(st.chunks, st.tokens, st.seqs[s], id, position);
    if a == id {
      assert id in seqs'[s].handles;
    } else {
      StillReferenced(st.seqs, seqs', a);
    }
  }

  lemma GrownValid(st: Store, w: Store, s: nat, id: nat, position: int)
    requires CanGrow(st, w, s, id)
    ensures Valid(GrownStore(st, w, s, id, position))
  {
    hide SlotsOk, SequenceOk, Receives, Contents, Grown, Referenced;
    var st' := GrownStore(st, w, s, id, position);
    SlotsIgnoreSequences(w, st'.seqs);
    forall a | a in st'.chunks ensures Referenced(st'.seqs, a) {
      GrownReferenced(st, w, s, id, position, a);
    }
    forall o | 0 <= o < |st'.seqs| ensures SequenceOk(st'.tokens, st'.chunks, st'.seqs[o]) {
      assert SequenceOk(st.tokens, st.chunks, st.seqs[o]);
      if o == s {
        GrownSequenceOk(st.chunks, w.chunks, st.tokens, st.seqs[s], id, position);
      } else if st.seqs[o].loose {
        LooseStaysOk(st.tokens, st.chunks, w.chunks, st.seqs[o]);
      } else {
        UntouchedSequence(st, w, o, id);
      }
    }
  }

  lemma LooseStaysOk(tokens: nat, chunks: map<nat, Chunk>, chunks': map<nat, Chunk>, q: Sequence)
    requires SequenceOk(tokens, chunks, q) && q.loose && chunks.Keys <= chunks'.Keys
    ensures SequenceOk(tokens, chunks', q)
  {
  }

  /** Its own list grows by one entry, every other list stays. */
  ghost predicate ViewsGrown(st: Store, st': Store, s: nat) {
    && CopiesInRange(st.mem, st.pending) && CopiesInRange(st'.mem, st'.pending)
    && s < |st.seqs| && |st'.seqs| == |st.seqs|
    && (exists x :: View(st', s) == View(st, s) + [x])
    && (forall o: nat :: o < |st.seqs| && o != s ==> View(st', o) == View(st, o))
  }

  lemma GrownOwnView(st: Store, w: Store, s: nat, id: nat, position: int)
    requires CanGrow(st, w, s, id)
    ensures var x := Contents(w)[id][|Contents(w)[id]| - 1];
            Join(Contents(w), Grown(st.chunks, st.seqs[s], id, position).handles) == View(st, s) + [x]
  {
    hide MemoryOk, Conserved, ChunksOk, OnUsedSlots, EvictingOk, Settle, ValidPart, LengthsOk, Join, Shared, NoDuplicates;
    var q := st.seqs[s];
    assert SequenceOk(st.tokens, st.chunks, q);
    GrownHandles(st.chunks, st.tokens, q, id, position);
    var h := if id in st.chunks then q.handles[..|q.handles| - 1] else q.handles;
    GrownJoin(Contents(st), Contents(w), h, id);
  }

  lemma GrownViews(st: Store, w: Store, s: nat, id: nat, position: int)
    requires CanGrow(st, w, s, id) && !Shared(st.seqs, s, id)
    ensures ViewsGrown(st, GrownStore(st, w, s, id, position), s)
  {
    hide MemoryOk, Conserved, ChunksOk, OnUsedSlots, EvictingOk, Settle, ValidPart, LengthsOk, Join, NoDuplicates, Receives;
    var st' := GrownStore(st, w, s, id, position);
    assert Contents(st') == Contents(w);
    GrownOwnView(st, w, s, id, position);
    forall o: nat | o < |st.seqs| && o != s ensures View(st', o) == View(st, o) {
      assert SequenceOk(st.tokens, st.chunks, st.seqs[o]);
      UntouchedSequence(st, w, o, id);
    }
  }

  // ---------------------------------------------------------------- append_token

  function Last(q: Sequence): nat
    requires q.handles != []
  {
    q.handles[|q.handles| - 1]
  }

  /** The token would be counted on a partial chunk that another sequence refers to as well. */
  ghost predicate AppendsToShared(st: Store, s: nat)
    requires s < |st.seqs|
  {
    !NeedsChunk(st, st.seqs[s]) && SharedTokens(st.seqs, s, Last(st.seqs[s]))
  }

  /** The same for any other holder, a caller with a loose handle included. */
  ghost predicate AppendsToHeld(st: Store, s: nat)
    requires s < |st.seqs|
  {
    !NeedsChunk(st, st.seqs[s]) && Shared(st.seqs, s, Last(st.seqs[s]))
  }

  lemma TokenHoldersAreHolders(st: Store, s: nat)
    requires s < |st.seqs|
    ensures AppendsToShared(st, s) ==> AppendsToHeld(st, s)
  {
  }

  predicate NoSlotLeft(st: Store, useHost: bool) {
    st.vramPool.free == [] && (!useHost || st.hostPool.free == [])
  }

  /** The record a successful append counts its token on, and the store with that token counted. */
  function Target(st: Store, s: nat): nat
    requires s < |st.seqs|
  {
    if NeedsChunk(st, st.seqs[s]) then st.next else Last(st.seqs[s])
  }

  function Counted(st: Store, s: nat): Store
    requires s < |st.seqs| && (!NeedsChunk(st, st.seqs[s]) ==> Last(st.seqs[s]) in st.chunks)
  {
    if !NeedsChunk(st, st.seqs[s]) then IncrementLen(st, Last(st.seqs[s]))
    else if st.vramPool.free != [] then WithVramChunk(st)
    else WithHostChunk(st, 1)
  }

  lemma AppendIsGrown(st: Store, s: nat, position: int, useHost: bool)
    requires s < |st.seqs| && st.next !in st.chunks
    requires forall i :: 0 <= i < |st.seqs[s].handles| ==> st.seqs[s].handles[i] in st.chunks
    ensures Append(st, s, position, useHost) ==
            if NeedsChunk(st, st.seqs[s]) && NoSlotLeft(st, useHost) then (st, OutOfMemory)
            else (GrownStore(st, Counted(st, s), s, Target(st, s), position), Success)
  {
    var q := st.seqs[s];
    if !NeedsChunk(st, q) {
      assert Append(st, s, position, useHost).0 == GrownStore(st, Counted(st, s), s, Target(st, s), position);
    } else if !NoSlotLeft(st, useHost) {
      var (vp, hp, c) := NewChunk(st.vramPool, st.hostPool, useHost);
      BumpNewChunk(st, s, position, vp, hp, c.value);
      assert st.pending + [] == st.pending;
    }
  }

  lemma BumpNewChunk(st: Store, s: nat, position: int, vp: Pool, hp: Pool, c: Chunk)
    requires s < |st.seqs| && st.next !in st.chunks
    ensures var q := st.seqs[s];
            var q' := q.(handles := q.handles + [st.next], version := q.version + 1,
                         seqLen := q.seqLen + 1, positions := q.positions + [position]);
            Bump(AddChunk(st, s, vp, hp, c), s, position) ==
            st.(vramPool := vp, hostPool := hp, chunks := st.chunks[st.next := c.(len := c.len + 1)],
                next := st.next + 1, seqs := st.seqs[s := q'])
  {
  }

  lemma AppendCanGrow(st: Store, s: nat, useHost: bool)
    requires Valid(st) && s < |st.seqs| && !st.seqs[s].loose && !AppendsToShared(st, s)
    requires NeedsChunk(st, st.seqs[s]) ==> !NoSlotLeft(st, useHost)
    ensures !NeedsChunk(st, st.seqs[s]) ==> Last(st.seqs[s]) in st.chunks
    ensures CanGrow(st, Counted(st, s), s, Target(st, s))
    ensures !AppendsToHeld(st, s) ==> !Shared(st.seqs, s, Target(st, s))
  {
    hide MemoryOk, Conserved, PendingOk, EvictingOk, Extended, LengthsOk, Referenced;
    assert SequenceOk(st.tokens, st.chunks, st.seqs[s]);
    if !NeedsChunk(st, st.seqs[s]) {
      IncrementedExtends(st, Last(st.seqs[s]));
    } else {
      NextNotReferenced(st);
      if st.vramPool.free != [] {
        WithVramChunkExtends(st);
      } else {
        WithHostChunkExtends(st);
      }
    }
  }

  lemma NextNotReferenced(st: Store)
    requires Valid(st)
    ensures st.next !in st.chunks && forall o :: 0 <= o < |st.seqs| ==> st.next !in st.seqs[o].handles
  {
  }

  lemma {:induction false} TotalLenGrows(a: map<nat, Chunk>, b: map<nat, Chunk>, handles: seq<nat>, id: nat)
    requires forall k :: 0 <= k < |handles| ==> LenOf(a, handles[k]) <= LenOf(b, handles[k])
    requires LenOf(a, id) < LenOf(b, id)
    ensures TotalLen(a, handles) <= TotalLen(b, handles)
    ensures id in handles ==> TotalLen(a, handles) < TotalLen(b, handles)
  {
    if handles != [] {
      TotalLenGrows(a, b, handles[..|handles| - 1], id);
    }
  }

  /** Counting a token on a shared partial chunk breaks the other sequence's length. */
  lemma SharedBumpBreaks(st: Store, s: nat, position: int)
    requires Valid(st) && s < |st.seqs| && AppendsToShared(st, s) && Last(st.seqs[s]) in st.chunks
    ensures !SequencesOk(Bump(st, s, position))
  {
    hide SlotsOk, HandlesOk;
    var id, st' := Last(st.seqs[s]), Bump(st, s, position);
    var o :| 0 <= o < |st.seqs| && o != s && id in st.seqs[o].handles && !st.seqs[o].loose;
    assert SequenceOk(st.tokens, st.chunks, st.seqs[o]);
    TotalLenGrows(st.chunks, st'.chunks, st.seqs[o].handles, id);
    assert !LengthsOk(st'.tokens, st'.chunks, st'.seqs[o]);
  }

  /** One more token at `position`; a new chunk is a structural change. */
  predicate Advanced(q: Sequence, q': Sequence, position: int, newChunk: bool) {
    && q'.seqLen == q.seqLen + 1 && q'.positions == q.positions + [position]
    && q.handles <= q'.handles && |q'.handles| == |q.handles| + (if newChunk then 1 else 0)
    && q'.version == q.version + (if newChunk then 1 else 0)
  }

  lemma AppendAdvances(st: Store, s: nat, position: int, useHost: bool)
    requires s < |st.seqs| && forall i :: 0 <= i < |st.seqs[s].handles| ==> st.seqs[s].handles[i] in st.chunks
    requires Append(st, s, position, useHost).1 == Success
    ensures |Append(st, s, position, useHost).0.seqs| == |st.seqs|
    ensures Advanced(st.seqs[s], Append(st, s, position, useHost).0.seqs[s], position, NeedsChunk(st, st.seqs[s]))
  {
  }

  /** A new record with one slot: in VRAM while there is any, and only then in host memory. */
  predicate TakesFrom(st: Store, st': Store) {
    && st.next in st'.chunks
    && var c := st'.chunks[st.next];
    if st.vramPool.free != [] then
      && c.tier == Vram && c.host.None? && c.vram == Alloc(st.vramPool).1
      && st'.vramPool == Alloc(st.vramPool).0 && st'.hostPool == st.hostPool
    else
      && c.tier == HostPinned && c.vram.None? && c.host == Alloc(st.hostPool).1
      && st'.vramPool == st.vramPool && st'.hostPool == Alloc(st.hostPool).0
  }

  lemma AppendTakes(st: Store, s: nat, position: int, useHost: bool)
    requires s < |st.seqs| && forall i :: 0 <= i < |st.seqs[s].handles| ==> st.seqs[s].handles[i] in st.chunks
    requires Append(st, s, position, useHost).1 == Success
    ensures var st' := Append(st, s, position, useHost).0;
            if NeedsChunk(st, st.seqs[s]) then TakesFrom(st, st') else st'.vramPool == st.vramPool && st'.hostPool == st.hostPool
  {
  }

  lemma AppendGrows(st: Store, s: nat, position: int, useHost: bool)
    requires Valid(st) && s < |st.seqs| && !st.seqs[s].loose && !AppendsToShared(st, s)
    requires NeedsChunk(st, st.seqs[s]) ==> !NoSlotLeft(st, useHost)
    ensures Valid(Append(st, s, position, useHost).0) && Append(st, s, position, useHost).1 == Success
    ensures !AppendsToHeld(st, s) ==> ViewsGrown(st, Append(st, s, position, useHost).0, s)
  {
    hide SlotsOk, SequencesOk, CanGrow, ViewsGrown, Append, GrownStore, Counted, Referenced, Shared, SharedTokens;
    HandlesKnown(st, s);
    NextNotReferenced(st);
    AppendIsGrown(st, s, position, useHost);
    AppendCanGrow(st, s, useHost);
    GrownValid(st, Counted(st, s), s, Target(st, s), position);
    if !AppendsToHeld(st, s) {
      GrownViews(st, Counted(st, s), s, Target(st, s), position);
    }
  }

  lemma HandlesKnown(st: Store, s: nat)
    requires Valid(st) && s < |st.seqs|
    ensures forall i :: 0 <= i < |st.seqs[s].handles| ==> st.seqs[s].handles[i] in st.chunks
  {
  }

  /**
   Append fails exactly when a chunk is needed and no pool has a slot, and then changes
   nothing.  When it succeeds, the sequence's list has one more entry and no other list
   changes, unless the token is counted on a partial chunk that somebody else holds as well;
   when another sequence shares it, and exactly then, the cache is corrupted.
   */
  lemma AppendKeepsValid(st: Store, s: nat, position: int, useHost: bool)
    requires Valid(st) && s < |st.seqs| && !st.seqs[s].loose
    ensures forall i :: 0 <= i < |st.seqs[s].handles| ==> st.seqs[s].handles[i] in st.chunks
    ensures Append(st, s, position, useHost).1 == if NeedsChunk(st, st.seqs[s]) && NoSlotLeft(st, useHost) then OutOfMemory else Success
    ensures Append(st, s, position, useHost).1 != Success ==> Append(st, s, position, useHost).0 == st
    ensures Valid(Append(st, s, position, useHost).0) <==> !AppendsToShared(st, s)
    ensures |Append(st, s, position, useHost).0.seqs| == |st.seqs|
    ensures Append(st, s, position, useHost).1 == Success ==> Advanced(st.seqs[s], Append(st, s, position, useHost).0.seqs[s], position, NeedsChunk(st, st.seqs[s]))
    ensures Append(st, s, position, useHost).1 == Success && !AppendsToHeld(st, s) ==> ViewsGrown(st, Append(st, s, position, useHost).0, s)
    ensures Append(st, s, position, useHost).1 == Success && NeedsChunk(st, st.seqs[s]) ==> TakesFrom(st, Append(st, s, position, useHost).0)
    ensures Append(st, s, position, useHost).1 == Success && !NeedsChunk(st, st.seqs[s]) ==>
              Append(st, s, position, useHost).0.vramPool == st.vramPool && Append(st, s, position, useHost).0.hostPool == st.hostPool
  {
    hide SlotsOk, SequencesOk, ViewsGrown, Referenced, SharedTokens, Bump, Alloc, TakesFrom;
    HandlesKnown(st, s);
    if Append(st, s, position, useHost).1 == Success {
      AppendAdvances(st, s, position, useHost);
      AppendTakes(st, s, position, useHost);
    }
    TokenHoldersAreHolders(st, s);
    if AppendsToShared(st, s) {
      SharedBumpBreaks(st, s, position);
    } else if NeedsChunk(st, st.seqs[s]) && NoSlotLeft(st, useHost) {
      NextNotReferenced(st);
      AppendIsGrown(st, s, position, useHost);
    } else {
      AppendGrows(st, s, position, useHost);
    }
  }
}
