/** Single chunk handles in a caller's hands: allocated with host backing, cloned, filled, attached, forgotten. */
module PagedKvHandles {
  import opened Options
  import opened Arithmetic
  import opened Pools
  import opened PagedKv
  import opened PagedKvOps
  import opened PagedKvTiers
  import opened PagedKvAppend
  import opened PagedKvWrite
  import opened PagedKvReset

  // ---------------------------------------------------------------- alloc_with_host_backing

  /** A record with a slot in both tiers; when the host pool is empty, the VRAM slot is pushed back. */
  function AllocWithHostBacking(st: Store): (Store, Outcome)
    requires NoDuplicates(st.vramPool.free) && forall v :: v in st.vramPool.free ==> v < st.vramPool.capacity
  {
    var (vp, v) := Alloc(st.vramPool);
    if v.None? then (st, OutOfMemory)
    else
      var (hp, h) := Alloc(st.hostPool);
      if h.None? then
        assert v.value in st.vramPool.free;
        AllocThenFree(st.vramPool);
        (st.(vramPool := Free(vp, v.value)), OutOfMemory)
      else
        (st.(vramPool := vp, hostPool := hp, chunks := st.chunks[st.next := Chunk(v, h, 0, Vram)], next := st.next + 1,
             seqs := st.seqs + [LooseHandle(st.next)]), Success)
  }

  /** The new record, before anybody holds its handle. */
  function WithBackedChunk(st: Store): Store {
    var w := WithHostChunk(st, 0);
    TakeVram(w, st.next, Chunk(Alloc(st.vramPool).1, Alloc(st.hostPool).1, 0, Vram), [], w.next)
  }

  lemma BackedIsChunkAndHandle(st: Store)
    requires SlotsOk(st) && st.vramPool.free != [] && st.hostPool.free != []
    ensures AllocWithHostBacking(st) == (WithBackedChunk(st).(seqs := st.seqs + [LooseHandle(st.next)]), Success)
  {
    hide MemoryOk, PendingOk, EvictingOk, ChunksOk;
    var w := WithHostChunk(st, 0);
    var c := Chunk(Alloc(st.vramPool).1, Alloc(st.hostPool).1, 0, Vram);
    assert w.chunks[st.next := c] == st.chunks[st.next := c];
    assert st.pending + [] == st.pending;
  }

  lemma OthersKeptTwice(st: Store, w: Store, st': Store, id: nat)
    requires OthersKept(st, w, id) && OthersKept(w, st', id)
    ensures OthersKept(st, st', id)
  {
  }

  lemma WithBackedChunkOthers(st: Store)
    requires SlotsOk(st) && st.vramPool.free != [] && st.hostPool.free != []
    ensures OthersKept(st, WithBackedChunk(st), st.next)
  {
    hide MemoryOk, Conserved, OnUsedSlots, EvictingOk, Contents, Settle;
    var w := WithHostChunk(st, 0);
    var c := Chunk(Alloc(st.vramPool).1, Alloc(st.hostPool).1, 0, Vram);
    WithHostChunkSlots(st, 0);
    TakeVramSlots(w, st.next, c, [], w.next);
    OthersKeptTwice(st, w, TakeVram(w, st.next, c, [], w.next), st.next);
  }

  /** One more holder, of record `id`, with its list; every other list stays. */
  ghost predicate HolderAdded(st: Store, st': Store, id: nat) {
    && CopiesInRange(st.mem, st.pending) && CopiesInRange(st'.mem, st'.pending)
    && |st'.seqs| == |st.seqs| + 1 && id in Contents(st') && View(st', |st.seqs|) == Contents(st')[id]
    && forall s: nat :: s < |st.seqs| ==> View(st', s) == View(st, s)
  }

  lemma HolderOfNewRecord(st: Store, w: Store)
    requires Valid(st) && OthersKept(st, w, st.next) && w.seqs == st.seqs && w.chunks.Keys == st.chunks.Keys + {st.next}
    ensures Valid(w.(seqs := st.seqs + [LooseHandle(st.next)]))
    ensures HolderAdded(st, w.(seqs := st.seqs + [LooseHandle(st.next)]), st.next)
  {
    hide MemoryOk, Conserved, EvictingOk, OnUsedSlots, Settle, ValidPart, LengthsOk, Join, Contents, ChunksOk;
    var st' := w.(seqs := st.seqs + [LooseHandle(st.next)]);
    SlotsIgnoreSequences(w, st'.seqs);
    NextNotReferenced(st);
    forall s: nat | s < |st.seqs| ensures SequenceOk(st'.tokens, st'.chunks, st'.seqs[s]) && View(st', s) == View(st, s) {
      assert SequenceOk(st.tokens, st.chunks, st.seqs[s]);
      UntouchedSequence(st, w, s, st.next);
    }
    assert st.next in st'.seqs[|st.seqs|].handles;
    forall a | a in st.chunks ensures Referenced(st'.seqs, a) {
      StillReferenced(st.seqs, st'.seqs, a);
    }
    ContentsKeys(st');
    JoinOfOne(Contents(st'), [st.next]);
  }

  lemma ContentsKeys(st: Store)
    requires CopiesInRange(st.mem, st.pending)
    ensures Contents(st).Keys == st.chunks.Keys
  {
  }

  /** Both slots or none: a failure leaves everything as it was, success hands the caller one new record. */
  lemma AllocWithHostBackingKeepsValid(st: Store)
    requires Valid(st)
    ensures AllocWithHostBacking(st).1 == Success <==> st.vramPool.free != [] && st.hostPool.free != []
    ensures AllocWithHostBacking(st).1 != Success ==> AllocWithHostBacking(st) == (st, OutOfMemory)
    ensures AllocWithHostBacking(st).1 == Success ==>
              var st' := AllocWithHostBacking(st).0;
              && Valid(st') && HolderAdded(st, st', st.next) && st'.seqs == st.seqs + [LooseHandle(st.next)]
              && st.next in st'.chunks && Contents(st')[st.next] == []
              && st'.chunks[st.next].tier == Vram && st'.chunks[st.next].host.Some?
  {
    hide MemoryOk, EvictingOk, ChunksOk, OnUsedSlots, SequencesOk, Referenced, OthersKept, View, Settle;
    if st.vramPool.free == [] {
    } else if st.hostPool.free == [] {
      AllocThenFree(st.vramPool);
    } else {
      BackedIsChunkAndHandle(st);
      WithBackedChunkOthers(st);
      assert WithBackedChunk(st).chunks.Keys == st.chunks.Keys + {st.next};
      HolderOfNewRecord(st, WithBackedChunk(st));
      NewContents(AllocWithHostBacking(st).0, st.next);
    }
  }

  // ---------------------------------------------------------------- cloning one handle

  /** The entries of a list that belong to its i-th chunk. */
  function Piece(list: seq<Kv>, tokens: nat, i: nat): seq<Kv> {
    if Token(tokens, i, tokens) <= |list| then list[Token(tokens, i, 0)..Token(tokens, i, tokens)]
    else if Token(tokens, i, 0) <= |list| then list[Token(tokens, i, 0)..]
    else []
  }

  lemma ChunkIsPiece(contents: map<nat, SlotData>, handles: seq<nat>, tokens: nat, i: nat)
    requires Paged(contents, handles, tokens) && i < |handles|
    ensures contents[handles[i]] == Piece(Join(contents, handles), tokens, i)
  {
    var n, list, c := |handles|, Join(contents, handles), contents[handles[i]];
    JoinIndex(contents, handles, tokens, n - 1, 0);
    assert |list| == Token(tokens, n - 1, |contents[handles[n - 1]]|);
    TokenOrder(tokens, i, n - 1);
    forall off | 0 <= off < |c| ensures list[Token(tokens, i, 0) + off] == c[off] {
      JoinIndex(contents, handles, tokens, i, off);
    }
    assert |Piece(list, tokens, i)| == |c|;
  }

  lemma TokenOrder(tokens: nat, i: nat, j: nat)
    requires i <= j
    ensures i < j ==> Token(tokens, i, tokens) <= Token(tokens, j, 0)
    ensures Token(tokens, i, tokens) == Token(tokens, i, 0) + tokens
    ensures forall off: nat :: Token(tokens, i, off) == Token(tokens, i, 0) + off && Token(tokens, j, off) == Token(tokens, j, 0) + off
  {
    if i < j {
      MultiplesApart(i, j, tokens);
    }
  }

  /** The caller's clone stands for the entries of that one chunk. */
  lemma CloneKeepsValid(st: Store, s: nat, i: nat)
    requires Valid(st) && s < |st.seqs| && i < |st.seqs[s].handles|
    ensures Valid(CloneHandle(st, s, i)) && SameViews(st, CloneHandle(st, s, i))
    ensures View(CloneHandle(st, s, i), |st.seqs|) == Piece(View(st, s), st.tokens, i)
  {
    hide MemoryOk, Conserved, EvictingOk, OnUsedSlots, ChunksOk, Settle, ValidPart, LengthsOk, Join, Piece, Paged;
    var st', id := CloneHandle(st, s, i), st.seqs[s].handles[i];
    assert SequenceOk(st.tokens, st.chunks, st.seqs[s]);
    SlotsIgnoreSequences(st, st'.seqs);
    forall a | a in st.chunks ensures Referenced(st'.seqs, a) {
      StillReferenced(st.seqs, st'.seqs, a);
    }
    ContentsKeys(st);
    JoinOfOne(Contents(st), [id]);
    ChunkOfView(st, s, i);
  }

  lemma ChunkOfView(st: Store, s: nat, i: nat)
    requires Valid(st) && s < |st.seqs| && i < |st.seqs[s].handles| && st.seqs[s].handles[i] in Contents(st)
    ensures Contents(st)[st.seqs[s].handles[i]] == Piece(View(st, s), st.tokens, i)
  {
    hide MemoryOk, Conserved, EvictingOk, OnUsedSlots, ChunksOk, Settle, ValidPart, LengthsOk, Paged, Referenced, Join;
    assert SequenceOk(st.tokens, st.chunks, st.seqs[s]);
    if st.seqs[s].loose && View(st, s) == [] {
      JoinOfOne(Contents(st), st.seqs[s].handles);
    } else {
      SequenceIsPaged(st, s);
      ChunkIsPiece(Contents(st), st.seqs[s].handles, st.tokens, i);
    }
  }

  // ---------------------------------------------------------------- attaching a handle to a sequence

  /** A full or final chunk that fits behind the sequence's chunks, with a position for each of its tokens. */
  ghost predicate CanAttach(st: Store, s: nat, h: nat, positions: seq<int>) {
    && s < |st.seqs| && h < |st.seqs| && s != h && !st.seqs[s].loose && st.seqs[h].loose
    && |st.seqs[h].handles| == 1 && st.seqs[h].handles[0] !in st.seqs[s].handles
    && 0 < |positions| == LenOf(st.chunks, st.seqs[h].handles[0])
    && (st.seqs[s].handles != [] ==> LenOf(st.chunks, Last(st.seqs[s])) == st.tokens)
  }

  lemma AttachedOk(tokens: nat, chunks: map<nat, Chunk>, q: Sequence, id: nat, positions: seq<int>)
    requires SequenceOk(tokens, chunks, q) && !q.loose && id in chunks && id !in q.handles
    requires 0 < |positions| == LenOf(chunks, id) && (q.handles != [] ==> LenOf(chunks, Last(q)) == tokens)
    ensures SequenceOk(tokens, chunks, q.(handles := q.handles + [id], seqLen := q.seqLen + |positions|,
                                          positions := q.positions + positions, version := q.version + 1))
  {
    hide NoDuplicates;
    assert (q.handles + [id])[..|q.handles|] == q.handles;
    OneMoreDistinct(q.handles, id);
  }

  lemma OneMoreDistinct(handles: seq<nat>, id: nat)
    requires NoDuplicates(handles) && id !in handles
    ensures NoDuplicates(handles + [id])
  {
  }

  /** The handle moves: its list goes to the end of the sequence's list. */
  ghost predicate ListMoved(st: Store, st': Store, s: nat, h: nat) {
    && CopiesInRange(st.mem, st.pending) && CopiesInRange(st'.mem, st'.pending)
    && s < |st.seqs| && h < |st.seqs| && |st'.seqs| == |st.seqs|
    && View(st', s) == View(st, s) + View(st, h) && View(st', h) == []
    && forall o: nat :: o < |st.seqs| && o != s && o != h ==> View(st', o) == View(st, o)
  }

  lemma AttachKeepsValid(st: Store, s: nat, h: nat, positions: seq<int>)
    requires Valid(st) && CanAttach(st, s, h, positions)
    ensures Valid(Attach(st, s, h, positions)) && ListMoved(st, Attach(st, s, h, positions), s, h)
    ensures Attach(st, s, h, positions).seqs[s].positions == st.seqs[s].positions + positions
  {
    hide MemoryOk, Conserved, EvictingOk, OnUsedSlots, ChunksOk, Settle, ValidPart, LengthsOk, Join;
    var st', id, q := Attach(st, s, h, positions), st.seqs[h].handles[0], st.seqs[s];
    assert SequenceOk(st.tokens, st.chunks, q) && SequenceOk(st.tokens, st.chunks, st.seqs[h]);
    assert st.seqs[h].handles == [id];
    SlotsIgnoreSequences(st, st'.seqs);
    AttachedOk(st.tokens, st.chunks, q, id, positions);
    forall o | 0 <= o < |st'.seqs| ensures SequenceOk(st'.tokens, st'.chunks, st'.seqs[o]) {
      assert SequenceOk(st.tokens, st.chunks, st.seqs[o]);
    }
    forall a | a in st.chunks ensures Referenced(st'.seqs, a) {
      HolderStays(st.seqs, st'.seqs, s, h, a);
    }
    ContentsKeys(st);
    JoinOneMore(Contents(st), q.handles, id);
  }

  lemma HolderStays(seqs: seq<Sequence>, seqs': seq<Sequence>, s: nat, h: nat, a: nat)
    requires s < |seqs| == |seqs'| && h < |seqs| && s != h && Referenced(seqs, a)
    requires seqs'[s].handles == seqs[s].handles + seqs[h].handles
    requires forall o :: 0 <= o < |seqs| && o != s && o != h ==> seqs'[o] == seqs[o]
    ensures Referenced(seqs', a)
  {
    var o :| 0 <= o < |seqs| && a in seqs[o].handles;
    assert a in seqs'[if o == h then s else o].handles;
  }

  lemma JoinOneMore(contents: map<nat, SlotData>, handles: seq<nat>, id: nat)
    requires id in contents
    ensures Join(contents, handles + [id]) == Join(contents, handles) + contents[id]
    ensures Join(contents, [id]) == contents[id] && Join(contents, []) == []
  {
    assert (handles + [id])[..|handles|] == handles;
    JoinOfOne(contents, [id]);
  }

  // ---------------------------------------------------------------- counting tokens on a handle

  /** A caller counts one more token on a chunk that nobody else holds. */
  ghost predicate CanIncrement(st: Store, h: nat) {
    && h < |st.seqs| && st.seqs[h].loose && |st.seqs[h].handles| == 1 && st.seqs[h].handles[0] in st.chunks
    && st.chunks[st.seqs[h].handles[0]].len < st.tokens && !Shared(st.seqs, h, st.seqs[h].handles[0])
  }

  lemma IncrementKeepsValid(st: Store, h: nat)
    requires Valid(st) && CanIncrement(st, h)
    ensures Valid(IncrementLen(st, st.seqs[h].handles[0])) && ViewsGrown(st, IncrementLen(st, st.seqs[h].handles[0]), h)
  {
    hide MemoryOk, Conserved, EvictingOk, OnUsedSlots, ChunksOk, Settle, ValidPart, LengthsOk, Join, Referenced;
    var id := st.seqs[h].handles[0];
    var st' := IncrementLen(st, id);
    IncrementedExtends(st, id);
    assert st.seqs[h].handles == [id];
    forall o: nat | o < |st.seqs| ensures SequenceOk(st'.tokens, st'.chunks, st'.seqs[o]) && (o != h ==> View(st', o) == View(st, o)) {
      assert SequenceOk(st.tokens, st.chunks, st.seqs[o]);
      if o == h {
        LooseStaysOk(st.tokens, st.chunks, st'.chunks, st.seqs[o]);
      } else {
        UntouchedSequence(st, st', o, id);
      }
    }
    ContentsKeys(st);
    ContentsKeys(st');
    JoinOfOne(Contents(st), [id]);
    JoinOfOne(Contents(st'), [id]);
    var c := Contents(st')[id];
    assert |c| == LenOf(st.chunks, id) + 1 && c[..|c| - 1] == Contents(st)[id];
    OneLonger(View(st', h), View(st, h));
  }

  lemma OneLonger(longer: seq<Kv>, list: seq<Kv>)
    requires |longer| > 0 && longer[..|longer| - 1] == list
    ensures exists x :: longer == list + [x]
  {
    var x := longer[|longer| - 1];
    assert longer == list + [x];
  }

  // ---------------------------------------------------------------- forgetting a handle

  /** Somebody else holds the chunk of the caller's handle, or the caller's hands are empty. */
  ghost predicate HeldElsewhere(st: Store, h: nat)
    requires h < |st.seqs|
  {
    forall i :: 0 <= i < |st.seqs[h].handles| ==> Shared(st.seqs, h, st.seqs[h].handles[i])
  }

  /**
   A handle that goes out of scope outside of a reset frees no slot.  That changes no other list,
   and it keeps the cache intact exactly when it was not the last handle of its chunk.
   */
  lemma ForgetKeepsValid(st: Store, h: nat)
    requires Valid(st) && h < |st.seqs| && st.seqs[h].loose
    ensures Valid(Forget(st, h)) <==> HeldElsewhere(st, h)
    ensures ViewsReset(st, Forget(st, h), h)
  {
    hide MemoryOk, Conserved, EvictingOk, OnUsedSlots, ChunksOk, Settle, ValidPart, LengthsOk;
    var st' := Forget(st, h);
    SlotsIgnoreSequences(st, st'.seqs);
    forall o | 0 <= o < |st'.seqs| ensures SequenceOk(st'.tokens, st'.chunks, st'.seqs[o]) {
      assert SequenceOk(st.tokens, st.chunks, st.seqs[o]);
    }
    if HeldElsewhere(st, h) {
      forall a | a in st.chunks ensures Referenced(st'.seqs, a) {
        var o :| 0 <= o < |st.seqs| && a in st.seqs[o].handles;
        if o == h {
          assert Shared(st.seqs, h, a);
          o :| 0 <= o < |st.seqs| && o != h && a in st.seqs[o].handles;
        }
        assert a in st'.seqs[o].handles;
      }
    } else {
      var i :| 0 <= i < |st.seqs[h].handles| && !Shared(st.seqs, h, st.seqs[h].handles[i]);
      assert SequenceOk(st.tokens, st.chunks, st.seqs[h]);
      assert !Referenced(st'.seqs, st.seqs[h].handles[i]);
    }
  }
}
