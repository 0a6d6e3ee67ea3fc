/** Replicating GPU 0's sequence to the worker GPUs, chunk by chunk. */
module Broadcast {
  import opened Options
  import opened Arithmetic
  import opened Pools
  import opened PagedKv
  import opened PagedKvOps
  import opened PagedKvTiers
  import opened PagedKvAppend
  import opened PagedKvWrite

  // ---------------------------------------------------------------- how far two sequences are

  lemma {:induction false} FullChunks(tokens: nat, chunks: map<nat, Chunk>, handles: seq<nat>)
    requires forall k :: 0 <= k < |handles| ==> LenOf(chunks, handles[k]) == tokens
    ensures TotalLen(chunks, handles) == |handles| * tokens
  {
    if handles != [] {
      var n := |handles| - 1;
      FullChunks(tokens, chunks, handles[..n]);
      assert n * tokens + tokens == |handles| * tokens;
    }
  }

  /** Tokens of a sequence: all chunks but the last are full. */
  lemma TotalIs(tokens: nat, chunks: map<nat, Chunk>, q: Sequence)
    requires LengthsOk(tokens, chunks, q) && q.handles != []
    ensures q.seqLen == (|q.handles| - 1) * tokens + LenOf(chunks, q.handles[|q.handles| - 1])
  {
    FullChunks(tokens, chunks, q.handles[..|q.handles| - 1]);
  }

  /** A sequence that has fewer chunks has fewer tokens. */
  lemma FewerChunks(tokens: nat, cw: map<nat, Chunk>, w: Sequence, cg: map<nat, Chunk>, g: Sequence)
    requires LengthsOk(tokens, cw, w) && LengthsOk(tokens, cg, g) && |w.handles| < |g.handles|
    requires w.handles != [] ==> LenOf(cw, w.handles[|w.handles| - 1]) <= tokens
    ensures w.seqLen < g.seqLen
  {
    TotalIs(tokens, cg, g);
    if w.handles != [] {
      TotalIs(tokens, cw, w);
      MultiplesApart(|w.handles| - 1, |g.handles| - 1, tokens);
    }
  }

  /** Of two sequences of which one is not longer, the shorter one is at most as full at every chunk. */
  lemma NotFuller(tokens: nat, cw: map<nat, Chunk>, w: Sequence, cg: map<nat, Chunk>, g: Sequence, k: nat)
    requires LengthsOk(tokens, cw, w) && LengthsOk(tokens, cg, g) && w.seqLen <= g.seqLen
    requires k < |w.handles| && k < |g.handles| && LenOf(cw, w.handles[k]) <= tokens
    ensures LenOf(cw, w.handles[k]) <= LenOf(cg, g.handles[k])
  {
    if k == |g.handles| - 1 {
      TotalIs(tokens, cg, g);
      TotalIs(tokens, cw, w);
      if k < |w.handles| - 1 {
        MultiplesApart(k, |w.handles| - 1, tokens);
      }
    }
  }

  /** A sequence that is less full at a chunk it has reached ends there, and is shorter. */
  lemma LessFull(tokens: nat, cw: map<nat, Chunk>, w: Sequence, cg: map<nat, Chunk>, g: Sequence, k: nat)
    requires LengthsOk(tokens, cw, w) && LengthsOk(tokens, cg, g)
    requires k < |w.handles| && k < |g.handles|
    requires LenOf(cw, w.handles[k]) < LenOf(cg, g.handles[k]) <= tokens
    ensures w.seqLen < g.seqLen
  {
    TotalIs(tokens, cg, g);
    TotalIs(tokens, cw, w);
    if k < |g.handles| - 1 {
      MultiplesApart(k, |g.handles| - 1, tokens);
    }
  }

  // ---------------------------------------------------------------- the two sides

  /** GPU 0: all chunks of the sequence in VRAM and no copy under way. */
  ghost predicate SourceOk(g: Store, s: nat) {
    && Valid(g) && s < |g.seqs| && !g.seqs[s].loose && g.pending == []
    && forall i :: 0 <= i < |g.seqs[s].handles| ==> TierOf(g, g.seqs[s].handles[i]) == Some(Vram)
  }

  /** A worker: one sequence, in VRAM, whose positions are a prefix of GPU 0's. */
  ghost predicate WorkerOk(w: Store, tokens: nat, positions: seq<int>) {
    && Valid(w) && |w.seqs| == 1 && !w.seqs[0].loose && w.tokens == tokens && w.pending == [] && w.evicting == {}
    && (forall id :: id in w.chunks ==> w.chunks[id].tier == Vram)
    && w.seqs[0].positions <= positions
  }

  /** The worker's first n chunks hold what GPU 0's first n chunks hold. */
  ghost predicate Mirrors(contents: map<nat, SlotData>, handles: seq<nat>, w: Store, n: nat) {
    && CopiesInRange(w.mem, w.pending) && |w.seqs| == 1
    && n <= |handles| && n <= |w.seqs[0].handles|
    && forall k :: 0 <= k < n ==>
         && handles[k] in contents && w.seqs[0].handles[k] in w.chunks
         && Contents(w)[w.seqs[0].handles[k]] == contents[handles[k]]
  }

  lemma NeverShared(w: Store)
    requires |w.seqs| == 1
    ensures !AppendsToShared(w, 0) && !AppendsToHeld(w, 0)
  {
  }

  /** Records other than the one that receives the token keep their contents. */
  lemma AppendKeepsRecords(w: Store, position: int, a: nat)
    requires Valid(w) && |w.seqs| == 1 && !w.seqs[0].loose && a in w.chunks && LenOf(w.chunks, a) == w.tokens
    requires NeedsChunk(w, w.seqs[0]) ==> !NoSlotLeft(w, false)
    requires forall i :: 0 <= i < |w.seqs[0].handles| ==> w.seqs[0].handles[i] in w.chunks
    ensures var w' := Append(w, 0, position, false).0;
            CopiesInRange(w'.mem, w'.pending) && a in w'.chunks && Contents(w')[a] == Contents(w)[a]
  {
    hide MemoryOk, Conserved, OnUsedSlots, EvictingOk, SequencesOk, Referenced, Counted, Settle, ValidPart, Receives;
    NeverShared(w);
    NextNotReferenced(w);
    AppendIsGrown(w, 0, position, false);
    AppendCanGrow(w, 0, false);
    SlotsIgnoreSequences(Counted(w, 0), Append(w, 0, position, false).0.seqs);
  }

  lemma AppendStaysInVram(w: Store, position: int)
    requires |w.seqs| == 1 && forall i :: 0 <= i < |w.seqs[0].handles| ==> w.seqs[0].handles[i] in w.chunks
    requires forall id :: id in w.chunks ==> w.chunks[id].tier == Vram
    ensures var w' := Append(w, 0, position, false).0;
            && w'.pending == w.pending && w'.evicting == w.evicting && w'.tokens == w.tokens && |w'.seqs| == 1
            && w'.seqs[0].loose == w.seqs[0].loose
            && forall id :: id in w'.chunks ==> w'.chunks[id].tier == Vram
  {
  }

  lemma AppendKeepsWorker(w: Store, tokens: nat, positions: seq<int>)
    requires WorkerOk(w, tokens, positions) && |w.seqs[0].positions| < |positions|
    requires forall i :: 0 <= i < |w.seqs[0].handles| ==> w.seqs[0].handles[i] in w.chunks
    ensures WorkerOk(Append(w, 0, positions[|w.seqs[0].positions|], false).0, tokens, positions)
  {
    hide SlotsOk, SequencesOk, Referenced, Append;
    var position := positions[|w.seqs[0].positions|];
    NeverShared(w);
    AppendKeepsValid(w, 0, position, false);
    AppendStaysInVram(w, position);
  }

  /** Chunks already mirrored are full, so that the next token never lands in one of them. */
  lemma AppendKeepsMirror(contents: map<nat, SlotData>, handles: seq<nat>, w: Store, n: nat, position: int)
    requires Valid(w) && Mirrors(contents, handles, w, n) && !w.seqs[0].loose
    requires forall k :: 0 <= k < n ==> handles[k] in contents && |contents[handles[k]]| == w.tokens
    requires forall i :: 0 <= i < |w.seqs[0].handles| ==> w.seqs[0].handles[i] in w.chunks
    ensures Mirrors(contents, handles, Append(w, 0, position, false).0, n)
  {
    hide MemoryOk, Conserved, OnUsedSlots, EvictingOk, SequencesOk, Referenced, Settle, ValidPart, Append;
    NeverShared(w);
    AppendKeepsValid(w, 0, position, false);
    var w' := Append(w, 0, position, false).0;
    if Append(w, 0, position, false).1 == Success {
      forall k | 0 <= k < n
        ensures w'.seqs[0].handles[k] == w.seqs[0].handles[k] && w.seqs[0].handles[k] in w'.chunks
        ensures Contents(w')[w.seqs[0].handles[k]] == Contents(w)[w.seqs[0].handles[k]]
      {
        NewContents(w, w.seqs[0].handles[k]);
        AppendKeepsRecords(w, position, w.seqs[0].handles[k]);
      }
    }
  }

  // ---------------------------------------------------------------- one chunk of one worker

  ghost predicate InLockstep(g: Store, s: nat, w: Store, n: nat) {
    && SourceOk(g, s) && n <= |g.seqs[s].handles|
    && WorkerOk(w, g.tokens, g.seqs[s].positions)
    && Mirrors(Contents(g), g.seqs[s].handles, w, n)
  }

  lemma SequenceFacts(st: Store, s: nat)
    requires Valid(st) && s < |st.seqs| && !st.seqs[s].loose
    ensures LengthsOk(st.tokens, st.chunks, st.seqs[s]) && st.seqs[s].seqLen == |st.seqs[s].positions|
    ensures forall i :: 0 <= i < |st.seqs[s].handles| ==>
              st.seqs[s].handles[i] in st.chunks && LenOf(st.chunks, st.seqs[s].handles[i]) == st.chunks[st.seqs[s].handles[i]].len <= st.tokens
  {
  }

  /** While the worker lacks the chunk, GPU 0 has a position the worker does not have. */
  lemma LacksChunk(g: Store, s: nat, w: Store, n: nat)
    requires InLockstep(g, s, w, n) && n < |g.seqs[s].handles| && |w.seqs[0].handles| <= n
    ensures |w.seqs[0].positions| < |g.seqs[s].positions|
  {
    hide SlotsOk, SequencesOk, Referenced, Mirrors, LengthsOk;
    SequenceFacts(g, s);
    SequenceFacts(w, 0);
    FewerChunks(g.tokens, w.chunks, w.seqs[0], g.chunks, g.seqs[s]);
  }

  /** A chunk that is not full is the last, so that the next token needs no other. */
  lemma NotFullIsLast(g: Store, s: nat, w: Store, n: nat)
    requires InLockstep(g, s, w, n) && n < |g.seqs[s].handles| && n < |w.seqs[0].handles|
    requires LenOf(w.chunks, w.seqs[0].handles[n]) < LenOf(g.chunks, g.seqs[s].handles[n])
    ensures !NeedsChunk(w, w.seqs[0])
  {
    hide SlotsOk, SequencesOk, Referenced, Mirrors;
    SequenceFacts(g, s);
    SequenceFacts(w, 0);
  }

  /** Chunks the worker has or can still get. */
  function Room(w: Store): nat
    requires |w.seqs| == 1
  {
    |w.seqs[0].handles| + |w.vramPool.free|
  }

  lemma AppendKeepsRoom(w: Store, position: int)
    requires Valid(w) && |w.seqs| == 1 && !w.seqs[0].loose
    requires forall i :: 0 <= i < |w.seqs[0].handles| ==> w.seqs[0].handles[i] in w.chunks
    ensures var (w', outcome) := Append(w, 0, position, false);
            && |w'.seqs| == 1 && Room(w') == Room(w)
            && outcome == if NeedsChunk(w, w.seqs[0]) && w.vramPool.free == [] then OutOfMemory else Success
  {
    hide MemoryOk, Conserved, OnUsedSlots, EvictingOk, SequencesOk, Referenced, ChunksOk, Settle, ValidPart;
    NextNotReferenced(w);
    AppendIsGrown(w, 0, position, false);
  }

  /** While the worker's chunk is less full, GPU 0 has a position the worker does not have. */
  lemma LacksTokens(g: Store, s: nat, w: Store, n: nat)
    requires InLockstep(g, s, w, n) && n < |g.seqs[s].handles| && n < |w.seqs[0].handles|
    requires LenOf(w.chunks, w.seqs[0].handles[n]) < LenOf(g.chunks, g.seqs[s].handles[n])
    ensures |w.seqs[0].positions| < |g.seqs[s].positions|
  {
    hide SlotsOk, SequencesOk, Referenced, Mirrors, LengthsOk;
    SequenceFacts(g, s);
    SequenceFacts(w, 0);
    LessFull(g.tokens, w.chunks, w.seqs[0], g.chunks, g.seqs[s], n);
  }

  lemma SameFill(g: Store, s: nat, w: Store, n: nat)
    requires InLockstep(g, s, w, n) && n < |g.seqs[s].handles| && n < |w.seqs[0].handles|
    ensures LenOf(w.chunks, w.seqs[0].handles[n]) <= LenOf(g.chunks, g.seqs[s].handles[n])
  {
    hide SlotsOk, SequencesOk, Referenced, Mirrors, LengthsOk;
    SequenceFacts(g, s);
    SequenceFacts(w, 0);
    NotFuller(g.tokens, w.chunks, w.seqs[0], g.chunks, g.seqs[s], n);
  }

  lemma MirroredChunksAreFull(g: Store, s: nat, n: nat)
    requires SourceOk(g, s) && n < |g.seqs[s].handles|
    ensures forall k :: 0 <= k < n ==> g.seqs[s].handles[k] in Contents(g) && |Contents(g)[g.seqs[s].handles[k]]| == g.tokens
  {
    hide MemoryOk, Conserved, ChunksOk, OnUsedSlots, EvictingOk, SequencesOk, Referenced, Settle, ValidPart;
    SequenceFacts(g, s);
    forall k | 0 <= k < n
      ensures g.seqs[s].handles[k] in Contents(g) && |Contents(g)[g.seqs[s].handles[k]]| == g.tokens
    {
      NewContents(g, g.seqs[s].handles[k]);
    }
  }

  /** One more token, at GPU 0's position. */
  lemma AppendInLockstep(g: Store, s: nat, w: Store, n: nat)
    requires InLockstep(g, s, w, n) && n < |g.seqs[s].handles| && |w.seqs[0].positions| < |g.seqs[s].positions|
    ensures forall i :: 0 <= i < |w.seqs[0].handles| ==> w.seqs[0].handles[i] in w.chunks
    ensures var (w', outcome) := Append(w, 0, g.seqs[s].positions[|w.seqs[0].positions|], false);
            && InLockstep(g, s, w', n) && Room(w') == Room(w)
            && outcome == (if NeedsChunk(w, w.seqs[0]) && w.vramPool.free == [] then OutOfMemory else Success)
            && (outcome == Success ==> |w'.seqs[0].positions| == |w.seqs[0].positions| + 1 && w.seqs[0].handles <= w'.seqs[0].handles)
  {
    hide SlotsOk, SequencesOk, Referenced, Append, Contents, View, NeedsChunk, NoSlotLeft, Room;
    HandlesKnown(w, 0);
    AppendKeepsRoom(w, g.seqs[s].positions[|w.seqs[0].positions|]);
    var position := g.seqs[s].positions[|w.seqs[0].positions|];
    AppendKeepsWorker(w, g.tokens, g.seqs[s].positions);
    MirroredChunksAreFull(g, s, n);
    AppendKeepsMirror(Contents(g), g.seqs[s].handles, w, n, position);
    NeverShared(w);
    AppendKeepsValid(w, 0, position, false);
  }

  /** Bytes of GPU 0's n-th chunk. */
  function ChunkBytes(g: Store, s: nat, n: nat): SlotData
    requires s < |g.seqs| && n < |g.seqs[s].handles| && g.seqs[s].handles[n] in g.chunks
  {
    DataOf(g.chunks[g.seqs[s].handles[n]], g.mem)
  }

  lemma SourceChunk(g: Store, s: nat, n: nat)
    requires SourceOk(g, s) && n < |g.seqs[s].handles|
    ensures g.seqs[s].handles[n] in g.chunks && |ChunkBytes(g, s, n)| == g.tokens
    ensures var c := g.chunks[g.seqs[s].handles[n]];
            c.len <= g.tokens && Contents(g)[g.seqs[s].handles[n]] == ChunkBytes(g, s, n)[..c.len]
  {
    hide Conserved, OnUsedSlots, EvictingOk, SequencesOk, Referenced;
    SequenceFacts(g, s);
    assert TierOf(g, g.seqs[s].handles[n]) == Some(Vram);
    DataFillsASlot(g, g.seqs[s].handles[n]);
  }

  lemma OverwriteKeepsValid(w: Store, id: nat, data: SlotData)
    requires Valid(w) && Quiet(w, id) && |data| == w.tokens
    ensures Valid(Overwrite(w, id, data))
  {
    hide MemoryOk, Conserved, OnUsedSlots, EvictingOk, SequenceOk, Referenced;
    OverwriteOthers(w, id, data);
  }

  lemma OverwriteMirrors(contents: map<nat, SlotData>, handles: seq<nat>, w: Store, n: nat, data: SlotData)
    requires SlotsOk(w) && Mirrors(contents, handles, w, n) && n < |handles| && n < |w.seqs[0].handles|
    requires NoDuplicates(w.seqs[0].handles) && Quiet(w, w.seqs[0].handles[n]) && |data| == w.tokens
    requires w.chunks[w.seqs[0].handles[n]].len <= w.tokens
    requires handles[n] in contents && contents[handles[n]] == data[..w.chunks[w.seqs[0].handles[n]].len]
    ensures Mirrors(contents, handles, Overwrite(w, w.seqs[0].handles[n], data), n + 1)
  {
    hide MemoryOk, Conserved, OnUsedSlots, EvictingOk, ValidPart, ChunksOk, Settle;
    OverwriteOthers(w, w.seqs[0].handles[n], data);
    OverwriteOwn(w, w.seqs[0].handles[n], data);
  }

  /** The peer copy completes the mirror of the n-th chunk. */
  lemma CopyMirrors(g: Store, s: nat, w: Store, n: nat)
    requires InLockstep(g, s, w, n) && n < |g.seqs[s].handles| && n < |w.seqs[0].handles|
    requires LenOf(w.chunks, w.seqs[0].handles[n]) == LenOf(g.chunks, g.seqs[s].handles[n])
    ensures g.seqs[s].handles[n] in g.chunks
    ensures InLockstep(g, s, Overwrite(w, w.seqs[0].handles[n], ChunkBytes(g, s, n)), n + 1)
  {
    hide MemoryOk, Conserved, OnUsedSlots, EvictingOk, Referenced, ValidPart, ChunksOk, Settle, LengthsOk;
    SourceChunk(g, s, n);
    SequenceFacts(w, 0);
    assert SequenceOk(w.tokens, w.chunks, w.seqs[0]);
    OverwriteKeepsValid(w, w.seqs[0].handles[n], ChunkBytes(g, s, n));
    OverwriteMirrors(Contents(g), g.seqs[s].handles, w, n, ChunkBytes(g, s, n));
  }

  /**
   Bring one chunk of one worker up to date: append GPU 0's positions until the chunk exists
   and is as full as GPU 0's, then copy its bytes.  That succeeds exactly when the worker has or
   can get that many chunks and the copy is issued.
   */
  method MirrorChunk(g: Store, s: nat, worker: Store, n: nat, copyOk: bool) returns (w: Store, outcome: Outcome)
    requires InLockstep(g, s, worker, n) && n < |g.seqs[s].handles|
    ensures |worker.seqs| == |w.seqs| == 1 && Room(w) == Room(worker)
    ensures outcome == if Room(worker) <= n then OutOfMemory else if copyOk then Success else CopyFailed
    ensures outcome == Success ==> InLockstep(g, s, w, n + 1)
    ensures InLockstep(g, s, w, n)
  {
    hide InLockstep, Append, SlotsOk, SequencesOk, Referenced, Contents, NeedsChunk;
    w := worker;
    LockstepFacts(g, s, w, n);
    while |w.seqs[0].handles| <= n
      invariant InLockstep(g, s, w, n) && |w.seqs| == 1 && Room(w) == Room(worker)
      decreases |g.seqs[s].positions| - |w.seqs[0].positions|
    {
      LacksChunk(g, s, w, n);
      AppendInLockstep(g, s, w, n);
      var appended := Append(w, 0, g.seqs[s].positions[|w.seqs[0].positions|], false);
      w, outcome := appended.0, appended.1;
      LockstepFacts(g, s, w, n);
      if outcome != Success {
        return;
      }
    }
    LockstepFacts(g, s, w, n);
    while LenOf(w.chunks, w.seqs[0].handles[n]) < LenOf(g.chunks, g.seqs[s].handles[n])
      invariant InLockstep(g, s, w, n) && |w.seqs| == 1 && n < |w.seqs[0].handles| && Room(w) == Room(worker)
      decreases |g.seqs[s].positions| - |w.seqs[0].positions|
    {
      LacksTokens(g, s, w, n);
      NotFullIsLast(g, s, w, n);
      AppendInLockstep(g, s, w, n);
      var appended := Append(w, 0, g.seqs[s].positions[|w.seqs[0].positions|], false);
      w, outcome := appended.0, appended.1;
      LockstepFacts(g, s, w, n);
      if outcome != Success {
        return;
      }
    }
    if !copyOk {
      return w, CopyFailed;
    }
    SameFill(g, s, w, n);
    CopyMirrors(g, s, w, n);
    w := Overwrite(w, w.seqs[0].handles[n], ChunkBytes(g, s, n));
    FewerMirrored(g, s, w, n);
    outcome := Success;
  }

  lemma LockstepFacts(g: Store, s: nat, w: Store, n: nat)
    requires InLockstep(g, s, w, n)
    ensures s < |g.seqs| && |w.seqs| == 1 && n <= |g.seqs[s].handles|
  {
  }

  lemma FewerMirrored(g: Store, s: nat, w: Store, n: nat)
    requires InLockstep(g, s, w, n + 1)
    ensures InLockstep(g, s, w, n)
  {
  }

  // ---------------------------------------------------------------- all chunks of all workers

  /** Same positions, chunk count, chunk lengths and entries. */
  ghost predicate Replica(g: Store, s: nat, w: Store) {
    && Valid(g) && Valid(w) && s < |g.seqs| && |w.seqs| == 1
    && w.seqs[0].positions == g.seqs[s].positions
    && |w.seqs[0].handles| == |g.seqs[s].handles|
    && (forall k :: 0 <= k < |g.seqs[s].handles| ==>
          LenOf(w.chunks, w.seqs[0].handles[k]) == LenOf(g.chunks, g.seqs[s].handles[k]))
    && View(w, 0) == View(g, s)
  }

  lemma MirroredLens(g: Store, s: nat, w: Store, n: nat, k: nat)
    requires InLockstep(g, s, w, n) && k < n
    ensures LenOf(w.chunks, w.seqs[0].handles[k]) == LenOf(g.chunks, g.seqs[s].handles[k])
  {
    hide MemoryOk, Conserved, OnUsedSlots, EvictingOk, SequencesOk, Referenced, ValidPart, ChunksOk, Settle;
    SequenceFacts(g, s);
    NewContents(g, g.seqs[s].handles[k]);
    NewContents(w, w.seqs[0].handles[k]);
  }

  lemma SameChunkCount(g: Store, s: nat, w: Store)
    requires s < |g.seqs| && InLockstep(g, s, w, |g.seqs[s].handles|)
    ensures |w.seqs[0].handles| == |g.seqs[s].handles|
  {
    hide SlotsOk, SequencesOk, Referenced, LengthsOk, Contents;
    SequenceFacts(g, s);
    SequenceFacts(w, 0);
    if |w.seqs[0].handles| > |g.seqs[s].handles| {
      FewerChunks(g.tokens, g.chunks, g.seqs[s], w.chunks, w.seqs[0]);
    }
  }

  /** A worker in lockstep on every chunk is a replica. */
  lemma LockstepIsReplica(g: Store, s: nat, w: Store)
    requires s < |g.seqs| && InLockstep(g, s, w, |g.seqs[s].handles|)
    ensures Replica(g, s, w)
  {
    hide MemoryOk, Conserved, OnUsedSlots, EvictingOk, SequencesOk, Referenced, ValidPart, ChunksOk, Settle, Join;
    SameChunkCount(g, s, w);
    forall k | 0 <= k < |g.seqs[s].handles|
      ensures LenOf(w.chunks, w.seqs[0].handles[k]) == LenOf(g.chunks, g.seqs[s].handles[k])
    {
      MirroredLens(g, s, w, |g.seqs[s].handles|, k);
    }
    SequenceFacts(g, s);
    SequenceFacts(w, 0);
    TotalLenSame(g.chunks, g.seqs[s].handles, w.chunks, w.seqs[0].handles);
    JoinSame(Contents(g), g.seqs[s].handles, Contents(w), w.seqs[0].handles);
  }

  lemma PrefixInLockstep(g: Store, s: nat, w: Store)
    requires SourceOk(g, s) && WorkerOk(w, g.tokens, g.seqs[s].positions)
    ensures InLockstep(g, s, w, 0)
  {
  }

  /** Worker i can have as many chunks. */
  ghost predicate HasRoom(w: Store, chunks: nat) {
    |w.seqs| == 1 && Room(w) >= chunks
  }

  /** The peer copies of the first n chunks to the workers, and of chunk n to the first of them, are issued. */
  ghost predicate CopiesIssued(copyOk: (nat, nat) -> bool, home: nat, workers: nat, n: nat, gpu: nat) {
    forall i: nat, k: nat :: i < workers && i != home && (k < n || (k == n && i < gpu)) ==> copyOk(i, k)
  }

  lemma NoCopiesYet(copyOk: (nat, nat) -> bool, home: nat, workers: nat)
    ensures CopiesIssued(copyOk, home, workers, 0, 0)
  {
  }

  lemma OneMoreCopy(copyOk: (nat, nat) -> bool, home: nat, workers: nat, n: nat, gpu: nat)
    requires CopiesIssued(copyOk, home, workers, n, gpu) && (gpu < workers && gpu != home ==> copyOk(gpu, n))
    ensures CopiesIssued(copyOk, home, workers, n, gpu + 1)
  {
  }

  lemma NextChunk(copyOk: (nat, nat) -> bool, home: nat, workers: nat, n: nat)
    requires CopiesIssued(copyOk, home, workers, n, workers)
    ensures CopiesIssued(copyOk, home, workers, n + 1, 0)
  {
  }

  lemma CopyMissing(copyOk: (nat, nat) -> bool, home: nat, workers: nat, n: nat, gpu: nat, chunks: nat)
    requires n < chunks && gpu < workers && gpu != home
    ensures !copyOk(gpu, n) ==> !CopiesIssued(copyOk, home, workers, chunks, 0)
  {
  }

  class MultiGpu {
    const home: nat
    var workers: seq<Store>

    constructor (home: nat, workers: seq<Store>)
      ensures this.home == home && this.workers == workers
    {
      this.home, this.workers := home, workers;
    }

    /**
     Copy GPU 0's sequence to every worker whose sequence is a prefix of it.  That succeeds exactly
     when every worker has or can get as many chunks and every copy is issued, and then every
     worker is a replica; whatever happens, every worker's sequence stays a prefix, and the home
     entry is not touched.
     */
    method BroadcastPagedChunksToWorkers(g: Store, s: nat, copyOk: (nat, nat) -> bool) returns (outcome: Outcome)
      requires SourceOk(g, s)
      requires forall i :: 0 <= i < |workers| && i != home ==> WorkerOk(workers[i], g.tokens, g.seqs[s].positions)
      modifies this
      ensures |workers| == |old(workers)|
      ensures |workers| <= 1 ==> outcome == Success && workers == old(workers)
      ensures |workers| > 1 ==>
                (outcome == Success <==>
                   && (forall i :: 0 <= i < |old(workers)| && i != home ==> HasRoom(old(workers)[i], |g.seqs[s].handles|))
                   && CopiesIssued(copyOk, home, |workers|, |g.seqs[s].handles|, 0))
      ensures |workers| > 1 && outcome == Success ==> forall i :: 0 <= i < |workers| && i != home ==> Replica(g, s, workers[i])
      ensures |workers| > 1 ==> forall i :: 0 <= i < |workers| && i != home ==> WorkerOk(workers[i], g.tokens, g.seqs[s].positions)
      ensures home < |workers| ==> workers[home] == old(workers)[home]
    {
      hide SourceOk, WorkerOk, Mirrors, Replica, CopiesIssued, Room;
      if |workers| <= 1 {
        return Success;
      }
      forall i | 0 <= i < |workers| && i != home ensures InLockstep(g, s, workers[i], 0) && |workers[i].seqs| == 1 {
        PrefixInLockstep(g, s, workers[i]);
        LockstepFacts(g, s, workers[i], 0);
      }
      NoCopiesYet(copyOk, home, |workers|);
      SourceInRange(g, s);
      var n := 0;
      while n < |g.seqs[s].handles|
        invariant n <= |g.seqs[s].handles| && |workers| == |old(workers)|
        invariant forall i :: 0 <= i < |workers| && i != home ==> InLockstep(g, s, workers[i], n)
        invariant forall i :: 0 <= i < |workers| && i != home ==>
                    |workers[i].seqs| == |old(workers)[i].seqs| == 1 && Room(workers[i]) == Room(old(workers)[i]) >= n
        invariant CopiesIssued(copyOk, home, |workers|, n, 0)
        invariant home < |workers| ==> workers[home] == old(workers)[home]
      {
        var gpu := 0;
        while gpu < |workers|
          invariant gpu <= |workers| && |workers| == |old(workers)|
          invariant forall i :: 0 <= i < |workers| && i != home ==> InLockstep(g, s, workers[i], if i < gpu then n + 1 else n)
          invariant forall i :: 0 <= i < |workers| && i != home ==>
                      && |workers[i].seqs| == |old(workers)[i].seqs| == 1
                      && Room(workers[i]) == Room(old(workers)[i]) >= if i < gpu then n + 1 else n
          invariant CopiesIssued(copyOk, home, |workers|, n, gpu)
          invariant home < |workers| ==> workers[home] == old(workers)[home]
        {
          if gpu != home {
            var w;
            w, outcome := MirrorChunk(g, s, workers[gpu], n, copyOk(gpu, n));
            workers := workers[gpu := w];
            if outcome != Success {
              CopyMissing(copyOk, home, |workers|, n, gpu, |g.seqs[s].handles|);
              return;
            }
          }
          OneMoreCopy(copyOk, home, |workers|, n, gpu);
          gpu := gpu + 1;
        }
        NextChunk(copyOk, home, |workers|, n);
        n := n + 1;
      }
      forall i | 0 <= i < |workers| && i != home ensures Replica(g, s, workers[i]) {
        LockstepIsReplica(g, s, workers[i]);
      }
      outcome := Success;
    }
  }

  lemma SourceInRange(g: Store, s: nat)
    requires SourceOk(g, s)
    ensures s < |g.seqs|
  {
  }
}
