/** Writing an entry through the page table. */
module PagedKvWrite {
  import opened Options
  import opened Pools
  import opened PagedKv
  import opened PagedKvOps
  import opened PagedKvTiers

  // ---------------------------------------------------------------- write

  /** Index in its sequence of entry `off` of the `i`-th chunk. */
  function Token(tokens: nat, i: nat, off: nat): nat {
    i * tokens + off
  }

  lemma JoinTokenIndex(a: map<nat, SlotData>, handles: seq<nat>, tokens: nat, i: nat, off: nat)
    requires i < |handles| && forall k :: 0 <= k < |handles| ==> handles[k] in a
    requires forall k :: 0 <= k < |handles| - 1 ==> |a[handles[k]]| == tokens
    requires off < |a[handles[i]]|
    ensures Token(tokens, i, off) < |Join(a, handles)|
  {
    JoinIndex(a, handles, tokens, i, off);
  }

  lemma FrontLength(a: map<nat, SlotData>, front: seq<nat>, tokens: nat, off: nat)
    requires forall k :: 0 <= k < |front| ==> front[k] in a && |a[front[k]]| == tokens
    ensures |Join(a, front)| + off == Token(tokens, |front|, off)
  {
  }

  lemma {:induction false} JoinUpdate(a: map<nat, SlotData>, b: map<nat, SlotData>, handles: seq<nat>, tokens: nat, i: nat, off: nat, kv: Kv)
    requires i < |handles| && NoDuplicates(handles)
    requires forall k :: 0 <= k < |handles| ==> handles[k] in a && handles[k] in b
    requires forall k :: 0 <= k < |handles| && k != i ==> b[handles[k]] == a[handles[k]]
    requires forall k :: 0 <= k < |handles| - 1 ==> |a[handles[k]]| == tokens
    requires off < |a[handles[i]]| && b[handles[i]] == a[handles[i]][off := kv]
    ensures Token(tokens, i, off) < |Join(a, handles)|
    ensures Join(b, handles) == Join(a, handles)[Token(tokens, i, off) := kv]
    decreases |handles|
  {
    hide Token;
    var n := |handles| - 1;
    var front := handles[..n];
    JoinTokenIndex(a, handles, tokens, i, off);
    FrontLength(a, front, tokens, off);
    assert Join(a, handles) == Join(a, front) + a[handles[n]] && Join(b, handles) == Join(b, front) + b[handles[n]];
    if i < n {
      JoinUpdate(a, b, front, tokens, i, off, kv);
      UpdateFront(Join(a, front), a[handles[n]], Token(tokens, i, off), kv);
    } else {
      JoinSame(a, front, b, front);
      UpdateBack(Join(a, front), a[handles[n]], off, kv);
    }
  }

  lemma UpdateFront(x: seq<Kv>, y: seq<Kv>, k: nat, kv: Kv)
    requires k < |x|
    ensures (x + y)[k := kv] == x[k := kv] + y
  {
  }

  lemma UpdateBack(x: seq<Kv>, y: seq<Kv>, k: nat, kv: Kv)
    requires k < |y|
    ensures (x + y)[|x| + k := kv] == x + y[k := kv]
  {
  }

  /** The record is in VRAM, and no pending copy uses its slot. */
  ghost predicate Quiet(st: Store, id: nat) {
    id in st.chunks && st.chunks[id].tier == Vram && VramIdle(st.pending, st.chunks[id].vram)
  }

  lemma OverwriteInSlot(st: Store, id: nat)
    requires SlotsOk(st) && Quiet(st, id)
    ensures var c := st.chunks[id];
            && c.vram.Some? && c.vram.value < |st.mem.vram| && c.len <= st.tokens
            && DataOf(c, st.mem) == st.mem.vram[c.vram.value] && |DataOf(c, st.mem)| == st.tokens
            && DataOf(c, Settled(st)) == DataOf(c, st.mem)
  {
    assert ChunkOk(st.chunks[id], st.tokens);
    SlotsInUse(st, id);
    SettleAroundIdle(st.mem, st.pending, st.chunks[id].vram.value, []);
  }

  /** The stored bytes are there once the copies are done, and everything else is as without the store. */
  lemma OverwriteSettles(st: Store, id: nat, data: SlotData)
    requires SlotsOk(st) && Quiet(st, id) && |data| == st.tokens
    ensures var v, st' := st.chunks[id].vram, Overwrite(st, id, data);
            && v.Some? && v.value < |Settled(st).vram| && PendingOk(st'.mem, st'.pending, st.vramPool.free, st.hostPool.free)
            && Settled(st') == Settled(st).(vram := Settled(st).vram[v.value := data])
            && MemoryOk(st.tokens, st.vramPool.capacity, st.hostPool.capacity, st'.mem)
  {
    hide Conserved, EvictingOk, Settle, ChunksOk, VramIdle;
    OverwriteInSlot(st, id);
    SettleAroundIdle(st.mem, st.pending, st.chunks[id].vram.value, data);
  }

  /** Bytes stored into the slot of one record leave every other record alone. */
  lemma OverwriteOthers(st: Store, id: nat, data: SlotData)
    requires SlotsOk(st) && Quiet(st, id) && |data| == st.tokens
    ensures OthersKept(st, Overwrite(st, id, data), id)
  {
    hide Conserved, NoDuplicates, OnUsedSlots, Settle, MemoryOk, VramIdle;
    OverwriteSettles(st, id, data);
    var m, m' := Settled(st), Settled(Overwrite(st, id, data));
    forall a | a in st.chunks && a != id
      ensures DataOf(st.chunks[a], m') == DataOf(st.chunks[a], m)
      ensures DataOf(st.chunks[a].(tier := HostPinned), m') == DataOf(st.chunks[a].(tier := HostPinned), m)
    {
      SlotsApart(st, a, id);
    }
  }

  lemma OverwriteOwn(st: Store, id: nat, data: SlotData)
    requires SlotsOk(st) && Quiet(st, id) && |data| == st.tokens
    ensures var st' := Overwrite(st, id, data);
            && CopiesInRange(st'.mem, st'.pending) && st'.pending == st.pending && st'.chunks == st.chunks && st'.seqs == st.seqs
            && st.chunks[id].len <= st.tokens && Contents(st')[id] == data[..st.chunks[id].len]
            && Contents(st)[id] == DataOf(st.chunks[id], st.mem)[..st.chunks[id].len]
  {
    hide Conserved, EvictingOk, OnUsedSlots, Settle, VramIdle, MemoryOk;
    OverwriteInSlot(st, id);
    OverwriteSettles(st, id, data);
  }

  /** An entry the kernel may write. */
  ghost predicate Writable(st: Store, id: nat, off: nat) {
    Quiet(st, id) && off < st.chunks[id].len
  }

  /** Record `id` has entry `off` replaced; handles, lengths and all other contents are kept. */
  ghost predicate Rewritten(st: Store, st': Store, id: nat, off: nat, kv: Kv) {
    && OthersKept(st, st', id) && st'.seqs == st.seqs && st'.chunks == st.chunks && id in st.chunks
    && off < |Contents(st)[id]| && Contents(st')[id] == Contents(st)[id][off := kv]
  }

  lemma WriteRewrites(st: Store, id: nat, off: nat, kv: Kv)
    requires SlotsOk(st) && Writable(st, id, off)
    ensures Rewritten(st, Write(st, id, off, kv), id, off, kv)
  {
    hide MemoryOk, Conserved, EvictingOk, OnUsedSlots, OthersKept, ValidPart, Overwrite;
    OverwriteInSlot(st, id);
    var data := DataOf(st.chunks[id], st.mem)[off := kv];
    OverwriteOthers(st, id, data);
    OverwriteOwn(st, id, data);
  }

  ghost predicate ListsRewritten(st: Store, st': Store, id: nat, off: nat, kv: Kv) {
    && CopiesInRange(st.mem, st.pending) && CopiesInRange(st'.mem, st'.pending) && |st'.seqs| == |st.seqs|
    && (forall s: nat :: s < |st.seqs| && id !in st.seqs[s].handles ==> View(st', s) == View(st, s))
    && (forall s: nat, i: nat :: s < |st.seqs| && i < |st.seqs[s].handles| && st.seqs[s].handles[i] == id ==>
          var t := Token(st.tokens, i, off);
          t < |View(st, s)| && View(st', s) == View(st, s)[t := kv])
  }

  lemma RewrittenList(st: Store, st': Store, id: nat, off: nat, kv: Kv, s: nat, i: nat)
    requires Valid(st) && Rewritten(st, st', id, off, kv) && s < |st.seqs| && i < |st.seqs[s].handles| && st.seqs[s].handles[i] == id
    ensures var t := Token(st.tokens, i, off);
            t < |View(st, s)| && View(st', s) == View(st, s)[t := kv]
  {
    hide MemoryOk, Conserved, EvictingOk, OnUsedSlots, Settle, Referenced, Join, ValidPart, TotalLen, ChunksOk;
    var h := st.seqs[s].handles;
    assert SequenceOk(st.tokens, st.chunks, st.seqs[s]);
    forall k | 0 <= k < |h| ensures |Contents(st)[h[k]]| == LenOf(st.chunks, h[k]) {
      DataFillsASlot(st, h[k]);
    }
    JoinUpdate(Contents(st), Contents(st'), h, st.tokens, i, off, kv);
  }

  lemma RewrittenValid(st: Store, st': Store, id: nat, off: nat, kv: Kv)
    requires Valid(st) && Rewritten(st, st', id, off, kv)
    ensures Valid(st')
  {
    hide SlotsOk, SequenceOk, Contents;
  }

  lemma RewrittenViews(st: Store, st': Store, id: nat, off: nat, kv: Kv)
    requires Valid(st) && Rewritten(st, st', id, off, kv)
    ensures ListsRewritten(st, st', id, off, kv)
  {
    hide MemoryOk, Conserved, EvictingOk, OnUsedSlots, Settle, Referenced, Join, ValidPart, LengthsOk, ChunksOk, Token, NoDuplicates;
    forall s: nat | s < |st.seqs| && id !in st.seqs[s].handles ensures View(st', s) == View(st, s) {
      assert SequenceOk(st.tokens, st.chunks, st.seqs[s]);
      JoinSame(Contents(st), st.seqs[s].handles, Contents(st'), st.seqs[s].handles);
    }
    forall s: nat, i: nat | s < |st.seqs| && i < |st.seqs[s].handles| && st.seqs[s].handles[i] == id
      ensures var t := Token(st.tokens, i, off); t < |View(st, s)| && View(st', s) == View(st, s)[t := kv]
    {
      RewrittenList(st, st', id, off, kv, s, i);
    }
  }

  /** A write replaces exactly the addressed entry, in the lists of exactly the sequences that hold the chunk. */
  lemma WriteKeepsValid(st: Store, id: nat, off: nat, kv: Kv)
    requires Valid(st) && Writable(st, id, off)
    ensures Valid(Write(st, id, off, kv))
    ensures ListsRewritten(st, Write(st, id, off, kv), id, off, kv)
  {
    hide SlotsOk, SequencesOk, Rewritten, ListsRewritten, Write, Referenced, Writable;
    WriteRewrites(st, id, off, kv);
    RewrittenValid(st, Write(st, id, off, kv), id, off, kv);
    RewrittenViews(st, Write(st, id, off, kv), id, off, kv);
  }
}
