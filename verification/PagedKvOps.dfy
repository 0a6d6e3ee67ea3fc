/** The operations of the paged KV cache as functions of its state. */
module PagedKvOps {
  import opened Options
  import opened Pools
  import opened PagedKv

  /** Another sequence than `s` refers to the record: its reference count is above one. */
  predicate Shared(seqs: seq<Sequence>, s: nat, id: nat) {
    exists o :: 0 <= o < |seqs| && o != s && id in seqs[o].handles
  }

  /** As `Shared`, counting only holders that keep track of tokens. */
  predicate SharedTokens(seqs: seq<Sequence>, s: nat, id: nat) {
    exists o :: 0 <= o < |seqs| && o != s && id in seqs[o].handles && !seqs[o].loose
  }

  /** Cloning the handles of a sequence. */
  function Fork(st: Store, s: nat): Store
    requires s < |st.seqs|
  {
    st.(seqs := st.seqs + [st.seqs[s]])
  }

  /**
   Give sequence `s` its own copy of chunk `i`.  A failed copy returns an error without
   giving the new slot back.
   */
  function MakeExclusive(st: Store, s: nat, i: nat, copyOk: bool): (Store, Outcome)
    requires s < |st.seqs| && i < |st.seqs[s].handles| && st.seqs[s].handles[i] in st.chunks
    requires Shared(st.seqs, s, st.seqs[s].handles[i]) ==> st.chunks[st.seqs[s].handles[i]].vram.Some?
  {
    var id := st.seqs[s].handles[i];
    if !Shared(st.seqs, s, id) then (st, Success)
    else
      var (pool, slot) := Alloc(st.vramPool);
      if slot.None? then (st, OutOfMemory)
      else
        var c := st.chunks[id];
        if c.len > 0 && !copyOk then (st.(vramPool := pool), CopyFailed)
        else (OwnCopy(st.(vramPool := pool), s, i, slot.value), Success)
  }

  /** Replace handle `i` of sequence `s` by a new record on VRAM slot `slot`, copying the bytes. */
  function OwnCopy(st: Store, s: nat, i: nat, slot: nat): Store
    requires s < |st.seqs| && i < |st.seqs[s].handles| && st.seqs[s].handles[i] in st.chunks
    requires st.chunks[st.seqs[s].handles[i]].vram.Some?
  {
    var c, q := st.chunks[st.seqs[s].handles[i]], st.seqs[s];
    st.(chunks := st.chunks[st.next := Chunk(Some(slot), None, c.len, Vram)],
        next := st.next + 1,
        seqs := st.seqs[s := q.(handles := q.handles[i := st.next])],
        pending := if c.len == 0 then st.pending else st.pending + [Duplicate(c.vram.value, slot)])
  }

  /** The chunk a full or empty sequence needs, from VRAM or, when allowed, from host memory. */
  function NewChunk(vramPool: Pool, hostPool: Pool, useHost: bool): (Pool, Pool, Option<Chunk>) {
    var (vp, v) := Alloc(vramPool);
    if v.Some? then (vp, hostPool, Some(Chunk(v, None, 0, Vram)))
    else if !useHost then (vramPool, hostPool, None)
    else
      var (hp, h) := Alloc(hostPool);
      if h.None? then (vramPool, hostPool, None)
      else (vramPool, hp, Some(Chunk(None, h, 0, HostPinned)))
  }

  predicate NeedsChunk(st: Store, q: Sequence) {
    q.handles == [] || LenOf(st.chunks, q.handles[|q.handles| - 1]) >= st.tokens
  }

  /** Count one more token on the last chunk, which is shared by everyone who refers to it. */
  function Bump(st: Store, s: nat, position: int): Store
    requires s < |st.seqs| && st.seqs[s].handles != []
    requires st.seqs[s].handles[|st.seqs[s].handles| - 1] in st.chunks
  {
    var q := st.seqs[s];
    var id := q.handles[|q.handles| - 1];
    st.(chunks := st.chunks[id := st.chunks[id].(len := st.chunks[id].len + 1)],
        seqs := st.seqs[s := q.(seqLen := q.seqLen + 1, positions := q.positions + [position])])
  }

  function AddChunk(st: Store, s: nat, vp: Pool, hp: Pool, c: Chunk): Store
    requires s < |st.seqs|
  {
    var q := st.seqs[s];
    st.(vramPool := vp, hostPool := hp,
        chunks := st.chunks[st.next := c], next := st.next + 1,
        seqs := st.seqs[s := q.(handles := q.handles + [st.next], version := q.version + 1)])
  }

  /** Append a token slot, allocating a chunk when the current one is full. */
  function Append(st: Store, s: nat, position: int, useHost: bool): (Store, Outcome)
    requires s < |st.seqs|
    requires forall i :: 0 <= i < |st.seqs[s].handles| ==> st.seqs[s].handles[i] in st.chunks
  {
    if !NeedsChunk(st, st.seqs[s]) then (Bump(st, s, position), Success)
    else
      var (vp, hp, c) := NewChunk(st.vramPool, st.hostPool, useHost);
      if c.None? then (st, OutOfMemory)
      else (Bump(AddChunk(st, s, vp, hp, c.value), s, position), Success)
  }

  /** Bring a host-tier chunk back to VRAM; the copy is in flight afterwards. */
  function Promote(st: Store, id: nat, copyOk: bool): (Store, Outcome)
    requires id in st.chunks && st.chunks[id].tier == HostPinned && st.chunks[id].host.Some?
    requires NoDuplicates(st.vramPool.free) && forall v :: v in st.vramPool.free ==> v < st.vramPool.capacity
  {
    var (pool, slot) := Alloc(st.vramPool);
    if slot.None? then (st, OutOfMemory)
    else if !copyOk then
      assert st.vramPool.free[|st.vramPool.free| - 1] in st.vramPool.free;
      AllocThenFree(st.vramPool);
      (st.(vramPool := Free(pool, slot.value)), CopyFailed)
    else
      var c := st.chunks[id];
      (st.(vramPool := pool,
           pending := st.pending + [Upload(c.host.value, slot.value)],
           chunks := st.chunks[id := c.(vram := slot, tier := Vram)]), Success)
  }

  /** First half of an eviction: issue the copy to the host slot, free nothing. */
  function Evict(st: Store, id: nat, copyOk: bool): (Store, Outcome)
    requires id in st.chunks && st.chunks[id].vram.Some? && st.chunks[id].host.Some?
  {
    var c := st.chunks[id];
    if !copyOk then (st, CopyFailed)
    else (st.(pending := st.pending + [Download(c.vram.value, c.host.value)], evicting := st.evicting + {id}), Success)
  }

  /** Wait for every copy issued so far. */
  function Flush(st: Store): Store
    requires CopiesInRange(st.mem, st.pending)
  {
    st.(mem := Settle(st.mem, st.pending), pending := [])
  }

  /** The copy engine finishes the oldest copy. */
  function CompleteOne(st: Store): Store
    requires CopiesInRange(st.mem, st.pending) && st.pending != []
  {
    st.(mem := Perform(st.mem, st.pending[0]), pending := st.pending[1..])
  }

  /** Second half of an eviction: free the VRAM slot and flip the tier. */
  function FinishEvict(st: Store, id: nat): Store
    requires id in st.chunks && st.chunks[id].vram.Some? && CanFree(st.vramPool, st.chunks[id].vram.value)
  {
    var c := st.chunks[id];
    st.(vramPool := Free(st.vramPool, c.vram.value),
        chunks := st.chunks[id := c.(vram := None, tier := HostPinned)],
        evicting := st.evicting - {id})
  }

  /** Replace the bytes of a record's VRAM slot; a copy in host memory is out of date from then on. */
  function Overwrite(st: Store, id: nat, data: SlotData): Store {
    if id in st.chunks && st.chunks[id].vram.Some? && st.chunks[id].vram.value < |st.mem.vram| then
      st.(mem := st.mem.(vram := st.mem.vram[st.chunks[id].vram.value := data]), evicting := st.evicting - {id})
    else st
  }

  /** The kernel stores the KV entry of one token through the page table. */
  function Write(st: Store, id: nat, off: nat, kv: Kv): Store {
    if id in st.chunks && off < |DataOf(st.chunks[id], st.mem)| then
      Overwrite(st, id, DataOf(st.chunks[id], st.mem)[off := kv])
    else st
  }

  /** Clone a single handle into a caller's hands. */
  function CloneHandle(st: Store, s: nat, i: nat): Store
    requires s < |st.seqs| && i < |st.seqs[s].handles|
  {
    st.(seqs := st.seqs + [LooseHandle(st.seqs[s].handles[i])])
  }

  /** Move a caller's handle `h` to the end of sequence `s`, with the positions of its tokens. */
  function Attach(st: Store, s: nat, h: nat, positions: seq<int>): Store
    requires s < |st.seqs| && h < |st.seqs| && s != h
  {
    var q := st.seqs[s];
    var q' := q.(handles := q.handles + st.seqs[h].handles, seqLen := q.seqLen + |positions|,
                 positions := q.positions + positions, version := q.version + 1);
    st.(seqs := st.seqs[s := q'][h := st.seqs[h].(handles := [])])
  }

  /** Count one more token on the chunk of a caller's handle. */
  function IncrementLen(st: Store, id: nat): Store
    requires id in st.chunks
  {
    st.(chunks := st.chunks[id := st.chunks[id].(len := st.chunks[id].len + 1)])
  }

  /** A caller's handle goes out of scope; that frees nothing. */
  function Forget(st: Store, h: nat): Store
    requires h < |st.seqs|
  {
    st.(seqs := st.seqs[h := st.seqs[h].(handles := [])])
  }

  // ---------------------------------------------------------------- bookkeeping lemmas

  lemma HeldUpdate(chunks: map<nat, Chunk>, id: nat, c: Chunk)
    ensures VramHeld(chunks[id := c]) == if c.vram.Some? then VramHeld(chunks)[id := c.vram.value] else VramHeld(chunks) - {id}
    ensures HostHeld(chunks[id := c]) == if c.host.Some? then HostHeld(chunks)[id := c.host.value] else HostHeld(chunks) - {id}
  {
  }

  /** Views depend only on the handles and on the contents of the records they name. */
  lemma ViewSame(st: Store, st': Store, s: nat, s': nat)
    requires CopiesInRange(st.mem, st.pending) && CopiesInRange(st'.mem, st'.pending)
    requires s < |st.seqs| && s' < |st'.seqs| && st'.seqs[s'].handles == st.seqs[s].handles
    requires forall i :: 0 <= i < |st.seqs[s].handles| ==>
               var id := st.seqs[s].handles[i];
               id in st.chunks && id in st'.chunks && Contents(st)[id] == Contents(st')[id]
    ensures View(st', s') == View(st, s)
  {
    JoinSame(Contents(st), st.seqs[s].handles, Contents(st'), st.seqs[s].handles);
  }

  // ---------------------------------------------------------------- fork

  lemma SlotsIgnoreSequences(st: Store, seqs: seq<Sequence>)
    requires SlotsOk(st)
    ensures SlotsOk(st.(seqs := seqs)) && Contents(st.(seqs := seqs)) == Contents(st)
  {
  }

  lemma StillReferenced(seqs: seq<Sequence>, seqs': seq<Sequence>, id: nat)
    requires Referenced(seqs, id) && |seqs| <= |seqs'|
    requires forall o :: 0 <= o < |seqs| ==> id in seqs[o].handles ==> id in seqs'[o].handles
    ensures Referenced(seqs', id)
  {
  }

  lemma ForkKeepsValid(st: Store, s: nat)
    requires Valid(st) && s < |st.seqs|
    ensures Valid(Fork(st, s))
    ensures |Fork(st, s).seqs| == |st.seqs| + 1 && View(Fork(st, s), |st.seqs|) == View(st, s)
    ensures Fork(st, s).seqs[|st.seqs|].positions == st.seqs[s].positions
    ensures SameViews(st, Fork(st, s))
  {
    var st' := Fork(st, s);
    SlotsIgnoreSequences(st, st'.seqs);
    forall id | id in st'.chunks ensures Referenced(st'.seqs, id) {
      StillReferenced(st.seqs, st'.seqs, id);
    }
    forall o | 0 <= o < |st'.seqs| ensures SequenceOk(st'.tokens, st'.chunks, st'.seqs[o]) {
      assert SequenceOk(st.tokens, st.chunks, st.seqs[if o < |st.seqs| then o else s]);
    }
  }

  // ---------------------------------------------------------------- copies

  lemma FlushKeepsValid(st: Store)
    requires Valid(st)
    ensures Valid(Flush(st)) && Flush(st).pending == []
    ensures SameViews(st, Flush(st))
  {
    SettleKeepsShape(st.mem, st.pending, st.tokens, st.vramPool.capacity, st.hostPool.capacity);
    assert Contents(Flush(st)) == Contents(st);
  }

  lemma CompleteOneKeepsValid(st: Store)
    requires Valid(st) && st.pending != []
    ensures Valid(CompleteOne(st))
    ensures SameViews(st, CompleteOne(st))
  {
    var st' := CompleteOne(st);
    assert forall i :: 0 <= i < |st'.pending| ==> st'.pending[i] == st.pending[i + 1];
    assert Settled(st') == Settled(st);
    assert Contents(st') == Contents(st);
  }
}
