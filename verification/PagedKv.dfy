/**
 The paged KV cache: chunk records shared by reference between sequences, a VRAM and a host
 tier with asynchronous copies between them, and sequences that append, fork and reset.

 A slot holds the KV entries of one chunk.  Copies are issued on a stream and performed later
 in issue order; `Settled` is the memory once all of them are done.  `View` is what the cache
 stands for: the list of KV entries of a sequence.
 */
module PagedKv {
  import opened Options
  import opened Arithmetic
  import opened Pools

  type Kv = int
  type SlotData = seq<Kv>

  datatype Tier = Vram | HostPinned

  /** Shared metadata of one chunk; no slot means the sentinel u32::MAX. */
  datatype Chunk = Chunk(vram: Option<nat>, host: Option<nat>, len: nat, tier: Tier)

  /**
   Whoever holds chunk handles: a sequence, or a caller with a single handle in its hands.  Such
   a loose handle counts as an owner of its chunk, but has no tokens of its own.
   */
  datatype Sequence = Sequence(handles: seq<nat>, seqLen: nat, positions: seq<int>, version: nat, loose: bool)

  function EmptySequence(): Sequence {
    Sequence([], 0, [], 0, false)
  }

  function LooseHandle(id: nat): Sequence {
    Sequence([id], 0, [], 0, true)
  }

  datatype Copy =
    | Upload(hostSlot: nat, vramSlot: nat)
    | Download(vramSlot: nat, hostSlot: nat)
    | Duplicate(from: nat, to: nat)

  datatype Memory = Memory(vram: seq<SlotData>, host: seq<SlotData>)

  /** `evicting` notes the records whose download has been issued and whose VRAM slot is not yet freed. */
  datatype Store = Store(
    tokens: nat,
    vramPool: Pool,
    hostPool: Pool,
    mem: Memory,
    pending: seq<Copy>,
    chunks: map<nat, Chunk>,
    next: nat,
    seqs: seq<Sequence>,
    evicting: set<nat>)

  datatype Outcome = Success | OutOfMemory | CopyFailed

  // ---------------------------------------------------------------- memory and copies

  predicate CopyInRange(m: Memory, c: Copy) {
    match c
    case Upload(h, v) => h < |m.host| && v < |m.vram|
    case Download(v, h) => h < |m.host| && v < |m.vram|
    case Duplicate(v, w) => v < |m.vram| && w < |m.vram|
  }

  /** A whole-slot copy. */
  function Perform(m: Memory, c: Copy): (r: Memory)
    requires CopyInRange(m, c)
    ensures |r.vram| == |m.vram| && |r.host| == |m.host|
  {
    match c
    case Upload(h, v) => m.(vram := m.vram[v := m.host[h]])
    case Download(v, h) => m.(host := m.host[h := m.vram[v]])
    case Duplicate(v, w) => m.(vram := m.vram[w := m.vram[v]])
  }

  predicate CopiesInRange(m: Memory, pending: seq<Copy>) {
    forall i :: 0 <= i < |pending| ==> CopyInRange(m, pending[i])
  }

  /** Memory after all pending copies, performed in the order they were issued. */
  function Settle(m: Memory, pending: seq<Copy>): (r: Memory)
    requires CopiesInRange(m, pending)
    ensures |r.vram| == |m.vram| && |r.host| == |m.host|
    decreases pending
  {
    if pending == [] then m
    else
      assert forall i :: 0 <= i < |pending| - 1 ==> CopyInRange(m, pending[1..][i]) && CopyInRange(Perform(m, pending[0]), pending[1..][i]);
      Settle(Perform(m, pending[0]), pending[1..])
  }

  lemma {:induction false} SettleOneMore(m: Memory, pending: seq<Copy>, c: Copy)
    requires CopiesInRange(m, pending + [c])
    ensures CopiesInRange(m, pending) && CopyInRange(Settle(m, pending), c)
    ensures Settle(m, pending + [c]) == Perform(Settle(m, pending), c)
    decreases pending
  {
    var all := pending + [c];
    assert forall i :: 0 <= i < |pending| ==> pending[i] == all[i];
    assert all[|pending|] == c;
    if pending == [] {
      assert all[1..] == [];
    } else {
      assert all[1..] == pending[1..] + [c];
      var m' := Perform(m, pending[0]);
      assert forall i :: 0 <= i < |all| - 1 ==> CopyInRange(m, all[i + 1]) && all[1..][i] == all[i + 1];
      SettleOneMore(m', pending[1..], c);
    }
  }

  /** Every slot the copy reads or writes is in use. */
  predicate OnUsedSlots(c: Copy, vramFree: seq<nat>, hostFree: seq<nat>) {
    match c
    case Upload(h, v) => h !in hostFree && v !in vramFree
    case Download(v, h) => v !in vramFree && h !in hostFree
    case Duplicate(v, w) => v !in vramFree && w !in vramFree
  }

  predicate UsesVram(c: Copy, v: nat) {
    match c
    case Upload(_, w) => w == v
    case Download(w, _) => w == v
    case Duplicate(from, to) => from == v || to == v
  }

  predicate UsesHost(c: Copy, h: nat) {
    match c
    case Upload(g, _) => g == h
    case Download(_, g) => g == h
    case Duplicate(_, _) => false
  }

  /** No pending copy reads or writes the VRAM slot. */
  predicate VramIdle(pending: seq<Copy>, v: Option<nat>) {
    v.Some? ==> forall i :: 0 <= i < |pending| ==> !UsesVram(pending[i], v.value)
  }

  predicate HostIdle(pending: seq<Copy>, h: Option<nat>) {
    h.Some? ==> forall i :: 0 <= i < |pending| ==> !UsesHost(pending[i], h.value)
  }

  /** A store into an idle slot commutes with the pending copies. */
  lemma {:induction false} SettleAroundIdle(m: Memory, pending: seq<Copy>, v: nat, data: SlotData)
    requires CopiesInRange(m, pending) && v < |m.vram| && VramIdle(pending, Some(v))
    ensures CopiesInRange(m.(vram := m.vram[v := data]), pending)
    ensures Settle(m.(vram := m.vram[v := data]), pending) == Settle(m, pending).(vram := Settle(m, pending).vram[v := data])
    ensures Settle(m, pending).vram[v] == m.vram[v]
    decreases |pending|
  {
    var m' := m.(vram := m.vram[v := data]);
    assert forall i :: 0 <= i < |pending| ==> CopyInRange(m', pending[i]) == CopyInRange(m, pending[i]);
    if pending == [] {
      assert m.vram[v := data] == m'.vram;
    } else {
      var p := Perform(m, pending[0]);
      assert forall i :: 0 <= i < |pending| - 1 ==> pending[1..][i] == pending[i + 1];
      assert CopiesInRange(p, pending[1..]) && VramIdle(pending[1..], Some(v));
      assert !UsesVram(pending[0], v);
      PerformAroundIdle(m, pending[0], v, data);
      SettleAroundIdle(p, pending[1..], v, data);
    }
  }

  lemma PerformAroundIdle(m: Memory, c: Copy, v: nat, data: SlotData)
    requires CopyInRange(m, c) && v < |m.vram| && !UsesVram(c, v)
    ensures CopyInRange(m.(vram := m.vram[v := data]), c)
    ensures Perform(m.(vram := m.vram[v := data]), c) == Perform(m, c).(vram := Perform(m, c).vram[v := data])
    ensures Perform(m, c).vram[v] == m.vram[v]
  {
  }

  // ---------------------------------------------------------------- the invariant

  /** Which record holds which VRAM slot. */
  function VramHeld(chunks: map<nat, Chunk>): map<nat, nat> {
    map id | id in chunks && chunks[id].vram.Some? :: chunks[id].vram.value
  }

  function HostHeld(chunks: map<nat, Chunk>): map<nat, nat> {
    map id | id in chunks && chunks[id].host.Some? :: chunks[id].host.value
  }

  ghost predicate MemoryOk(tokens: nat, vramCap: nat, hostCap: nat, m: Memory) {
    && |m.vram| == vramCap && |m.host| == hostCap
    && (forall v :: 0 <= v < vramCap ==> |m.vram[v]| == tokens)
    && (forall h :: 0 <= h < hostCap ==> |m.host[h]| == tokens)
  }

  /** Tier and slots of a record fit together. */
  predicate ChunkOk(c: Chunk, tokens: nat) {
    && (c.tier == Vram <==> c.vram.Some?)
    && (c.tier == HostPinned ==> c.host.Some?)
    && c.len <= tokens
  }

  ghost predicate ChunksOk(st: Store) {
    forall id :: id in st.chunks ==> id < st.next && ChunkOk(st.chunks[id], st.tokens)
  }

  /** Every pending copy works on slots that are in use, never on free ones. */
  predicate PendingOk(m: Memory, pending: seq<Copy>, vramFree: seq<nat>, hostFree: seq<nat>) {
    && CopiesInRange(m, pending)
    && (forall i :: 0 <= i < |pending| ==> OnUsedSlots(pending[i], vramFree, hostFree))
  }

  predicate HandlesOk(chunks: map<nat, Chunk>, q: Sequence) {
    && NoDuplicates(q.handles)
    && forall i :: 0 <= i < |q.handles| ==> q.handles[i] in chunks
  }

  /** Some sequence refers to the record. */
  predicate Referenced(seqs: seq<Sequence>, id: nat) {
    exists s :: 0 <= s < |seqs| && id in seqs[s].handles
  }

  function LenOf(chunks: map<nat, Chunk>, id: nat): nat {
    if id in chunks then chunks[id].len else 0
  }

  function TotalLen(chunks: map<nat, Chunk>, handles: seq<nat>): nat {
    if handles == [] then 0
    else TotalLen(chunks, handles[..|handles| - 1]) + LenOf(chunks, handles[|handles| - 1])
  }

  /** All chunks but the last are full, and the chunks hold exactly the sequence's tokens. */
  ghost predicate LengthsOk(tokens: nat, chunks: map<nat, Chunk>, q: Sequence) {
    && q.seqLen == |q.positions| == TotalLen(chunks, q.handles)
    && (forall i :: 0 <= i < |q.handles| - 1 ==> LenOf(chunks, q.handles[i]) == tokens)
    && (q.handles != [] ==> 0 < LenOf(chunks, q.handles[|q.handles| - 1]))
  }

  ghost predicate SequenceOk(tokens: nat, chunks: map<nat, Chunk>, q: Sequence) {
    HandlesOk(chunks, q) && if q.loose then |q.handles| <= 1 else LengthsOk(tokens, chunks, q)
  }

  ghost predicate SequencesOk(st: Store) {
    forall s :: 0 <= s < |st.seqs| ==> SequenceOk(st.tokens, st.chunks, st.seqs[s])
  }

  /** Bytes of a record in the tier it lives in. */
  function DataOf(c: Chunk, m: Memory): SlotData {
    if c.tier == Vram then
      if c.vram.Some? && c.vram.value < |m.vram| then m.vram[c.vram.value] else []
    else
      if c.host.Some? && c.host.value < |m.host| then m.host[c.host.value] else []
  }

  /** A chunk whose download is under way holds the same bytes in both tiers once settled. */
  ghost predicate EvictingOk(chunks: map<nat, Chunk>, evicting: set<nat>, m: Memory) {
    forall id :: id in evicting ==>
      && id in chunks && chunks[id].tier == Vram && chunks[id].host.Some?
      && DataOf(chunks[id].(tier := HostPinned), m) == DataOf(chunks[id], m)
  }

  ghost function Settled(st: Store): Memory
    requires CopiesInRange(st.mem, st.pending)
  {
    Settle(st.mem, st.pending)
  }

  /** Everything but the reference counts. */
  ghost predicate SlotsOk(st: Store) {
    && st.tokens > 0
    && MemoryOk(st.tokens, st.vramPool.capacity, st.hostPool.capacity, st.mem)
    && Conserved(st.vramPool, VramHeld(st.chunks))
    && Conserved(st.hostPool, HostHeld(st.chunks))
    && ChunksOk(st)
    && PendingOk(st.mem, st.pending, st.vramPool.free, st.hostPool.free)
    && EvictingOk(st.chunks, st.evicting, Settled(st))
  }

  /** `drained` are records whose handle is being dropped by a reset that is under way. */
  ghost predicate ValidExcept(st: Store, drained: set<nat>) {
    && SlotsOk(st)
    && SequencesOk(st)
    && (forall id :: id in st.chunks ==> Referenced(st.seqs, id) || id in drained)
  }

  ghost predicate Valid(st: Store) {
    ValidExcept(st, {})
  }

  // ---------------------------------------------------------------- what the cache stands for

  /** The valid part of a record's bytes. */
  function ValidPart(c: Chunk, m: Memory): SlotData {
    var d := DataOf(c, m);
    if c.len <= |d| then d[..c.len] else d
  }

  ghost function Contents(st: Store): map<nat, SlotData>
    requires CopiesInRange(st.mem, st.pending)
  {
    map id | id in st.chunks :: ValidPart(st.chunks[id], Settled(st))
  }

  function Join(contents: map<nat, SlotData>, handles: seq<nat>): seq<Kv> {
    if handles == [] then []
    else
      var last := handles[|handles| - 1];
      Join(contents, handles[..|handles| - 1]) + if last in contents then contents[last] else []
  }

  /** The list of KV entries a sequence stands for. */
  ghost function View(st: Store, s: nat): seq<Kv>
    requires CopiesInRange(st.mem, st.pending) && s < |st.seqs|
  {
    Join(Contents(st), st.seqs[s].handles)
  }

  /** Every sequence still stands for the same list. */
  ghost predicate SameViews(st: Store, st': Store) {
    && CopiesInRange(st.mem, st.pending) && CopiesInRange(st'.mem, st'.pending)
    && |st'.seqs| >= |st.seqs|
    && forall s: nat :: s < |st.seqs| ==> View(st', s) == View(st, s)
  }

  // ---------------------------------------------------------------- general facts

  lemma {:induction false} SettleKeepsShape(m: Memory, pending: seq<Copy>, tokens: nat, vramCap: nat, hostCap: nat)
    requires CopiesInRange(m, pending) && MemoryOk(tokens, vramCap, hostCap, m)
    ensures MemoryOk(tokens, vramCap, hostCap, Settle(m, pending))
    decreases pending
  {
    if pending != [] {
      var m' := Perform(m, pending[0]);
      assert forall i :: 0 <= i < |pending| - 1 ==> CopyInRange(m, pending[i + 1]) && pending[1..][i] == pending[i + 1];
      SettleKeepsShape(m', pending[1..], tokens, vramCap, hostCap);
    }
  }

  /** The slots of a record are in range and not free. */
  lemma SlotsInUse(st: Store, id: nat)
    requires SlotsOk(st) && id in st.chunks
    ensures st.chunks[id].vram.Some? ==> st.chunks[id].vram.value < st.vramPool.capacity && st.chunks[id].vram.value !in st.vramPool.free
    ensures st.chunks[id].host.Some? ==> st.chunks[id].host.value < st.hostPool.capacity && st.chunks[id].host.value !in st.hostPool.free
  {
    assert st.chunks[id].vram.Some? ==> VramHeld(st.chunks)[id] == st.chunks[id].vram.value;
    assert st.chunks[id].host.Some? ==> HostHeld(st.chunks)[id] == st.chunks[id].host.value;
  }

  /** Different records never share a slot. */
  lemma SlotsApart(st: Store, a: nat, b: nat)
    requires SlotsOk(st) && a in st.chunks && b in st.chunks && a != b
    ensures st.chunks[a].vram.Some? && st.chunks[b].vram.Some? ==> st.chunks[a].vram.value != st.chunks[b].vram.value
    ensures st.chunks[a].host.Some? && st.chunks[b].host.Some? ==> st.chunks[a].host.value != st.chunks[b].host.value
  {
    var v, h := VramHeld(st.chunks), HostHeld(st.chunks);
    assert st.chunks[a].vram.Some? && st.chunks[b].vram.Some? ==> a in v && b in v && v[a] != v[b];
    assert st.chunks[a].host.Some? && st.chunks[b].host.Some? ==> a in h && b in h && h[a] != h[b];
  }

  lemma DataFillsASlot(st: Store, id: nat)
    requires SlotsOk(st) && id in st.chunks
    ensures |DataOf(st.chunks[id], Settled(st))| == st.tokens
    ensures |ValidPart(st.chunks[id], Settled(st))| == st.chunks[id].len
  {
    SettleKeepsShape(st.mem, st.pending, st.tokens, st.vramPool.capacity, st.hostPool.capacity);
    SlotsInUse(st, id);
  }

  lemma {:induction false} JoinSame(a: map<nat, SlotData>, ha: seq<nat>, b: map<nat, SlotData>, hb: seq<nat>)
    requires |ha| == |hb|
    requires forall i :: 0 <= i < |ha| ==> ha[i] in a && hb[i] in b && a[ha[i]] == b[hb[i]]
    ensures Join(a, ha) == Join(b, hb)
  {
    if ha != [] {
      var n := |ha| - 1;
      assert forall i :: 0 <= i < n ==> ha[..n][i] == ha[i] && hb[..n][i] == hb[i];
      JoinSame(a, ha[..n], b, hb[..n]);
    }
  }

  lemma {:induction false} TotalLenSame(a: map<nat, Chunk>, ha: seq<nat>, b: map<nat, Chunk>, hb: seq<nat>)
    requires |ha| == |hb|
    requires forall i :: 0 <= i < |ha| ==> LenOf(a, ha[i]) == LenOf(b, hb[i])
    ensures TotalLen(a, ha) == TotalLen(b, hb)
  {
    if ha != [] {
      var n := |ha| - 1;
      assert forall i :: 0 <= i < n ==> ha[..n][i] == ha[i] && hb[..n][i] == hb[i];
      TotalLenSame(a, ha[..n], b, hb[..n]);
    }
  }

  lemma {:induction false} JoinLength(st: Store, handles: seq<nat>)
    requires SlotsOk(st) && forall i :: 0 <= i < |handles| ==> handles[i] in st.chunks
    ensures |Join(Contents(st), handles)| == TotalLen(st.chunks, handles)
  {
    if handles != [] {
      JoinLength(st, handles[..|handles| - 1]);
      DataFillsASlot(st, handles[|handles| - 1]);
    }
  }

  /** A sequence has one entry per token. */
  lemma ViewLength(st: Store, s: nat)
    requires Valid(st) && s < |st.seqs| && !st.seqs[s].loose
    ensures |View(st, s)| == st.seqs[s].seqLen == |st.seqs[s].positions|
  {
    assert SequenceOk(st.tokens, st.chunks, st.seqs[s]);
    JoinLength(st, st.seqs[s].handles);
  }

  lemma {:induction false} JoinPrefixLength(contents: map<nat, SlotData>, handles: seq<nat>, tokens: nat)
    requires forall k :: 0 <= k < |handles| ==> handles[k] in contents && |contents[handles[k]]| == tokens
    ensures |Join(contents, handles)| == |handles| * tokens
  {
    if handles != [] {
      JoinPrefixLength(contents, handles[..|handles| - 1], tokens);
      assert (|handles| - 1) * tokens + tokens == |handles| * tokens;
    }
  }

  lemma {:induction false} JoinIndex(contents: map<nat, SlotData>, handles: seq<nat>, tokens: nat, i: nat, off: nat)
    requires i < |handles| && forall k :: 0 <= k < |handles| ==> handles[k] in contents
    requires forall k :: 0 <= k < |handles| - 1 ==> |contents[handles[k]]| == tokens
    requires off < |contents[handles[i]]|
    ensures |Join(contents, handles)| == (|handles| - 1) * tokens + |contents[handles[|handles| - 1]]|
    ensures i * tokens + off < |Join(contents, handles)|
    ensures Join(contents, handles)[i * tokens + off] == contents[handles[i]][off]
    decreases |handles|
  {
    var n := |handles| - 1;
    JoinPrefixLength(contents, handles[..n], tokens);
    if i < n {
      JoinIndex(contents, handles[..n], tokens, i, off);
    }
  }

  lemma JoinToken(contents: map<nat, SlotData>, handles: seq<nat>, tokens: nat, i: nat, off: nat)
    requires handles != [] && off < tokens && i * tokens + off < |Join(contents, handles)|
    requires forall k :: 0 <= k < |handles| ==> handles[k] in contents
    requires forall k :: 0 <= k < |handles| - 1 ==> |contents[handles[k]]| == tokens
    requires 0 < |contents[handles[|handles| - 1]]| <= tokens
    ensures i < |handles| && off < |contents[handles[i]]|
    ensures Join(contents, handles)[i * tokens + off] == contents[handles[i]][off]
  {
    JoinIndex(contents, handles, tokens, |handles| - 1, 0);
    if i >= |handles| {
      MultiplesApart(|handles| - 1, i, tokens);
    }
    JoinIndex(contents, handles, tokens, i, off);
  }

  /** Every chunk of a sequence contributes its valid part. */
  lemma ContentsFit(st: Store, q: Sequence)
    requires SlotsOk(st) && SequenceOk(st.tokens, st.chunks, q)
    ensures forall k :: 0 <= k < |q.handles| ==> q.handles[k] in Contents(st) && |Contents(st)[q.handles[k]]| == st.chunks[q.handles[k]].len <= st.tokens
  {
    forall k | 0 <= k < |q.handles|
      ensures q.handles[k] in Contents(st) && |Contents(st)[q.handles[k]]| == st.chunks[q.handles[k]].len <= st.tokens
    {
      DataFillsASlot(st, q.handles[k]);
    }
  }

  /** All chunks but the last hold `tokens` entries and the last holds at least one. */
  predicate Paged(contents: map<nat, SlotData>, handles: seq<nat>, tokens: nat) {
    && tokens > 0
    && (forall k :: 0 <= k < |handles| ==> handles[k] in contents)
    && (forall k :: 0 <= k < |handles| - 1 ==> |contents[handles[k]]| == tokens)
    && (handles != [] ==> 0 < |contents[handles[|handles| - 1]]| <= tokens)
  }

  lemma JoinOfOne(contents: map<nat, SlotData>, handles: seq<nat>)
    requires |handles| == 1 && handles[0] in contents
    ensures Join(contents, handles) == contents[handles[0]]
  {
    assert handles[..0] == [];
  }

  lemma SequenceIsPaged(st: Store, s: nat)
    requires Valid(st) && s < |st.seqs| && (st.seqs[s].loose ==> View(st, s) != [])
    ensures Paged(Contents(st), st.seqs[s].handles, st.tokens)
  {
    hide MemoryOk, Conserved, ChunksOk, OnUsedSlots, EvictingOk, Referenced, Settle, ValidPart, Join, TotalLen, NoDuplicates;
    var q := st.seqs[s];
    assert SequenceOk(st.tokens, st.chunks, q);
    ContentsFit(st, q);
    if q.loose && |q.handles| == 1 {
      JoinOfOne(Contents(st), q.handles);
    }
  }

  lemma DivMod(t: nat, d: nat)
    requires d > 0
    ensures (t / d) * d + t % d == t && t % d < d
  {
  }

  /** In a paged sequence token t is entry t % tokens of chunk t / tokens. */
  lemma TokenLocation(contents: map<nat, SlotData>, handles: seq<nat>, tokens: nat, t: nat)
    requires Paged(contents, handles, tokens) && t < |Join(contents, handles)|
    ensures t / tokens < |handles| && t % tokens < |contents[handles[t / tokens]]|
    ensures Join(contents, handles)[t] == contents[handles[t / tokens]][t % tokens]
  {
    DivMod(t, tokens);
    JoinToken(contents, handles, tokens, t / tokens, t % tokens);
  }
}
