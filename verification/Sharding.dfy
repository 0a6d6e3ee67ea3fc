/** Spreading the experts of a layer over GPUs, and the configuration each GPU works from. */
module Sharding {
  import opened Options
  import opened Arithmetic
  import opened Sums
  import opened LittleEndian

  // ---------------------------------------------------------------- round robin

  /** Device of expert e, dealt out to `workers` GPUs from `start` on. */
  function DeviceOf(e: nat, start: nat, workers: nat): nat
    requires workers > 0
  {
    start + Rem(e, workers)
  }

  /** Experts below n on worker k. */
  function Load(k: nat, workers: nat, n: nat): nat
    requires workers > 0
  {
    if n == 0 then 0 else Load(k, workers, n - 1) + if Rem(n - 1, workers) == k then 1 else 0
  }

  /** Quotient, kept apart from linear reasoning. */
  function Quot(a: nat, d: nat): nat
    requires d > 0
  {
    a / d
  }

  lemma NextQuotient(n: nat, d: nat)
    requires d > 0
    ensures if Rem(n, d) + 1 < d then Quot(n + 1, d) == Quot(n, d) && Rem(n + 1, d) == Rem(n, d) + 1
            else Quot(n + 1, d) == Quot(n, d) + 1 && Rem(n + 1, d) == 0
  {
    assert n == n / d * d + n % d;
    if n % d + 1 < d {
      Euclid(n + 1, n / d, n % d + 1, d);
    } else {
      Euclid(n + 1, n / d + 1, 0, d);
    }
  }

  lemma StartQuotient(d: nat)
    requires d > 0
    ensures Quot(0, d) == 0 && Rem(0, d) == 0
  {
  }

  /** Every worker gets its even share, and the first ones one more. */
  lemma {:induction false} LoadIsEven(k: nat, workers: nat, n: nat)
    requires k < workers
    ensures Load(k, workers, n) == Quot(n, workers) + if k < Rem(n, workers) then 1 else 0
  {
    hide Quot, Rem;
    if n == 0 {
      StartQuotient(workers);
    } else {
      LoadIsEven(k, workers, n - 1);
      NextQuotient(n - 1, workers);
      RemainderAtMost(n - 1, workers);
    }
  }

  /** Loads differ by at most one. */
  lemma Balanced(a: nat, b: nat, workers: nat, n: nat)
    requires a < workers && b < workers
    ensures -1 <= Load(a, workers, n) - Load(b, workers, n) <= 1
  {
    LoadIsEven(a, workers, n);
    LoadIsEven(b, workers, n);
  }

  lemma {:induction false} LoadGrows(k: nat, workers: nat, m: nat, n: nat)
    requires workers > 0 && m <= n
    ensures Load(k, workers, m) <= Load(k, workers, n)
    decreases n
  {
    hide Rem;
    if m < n {
      LoadGrows(k, workers, m, n - 1);
    }
  }

  /** Slot of an expert: how many experts its GPU already has. */
  function SlotOf(e: nat, workers: nat): nat
    requires workers > 0
  {
    Load(Rem(e, workers), workers, e)
  }

  /** Dealt out in turn, an expert's slot is the number of full rounds before it. */
  lemma SlotIsRound(e: nat, workers: nat)
    requires workers > 0
    ensures SlotOf(e, workers) == e / workers
  {
    LoadIsEven(Rem(e, workers), workers, e);
  }

  lemma SlotInBounds(e: nat, workers: nat, n: nat)
    requires workers > 0 && e < n
    ensures SlotOf(e, workers) < Load(Rem(e, workers), workers, n)
  {
  }

  /** Two experts of one GPU never share a slot. */
  lemma SlotsDiffer(a: nat, b: nat, workers: nat)
    requires workers > 0 && a < b && Rem(a, workers) == Rem(b, workers)
    ensures SlotOf(a, workers) < SlotOf(b, workers)
  {
    LoadGrows(Rem(a, workers), workers, a + 1, b);
  }

  /** Experts on GPU g: none below the first worker. */
  function LoadOn(g: nat, start: nat, workers: nat, n: nat): nat
    requires workers > 0
  {
    if g < start then 0 else Load(g - start, workers, n)
  }

  // ---------------------------------------------------------------- byte buffers

  /** Where the k-th piece of `stride` bytes starts. */
  function At(k: nat, stride: nat): nat {
    k * stride
  }

  lemma PiecesApart(j: nat, k: nat, stride: nat)
    requires j < k
    ensures At(j, stride) + stride <= At(k, stride)
  {
    MultiplesApart(j, k, stride);
  }

  /** The k-th piece lies inside the buffer. */
  predicate Fits(b: seq<Byte>, k: nat, stride: nat) {
    At(k, stride) + stride <= |b|
  }

  function Piece(b: seq<Byte>, k: nat, stride: nat): (p: seq<Byte>)
    requires Fits(b, k, stride)
    ensures |p| == stride
  {
    b[At(k, stride)..At(k, stride) + stride]
  }

  function PutPiece(b: seq<Byte>, k: nat, stride: nat, data: seq<Byte>): (r: seq<Byte>)
    requires Fits(b, k, stride) && |data| == stride
    ensures |r| == |b|
  {
    b[..At(k, stride)] + data + b[At(k, stride) + stride..]
  }

  lemma PutPieceReads(b: seq<Byte>, k: nat, stride: nat, data: seq<Byte>, j: nat)
    requires Fits(b, k, stride) && |data| == stride && Fits(b, j, stride)
    ensures Piece(PutPiece(b, k, stride, data), j, stride) == if j == k then data else Piece(b, j, stride)
  {
    hide At;
    if j < k {
      PiecesApart(j, k, stride);
    } else if j > k {
      PiecesApart(k, j, stride);
    }
  }

  lemma PieceFits(b: seq<Byte>, k: nat, n: nat, stride: nat)
    requires |b| == At(n, stride) && k < n
    ensures Fits(b, k, stride)
  {
    PiecesApart(k, n, stride);
  }

  // ---------------------------------------------------------------- placement

  datatype Buffer = Buffer(bytes: seq<Byte>, count: nat, slots: seq<Option<nat>>)

  /** GPU g has a slot for exactly its own experts, each with the expert's bytes, and no two alike. */
  ghost predicate HoldsItsShare(b: Buffer, g: nat, source: seq<Byte>, experts: nat, stride: nat, start: nat, workers: nat)
    requires workers > 0
  {
    && |b.slots| == experts && b.count == LoadOn(g, start, workers, experts)
    && (forall e: nat :: e < experts ==> (b.slots[e].Some? <==> g == DeviceOf(e, start, workers)))
    && (forall e: nat :: e < experts && b.slots[e].Some? ==> PlacedAt(b, source, e, stride))
    && (forall x: nat, y: nat :: x < y < experts && b.slots[x].Some? && b.slots[y].Some? ==> b.slots[x] != b.slots[y])
  }

  ghost predicate Holds(buffers: seq<Buffer>, source: seq<Byte>, experts: nat, stride: nat, start: nat, workers: nat) {
    && workers > 0 && |buffers| == start + workers && |source| == At(experts, stride)
    && forall g :: 0 <= g < |buffers| ==> HoldsItsShare(buffers[g], g, source, experts, stride, start, workers)
  }

  ghost predicate PlacedAt(b: Buffer, source: seq<Byte>, e: nat, stride: nat) {
    && e < |b.slots| && b.slots[e].Some?
    && Fits(b.bytes, b.slots[e].value, stride) && Fits(source, e, stride)
    && Piece(b.bytes, b.slots[e].value, stride) == Piece(source, e, stride)
  }

  /** Deal the experts out and count them. */
  method Deal(experts: nat, devices: nat, start: nat) returns (device: seq<nat>, counts: seq<nat>)
    requires start < devices
    ensures |device| == experts && forall e :: 0 <= e < experts ==> device[e] == DeviceOf(e, start, devices - start) == start + e % (devices - start)
    ensures |counts| == devices
    ensures forall g :: 0 <= g < devices ==> counts[g] == LoadOn(g, start, devices - start, experts)
  {
    hide Rem;
    var workers := devices - start;
    device, counts := [], seq(devices, _ => 0);
    for e := 0 to experts
      invariant |device| == e && forall i :: 0 <= i < e ==> device[i] == DeviceOf(i, start, workers)
      invariant |counts| == devices
      invariant forall g :: 0 <= g < devices ==> counts[g] == LoadOn(g, start, workers, e)
    {
      RemainderAtMost(e, workers);
      var gpu := start + Rem(e, workers);
      device := device + [gpu];
      counts := counts[gpu := counts[gpu] + 1];
    }
    forall e | 0 <= e < experts ensures device[e] == start + e % workers {
      DealtInTurn(e, start, workers);
    }
  }

  lemma DealtInTurn(e: nat, start: nat, workers: nat)
    requires workers > 0
    ensures DeviceOf(e, start, workers) == start + e % workers
  {
  }

  /** A slot for each of the GPU's experts: the next free one, or the expert's own number. */
  predicate SlotsOf(slots: seq<Option<nat>>, experts: nat, start: nat, workers: nat, gpu: nat, identity: bool)
    requires workers > 0
  {
    && |slots| == experts
    && forall e :: 0 <= e < experts ==>
         slots[e] == if gpu != DeviceOf(e, start, workers) then None else if identity then Some(e) else Some(SlotOf(e, workers))
  }

  /** The slot map of one GPU; the home GPU keeps the original layout when it keeps the original buffer. */
  method MapSlots(experts: nat, start: nat, workers: nat, device: seq<nat>, gpu: nat, identity: bool) returns (slots: seq<Option<nat>>)
    requires workers > 0
    requires |device| == experts && forall e :: 0 <= e < experts ==> device[e] == DeviceOf(e, start, workers)
    ensures SlotsOf(slots, experts, start, workers, gpu, identity)
  {
    hide Rem;
    slots := [];
    var slot := 0;
    for e := 0 to experts
      invariant |slots| == e
      invariant start <= gpu ==> slot == Load(gpu - start, workers, e)
      invariant forall i :: 0 <= i < e ==>
                  slots[i] == if gpu != DeviceOf(i, start, workers) then None
                              else if identity then Some(i) else Some(SlotOf(i, workers))
    {
      if device[e] == gpu {
        slots := slots + [Some(if identity then e else slot)];
        slot := slot + 1;
      } else {
        slots := slots + [None];
      }
    }
  }

  /** The buffers while the first `done` experts have been copied. */
  ghost predicate Copied(bytes: seq<seq<Byte>>, source: seq<Byte>, experts: nat, stride: nat, start: nat, workers: nat, keepHome: bool, done: nat) {
    && workers > 0 && |bytes| == start + workers && |source| == At(experts, stride) && done <= experts
    && (forall g :: 0 <= g < start + workers ==>
          |bytes[g]| == At(LoadOn(g, start, workers, experts), stride))
    && forall e: nat :: e < done && !(keepHome && DeviceOf(e, start, workers) == 0) ==> Delivered(bytes, source, e, stride, start, workers)
  }

  /** Expert e lies in its slot of its GPU. */
  ghost predicate Delivered(bytes: seq<seq<Byte>>, source: seq<Byte>, e: nat, stride: nat, start: nat, workers: nat) {
    && workers > 0
    && var g, slot := DeviceOf(e, start, workers), SlotOf(e, workers);
    && g < |bytes| && Fits(bytes[g], slot, stride) && Fits(source, e, stride)
    && Piece(bytes[g], slot, stride) == Piece(source, e, stride)
  }

  lemma PlaceFits(bytes: seq<seq<Byte>>, source: seq<Byte>, experts: nat, stride: nat, start: nat, workers: nat, keepHome: bool, e: nat)
    requires Copied(bytes, source, experts, stride, start, workers, keepHome, e) && e < experts
    ensures var g, slot := DeviceOf(e, start, workers), SlotOf(e, workers);
            start <= g < start + workers && Fits(bytes[g], slot, stride) && Fits(source, e, stride)
  {
    hide Rem, SlotOf, Fits, At, Delivered;
    RemainderAtMost(e, workers);
    SlotInBounds(e, workers, experts);
    var g := DeviceOf(e, start, workers);
    PieceFits(bytes[g], SlotOf(e, workers), LoadOn(g, start, workers, experts), stride);
    PieceFits(source, e, experts, stride);
  }

  lemma CopyOne(bytes: seq<seq<Byte>>, source: seq<Byte>, experts: nat, stride: nat, start: nat, workers: nat, keepHome: bool, e: nat)
    requires Copied(bytes, source, experts, stride, start, workers, keepHome, e) && e < experts
    requires var g, slot := DeviceOf(e, start, workers), SlotOf(e, workers);
             g < start + workers && Fits(bytes[g], slot, stride) && Fits(source, e, stride)
    ensures var g, slot := DeviceOf(e, start, workers), SlotOf(e, workers);
            Copied(bytes[g := PutPiece(bytes[g], slot, stride, Piece(source, e, stride))], source, experts, stride, start, workers, keepHome, e + 1)
  {
    hide Rem, SlotOf, Load, PutPiece, Piece, Fits, At;
    var g, slot := DeviceOf(e, start, workers), SlotOf(e, workers);
    var bytes' := bytes[g := PutPiece(bytes[g], slot, stride, Piece(source, e, stride))];
    forall i: nat | i < e + 1 && !(keepHome && DeviceOf(i, start, workers) == 0) ensures Delivered(bytes', source, i, stride, start, workers) {
      if i < e {
        assert Delivered(bytes, source, i, stride, start, workers);
        StillDelivered(bytes, source, i, e, stride, start, workers);
      } else {
        SameFit(bytes[g], bytes'[g], slot, stride);
        PutPieceReads(bytes[g], slot, stride, Piece(source, e, stride), slot);
      }
    }
  }

  lemma StillDelivered(bytes: seq<seq<Byte>>, source: seq<Byte>, i: nat, e: nat, stride: nat, start: nat, workers: nat)
    requires i < e && Delivered(bytes, source, i, stride, start, workers)
    requires var g, slot := DeviceOf(e, start, workers), SlotOf(e, workers);
             g < |bytes| && Fits(bytes[g], slot, stride) && Fits(source, e, stride)
    ensures var g, slot := DeviceOf(e, start, workers), SlotOf(e, workers);
            Delivered(bytes[g := PutPiece(bytes[g], slot, stride, Piece(source, e, stride))], source, i, stride, start, workers)
  {
    hide Rem, SlotOf, PutPiece, Piece, Fits;
    var g, slot := DeviceOf(e, start, workers), SlotOf(e, workers);
    if DeviceOf(i, start, workers) == g {
      var b' := PutPiece(bytes[g], slot, stride, Piece(source, e, stride));
      SameFit(bytes[g], b', SlotOf(i, workers), stride);
      PutPieceReads(bytes[g], slot, stride, Piece(source, e, stride), SlotOf(i, workers));
      SlotsDiffer(i, e, workers);
    }
  }

  lemma SameFit(b: seq<Byte>, b': seq<Byte>, k: nat, stride: nat)
    requires |b| == |b'|
    ensures Fits(b, k, stride) == Fits(b', k, stride)
  {
  }

  /** Copy every expert to its slot; the home GPU may keep the original buffer instead. */
  method CopyExperts(source: seq<Byte>, experts: nat, stride: nat, start: nat, workers: nat, keepHome: bool, device: seq<nat>, counts: seq<nat>, slots: seq<seq<Option<nat>>>)
      returns (bytes: seq<seq<Byte>>)
    requires workers > 0 && |source| == At(experts, stride)
    requires |device| == experts && forall e :: 0 <= e < experts ==> device[e] == DeviceOf(e, start, workers)
    requires |counts| == start + workers
    requires forall g :: 0 <= g < start + workers ==> counts[g] == LoadOn(g, start, workers, experts)
    requires |slots| == start + workers && forall g :: 0 <= g < |slots| ==> SlotsOf(slots[g], experts, start, workers, g, keepHome && g == 0)
    ensures Copied(bytes, source, experts, stride, start, workers, keepHome, experts)
  {
    hide Rem, Load, PutPiece, Piece, Fits, SlotOf, At, Delivered;
    bytes := seq(start + workers, g requires 0 <= g < start + workers => Blank(At(counts[g], stride)));
    for e := 0 to experts
      invariant Copied(bytes, source, experts, stride, start, workers, keepHome, e)
    {
      if !(keepHome && device[e] == 0) {
        PlaceFits(bytes, source, experts, stride, start, workers, keepHome, e);
        CopyOne(bytes, source, experts, stride, start, workers, keepHome, e);
        assert SlotsOf(slots[device[e]], experts, start, workers, device[e], false);
        var slot := slots[device[e]][e].value;
        bytes := bytes[device[e] := PutPiece(bytes[device[e]], slot, stride, Piece(source, e, stride))];
      }
    }
  }

  function Blank(n: nat): (b: seq<Byte>)
    ensures |b| == n
  {
    seq(n, _ => 0)
  }

  lemma ShareIsHeld(bytes: seq<seq<Byte>>, source: seq<Byte>, experts: nat, stride: nat, start: nat, workers: nat, keepHome: bool, g: nat, slots: seq<Option<nat>>)
    requires Copied(bytes, source, experts, stride, start, workers, keepHome, experts) && g < start + workers
    requires SlotsOf(slots, experts, start, workers, g, keepHome && g == 0)
    ensures var home := keepHome && g == 0;
            HoldsItsShare(Buffer(if home then source else bytes[g], LoadOn(g, start, workers, experts), slots), g, source, experts, stride, start, workers)
  {
    hide Rem, SlotOf, Load, Piece, Fits, At;
    var home := keepHome && g == 0;
    var b := Buffer(if home then source else bytes[g], LoadOn(g, start, workers, experts), slots);
    forall e: nat | e < experts && slots[e].Some? ensures PlacedAt(b, source, e, stride) {
      if home {
        PieceFits(source, e, experts, stride);
      } else {
        assert Delivered(bytes, source, e, stride, start, workers);
      }
    }
    forall x: nat, y: nat | x < y < experts && slots[x].Some? && slots[y].Some? ensures slots[x] != slots[y] {
      if !home {
        SlotsDiffer(x, y, workers);
      }
    }
  }

  /** The slot maps of all GPUs. */
  method MapAllSlots(experts: nat, devices: nat, start: nat, keepHome: bool, device: seq<nat>) returns (slots: seq<seq<Option<nat>>>)
    requires start < devices
    requires |device| == experts && forall e :: 0 <= e < experts ==> device[e] == DeviceOf(e, start, devices - start)
    ensures |slots| == devices
    ensures forall g :: 0 <= g < devices ==> SlotsOf(slots[g], experts, start, devices - start, g, keepHome && g == 0)
  {
    hide SlotsOf;
    slots := [];
    for g := 0 to devices
      invariant |slots| == g && forall i :: 0 <= i < g ==> SlotsOf(slots[i], experts, start, devices - start, i, keepHome && i == 0)
    {
      var slotMap := MapSlots(experts, start, devices - start, device, g, keepHome && g == 0);
      slots := slots + [slotMap];
    }
  }

  /** What distributing a packed tensor achieves. */
  ghost predicate Distributed(buffers: seq<Buffer>, source: seq<Byte>, experts: nat, stride: nat, devices: nat, start: nat, keepHome: bool) {
    && start < devices && Holds(buffers, source, experts, stride, start, devices - start)
    && forall g :: 0 <= g < |buffers| ==> SlotsOf(buffers[g].slots, experts, start, devices - start, g, keepHome && g == 0)
  }

  /** The buffers of all GPUs around the copied bytes; the home GPU may keep the original. */
  method MakeBuffers(bytes: seq<seq<Byte>>, counts: seq<nat>, slots: seq<seq<Option<nat>>>, home: seq<Byte>, ghost source: seq<Byte>,
                     experts: nat, stride: nat, devices: nat, start: nat, keepHome: bool) returns (buffers: seq<Buffer>)
    requires start < devices && (keepHome ==> home == source) && |counts| == devices && |slots| == devices
    requires Copied(bytes, source, experts, stride, start, devices - start, keepHome, experts)
    requires forall g :: 0 <= g < devices ==> counts[g] == LoadOn(g, start, devices - start, experts)
    requires forall g :: 0 <= g < devices ==> SlotsOf(slots[g], experts, start, devices - start, g, keepHome && g == 0)
    ensures Distributed(buffers, source, experts, stride, devices, start, keepHome)
  {
    hide Copied, HoldsItsShare, SlotOf, Load, At, SlotsOf;
    var workers := devices - start;
    CopiedShape(bytes, source, experts, stride, start, workers, keepHome);
    buffers := [];
    for g := 0 to devices
      invariant |buffers| == g
      invariant forall i :: 0 <= i < g ==> HoldsItsShare(buffers[i], i, source, experts, stride, start, workers)
      invariant forall i :: 0 <= i < g ==> SlotsOf(buffers[i].slots, experts, start, workers, i, keepHome && i == 0)
    {
      ShareIsHeld(bytes, source, experts, stride, start, workers, keepHome, g, slots[g]);
      buffers := buffers + [Buffer(if keepHome && g == 0 then home else bytes[g], counts[g], slots[g])];
    }
  }

  /**
   Expert e is on GPU start + e % n of the n GPUs from `start` on, in slot e / n or, where the
   original buffer is kept, in its own place; the slot's bytes are its bytes of the packed tensor.
   */
  predicate BytesInPlace(buffers: seq<Buffer>, e: nat, stride: nat, devices: nat, start: nat, keepHome: bool, source: seq<Byte>) {
    && start < devices
    && var owner := start + e % (devices - start);
    && var slot := if keepHome && owner == 0 then e else e / (devices - start);
    && owner < |buffers| && e < |buffers[owner].slots| && buffers[owner].slots[e] == Some(slot)
    && slot * stride + stride <= |buffers[owner].bytes| && e * stride + stride <= |source|
    && buffers[owner].bytes[slot * stride..slot * stride + stride] == source[e * stride..e * stride + stride]
  }

  lemma ExpertInPlace(buffers: seq<Buffer>, source: seq<Byte>, experts: nat, stride: nat, devices: nat, start: nat, keepHome: bool, e: nat)
    requires Distributed(buffers, source, experts, stride, devices, start, keepHome) && e < experts
    ensures BytesInPlace(buffers, e, stride, devices, start, keepHome, source)
  {
    hide Rem, SlotOf, LoadOn;
    var workers := devices - start;
    DealtInTurn(e, start, workers);
    SlotIsRound(e, workers);
    var owner := start + e % workers;
    assert HoldsItsShare(buffers[owner], owner, source, experts, stride, start, workers);
    assert PlacedAt(buffers[owner], source, e, stride);
    assert SlotsOf(buffers[owner].slots, experts, start, workers, owner, keepHome && owner == 0);
  }

  /**
   Place one packed tensor of a layer.  An out-of-range start GPU is an error.  With `keepHome`
   GPU 0 works from the original buffer in its original layout.
   */
  method Distribute(source: seq<Byte>, experts: nat, stride: nat, devices: nat, start: nat, keepHome: bool) returns (r: Option<seq<Buffer>>)
    requires |source| == At(experts, stride)
    ensures r.Some? <==> start < devices
    ensures r.Some? ==> Distributed(r.value, source, experts, stride, devices, start, keepHome)
    ensures r.Some? ==> forall e: nat :: e < experts ==> BytesInPlace(r.value, e, stride, devices, start, keepHome, source)
  {
    hide Rem, Copied, Distributed, Load, At, SlotsOf, BytesInPlace;
    if start >= devices {
      return None;
    }
    var device, counts := Deal(experts, devices, start);
    var slots := MapAllSlots(experts, devices, start, keepHome, device);
    var bytes := CopyExperts(source, experts, stride, start, devices - start, keepHome, device, counts, slots);
    var buffers := MakeBuffers(bytes, counts, slots, source, source, experts, stride, devices, start, keepHome);
    r := Some(buffers);
    forall e: nat | e < experts ensures BytesInPlace(buffers, e, stride, devices, start, keepHome, source) {
      ExpertInPlace(buffers, source, experts, stride, devices, start, keepHome, e);
    }
  }

  lemma CopiedShape(bytes: seq<seq<Byte>>, source: seq<Byte>, experts: nat, stride: nat, start: nat, workers: nat, keepHome: bool)
    requires Copied(bytes, source, experts, stride, start, workers, keepHome, experts)
    ensures |bytes| == start + workers && |source| == At(experts, stride)
  {
  }

  // ---------------------------------------------------------------- a tensor of its own for every expert

  /** The two tensors of an expert; a layer without gates has empty ones. */
  datatype Halves = Halves(gate: seq<Byte>, up: seq<Byte>)

  /** The packed tensor the halves stand for: gate, then up, expert by expert. */
  function Packed(halves: seq<Halves>): seq<Byte> {
    if halves == [] then [] else Packed(halves[..|halves| - 1]) + halves[|halves| - 1].gate + halves[|halves| - 1].up
  }

  predicate FillSlots(halves: seq<Halves>, stride: nat) {
    forall e :: 0 <= e < |halves| ==> |halves[e].gate| + |halves[e].up| == stride
  }

  lemma {:induction false} PackedLength(halves: seq<Halves>, stride: nat)
    requires FillSlots(halves, stride)
    ensures |Packed(halves)| == At(|halves|, stride)
  {
    if halves != [] {
      PackedLength(halves[..|halves| - 1], stride);
      OneMorePiece(|halves| - 1, stride);
    }
  }

  lemma OneMorePiece(n: nat, stride: nat)
    ensures At(n + 1, stride) == At(n, stride) + stride
  {
  }

  lemma PieceOfFront(a: seq<Byte>, b: seq<Byte>, k: nat, stride: nat)
    requires Fits(a, k, stride)
    ensures Fits(a + b, k, stride) && Piece(a + b, k, stride) == Piece(a, k, stride)
  {
  }

  lemma PieceAtEnd(a: seq<Byte>, b: seq<Byte>, n: nat)
    requires |a| == At(n, |b|)
    ensures Fits(a + b, n, |b|) && Piece(a + b, n, |b|) == b
  {
  }

  lemma {:induction false} PackedPiece(halves: seq<Halves>, stride: nat, e: nat)
    requires FillSlots(halves, stride) && e < |halves|
    ensures Fits(Packed(halves), e, stride) && Piece(Packed(halves), e, stride) == halves[e].gate + halves[e].up
  {
    hide At, Fits, Piece;
    var n := |halves| - 1;
    var front, last := Packed(halves[..n]), halves[n].gate + halves[n].up;
    assert Packed(halves) == front + last;
    PackedLength(halves[..n], stride);
    if e < n {
      PackedPiece(halves[..n], stride, e);
      PieceOfFront(front, last, e, stride);
    } else {
      PieceAtEnd(front, last, n);
    }
  }

  /** A copy into a buffer. */
  function PutAt(b: seq<Byte>, at: nat, data: seq<Byte>): (r: seq<Byte>)
    requires at + |data| <= |b|
    ensures |r| == |b|
  {
    b[..at] + data + b[at + |data|..]
  }

  /** Two copies, one behind the other, fill a piece. */
  lemma TwoHalves(b: seq<Byte>, k: nat, stride: nat, gate: seq<Byte>, up: seq<Byte>)
    requires Fits(b, k, stride) && |gate| + |up| == stride
    ensures PutAt(PutAt(b, At(k, stride), gate), At(k, stride) + |gate|, up) == PutPiece(b, k, stride, gate + up)
  {
    hide At;
    var at := At(k, stride);
    var once := PutAt(b, at, gate);
    assert once[..at + |gate|] == b[..at] + gate;
    assert once[at + |gate| + |up|..] == b[at + stride..];
  }

  /** Copy gate and up of every expert behind each other into its slot. */
  method CopyHalves(halves: seq<Halves>, stride: nat, start: nat, workers: nat, device: seq<nat>, counts: seq<nat>, slots: seq<seq<Option<nat>>>)
      returns (bytes: seq<seq<Byte>>)
    requires workers > 0 && FillSlots(halves, stride)
    requires |device| == |halves| && forall e :: 0 <= e < |halves| ==> device[e] == DeviceOf(e, start, workers)
    requires |counts| == start + workers
    requires forall g :: 0 <= g < start + workers ==> counts[g] == LoadOn(g, start, workers, |halves|)
    requires |slots| == start + workers && forall g :: 0 <= g < |slots| ==> SlotsOf(slots[g], |halves|, start, workers, g, false)
    ensures Copied(bytes, Packed(halves), |halves|, stride, start, workers, false, |halves|)
  {
    hide Rem, Load, PutPiece, PutAt, Piece, Fits, SlotOf, At, Delivered, Packed, FillSlots;
    bytes := seq(start + workers, g requires 0 <= g < start + workers => Blank(At(counts[g], stride)));
    PackedLength(halves, stride);
    for e := 0 to |halves|
      invariant Copied(bytes, Packed(halves), |halves|, stride, start, workers, false, e)
    {
      PlaceFits(bytes, Packed(halves), |halves|, stride, start, workers, false, e);
      CopyOne(bytes, Packed(halves), |halves|, stride, start, workers, false, e);
      PackedPiece(halves, stride, e);
      assert SlotsOf(slots[device[e]], |halves|, start, workers, device[e], false);
      var gpu, slot := device[e], slots[device[e]][e].value;
      HalvesFit(bytes[gpu], slot, stride, halves, e);
      TwoHalves(bytes[gpu], slot, stride, halves[e].gate, halves[e].up);
      var once := PutAt(bytes[gpu], At(slot, stride), halves[e].gate);
      bytes := bytes[gpu := PutAt(once, At(slot, stride) + |halves[e].gate|, halves[e].up)];
    }
  }

  lemma HalvesFit(b: seq<Byte>, k: nat, stride: nat, halves: seq<Halves>, e: nat)
    requires Fits(b, k, stride) && FillSlots(halves, stride) && e < |halves|
    ensures |halves[e].gate| + |halves[e].up| == stride && At(k, stride) + |halves[e].gate| + |halves[e].up| <= |b|
  {
  }

  /**
   Place a layer whose experts have tensors of their own.  An out-of-range start GPU or a missing
   tensor is an error; otherwise the GPUs hold what distributing the packed tensor would give them.
   */
  method DistributeHalves(tensors: seq<Option<Halves>>, stride: nat, devices: nat, start: nat) returns (r: Option<seq<Buffer>>)
    requires forall e :: 0 <= e < |tensors| && tensors[e].Some? ==> |tensors[e].value.gate| + |tensors[e].value.up| == stride
    ensures r.Some? <==> start < devices && forall e :: 0 <= e < |tensors| ==> tensors[e].Some?
    ensures r.Some? ==> exists halves :: Found(tensors, halves) && Distributed(r.value, Packed(halves), |halves|, stride, devices, start, false)
    ensures r.Some? ==> forall e: nat :: e < |tensors| ==> GateThenUp(r.value, e, stride, devices, start, tensors[e].value)
  {
    hide Rem, Copied, Distributed, Load, At, SlotsOf, Packed, GateThenUp;
    if start >= devices {
      return None;
    }
    var halves: seq<Halves> := [];
    for e := 0 to |tensors|
      invariant |halves| == e && forall i :: 0 <= i < e ==> tensors[i] == Some(halves[i])
    {
      if tensors[e].None? {
        return None;
      }
      halves := halves + [tensors[e].value];
    }
    var device, counts := Deal(|halves|, devices, start);
    var slots := MapAllSlots(|halves|, devices, start, false, device);
    var bytes := CopyHalves(halves, stride, start, devices - start, device, counts, slots);
    var buffers := MakeBuffers(bytes, counts, slots, [], Packed(halves), |halves|, stride, devices, start, false);
    assert Found(tensors, halves);
    r := Some(buffers);
    forall e: nat | e < |tensors| ensures GateThenUp(buffers, e, stride, devices, start, tensors[e].value) {
      HalvesInPlace(buffers, halves, stride, devices, start, e);
    }
  }

  /** The slot of expert e on its GPU holds its gate bytes and behind them its up bytes. */
  predicate GateThenUp(buffers: seq<Buffer>, e: nat, stride: nat, devices: nat, start: nat, h: Halves) {
    && start < devices
    && var owner := start + e % (devices - start);
    && owner < |buffers| && e < |buffers[owner].slots| && buffers[owner].slots[e] == Some(e / (devices - start))
    && var bytes, at := buffers[owner].bytes, e / (devices - start) * stride;
    && at + |h.gate| + |h.up| <= |bytes|
    && bytes[at..at + |h.gate|] == h.gate && bytes[at + |h.gate|..at + |h.gate| + |h.up|] == h.up
  }

  lemma HalvesInPlace(buffers: seq<Buffer>, halves: seq<Halves>, stride: nat, devices: nat, start: nat, e: nat)
    requires Distributed(buffers, Packed(halves), |halves|, stride, devices, start, false) && FillSlots(halves, stride) && e < |halves|
    ensures GateThenUp(buffers, e, stride, devices, start, halves[e])
  {
    hide Packed, Distributed, FillSlots, BytesInPlace, At;
    ExpertInPlace(buffers, Packed(halves), |halves|, stride, devices, start, false, e);
    PackedPiece(halves, stride, e);
    SlotSplits(buffers, Packed(halves), stride, devices, start, e, halves[e]);
  }

  lemma SlotSplits(buffers: seq<Buffer>, source: seq<Byte>, stride: nat, devices: nat, start: nat, e: nat, h: Halves)
    requires BytesInPlace(buffers, e, stride, devices, start, false, source)
    requires Fits(source, e, stride) && Piece(source, e, stride) == h.gate + h.up
    ensures GateThenUp(buffers, e, stride, devices, start, h)
  {
    var bytes, slot := buffers[start + e % (devices - start)].bytes, e / (devices - start);
    PieceSplits(bytes, slot, stride, h.gate, h.up);
  }

  lemma PieceSplits(b: seq<Byte>, k: nat, stride: nat, gate: seq<Byte>, up: seq<Byte>)
    requires Fits(b, k, stride) && Piece(b, k, stride) == gate + up
    ensures var at := k * stride;
            at + |gate| + |up| <= |b| && b[at..at + |gate|] == gate && b[at + |gate|..at + |gate| + |up|] == up
  {
    var at := k * stride;
    assert b[at..at + |gate|] == Piece(b, k, stride)[..|gate|];
    assert b[at + |gate|..at + |gate| + |up|] == Piece(b, k, stride)[|gate|..];
  }

  predicate Found(tensors: seq<Option<Halves>>, halves: seq<Halves>) {
    |halves| == |tensors| && forall e :: 0 <= e < |tensors| ==> tensors[e] == Some(halves[e])
  }

  // ---------------------------------------------------------------- worker configurations

  const MAX_EXPERTS: nat := 512

  /** Offsets stand for pointers into the GPU's buffers; no offset is a null pointer. */
  datatype ConfigEntry = ConfigEntry(expertId: nat, gateUp: Option<nat>, down: Option<nat>)

  function NullEntry(): ConfigEntry {
    ConfigEntry(0, None, None)
  }

  /** An entry for each of the GPU's experts, pointing at its slot in both buffers; null entries everywhere else. */
  predicate Configured(entries: seq<ConfigEntry>, slots: seq<Option<nat>>, experts: nat, gateUpStride: nat, downStride: nat) {
    && |entries| == MAX_EXPERTS && |slots| == experts
    && forall e :: 0 <= e < MAX_EXPERTS ==>
         entries[e] == if e < experts && slots[e].Some?
                       then ConfigEntry(e, Some(At(slots[e].value, gateUpStride)), Some(At(slots[e].value, downStride)))
                       else NullEntry()
  }

  /** Fill one GPU's entries from its slot map; more experts than entries is an error. */
  method BuildConfig(b: Buffer, experts: nat, gateUpStride: nat, downStride: nat) returns (r: Option<(seq<ConfigEntry>, nat)>)
    requires |b.slots| == experts
    ensures r.Some? <==> experts <= 512
    ensures r.Some? ==> Configured(r.value.0, b.slots, experts, gateUpStride, downStride)
    ensures r.Some? ==> r.value.1 == if exists e :: 0 <= e < experts && b.slots[e].Some? then b.count else 0
  {
    if experts > MAX_EXPERTS {
      return None;
    }
    var entries, local := seq(MAX_EXPERTS, _ => NullEntry()), 0;
    for e := 0 to experts
      invariant |entries| == MAX_EXPERTS
      invariant forall i :: 0 <= i < MAX_EXPERTS ==>
                  entries[i] == if i < e && b.slots[i].Some?
                                then ConfigEntry(i, Some(At(b.slots[i].value, gateUpStride)), Some(At(b.slots[i].value, downStride)))
                                else NullEntry()
      invariant local == if exists i :: 0 <= i < e && b.slots[i].Some? then b.count else 0
    {
      if b.slots[e].Some? {
        var slot := b.slots[e].value;
        entries := entries[e := ConfigEntry(e, Some(At(slot, gateUpStride)), Some(At(slot, downStride)))];
        local := b.count;
      }
    }
    r := Some((entries, local));
  }

  /** What one GPU knows of the experts of a layer. */
  datatype Layer = Layer(buffer: Buffer, experts: nat, gateUpStride: nat, downStride: nat)

  predicate LayerFits(layer: Option<Layer>) {
    layer.Some? ==> layer.value.experts <= MAX_EXPERTS
  }

  /**
   The configurations of all layers and, per layer, the index of its configuration or nothing for
   a layer without experts.  Layers beyond the number asked for are ignored.
   */
  method BuildLayerConfigs(layers: seq<Option<Layer>>, count: nat) returns (r: Option<(seq<Option<nat>>, seq<seq<ConfigEntry>>)>)
    requires forall l :: 0 <= l < |layers| ==> layers[l].Some? ==> |layers[l].value.buffer.slots| == layers[l].value.experts
    ensures r.Some? <==> forall l :: 0 <= l < |layers| && l < count ==> LayerFits(layers[l])
    ensures r.Some? ==> |r.value.0| == count
    ensures r.Some? ==> forall l :: 0 <= l < count ==> (r.value.0[l].Some? <==> l < |layers| && layers[l].Some?)
    ensures r.Some? ==> forall l :: 0 <= l < count && r.value.0[l].Some? ==>
              var y := layers[l].value;
              r.value.0[l].value < |r.value.1| && Configured(r.value.1[r.value.0[l].value], y.buffer.slots, y.experts, y.gateUpStride, y.downStride)
  {
    hide Configured;
    var pointers: seq<Option<nat>>, storage := seq(count, _ => None), [];
    var l := 0;
    while l < |layers| && l < count
      invariant 0 <= l <= |layers| && l <= count && |pointers| == count
      invariant forall k :: 0 <= k < l ==> LayerFits(layers[k])
      invariant forall k :: 0 <= k < count ==> (pointers[k].Some? <==> k < l && layers[k].Some?)
      invariant forall k :: 0 <= k < l && pointers[k].Some? ==>
                  var y := layers[k].value;
                  pointers[k].value < |storage| && Configured(storage[pointers[k].value], y.buffer.slots, y.experts, y.gateUpStride, y.downStride)
    {
      if layers[l].Some? {
        var y := layers[l].value;
        var config := BuildConfig(y.buffer, y.experts, y.gateUpStride, y.downStride);
        if config.None? {
          assert !LayerFits(layers[l]);
          return None;
        }
        pointers := pointers[l := Some(|storage|)];
        storage := storage + [config.value.0];
      }
      l := l + 1;
    }
    r := Some((pointers, storage));
  }

  /** In other words, every expert has exactly one owner, and the owner's slot points at exactly that expert's bytes. */
  lemma OneOwner(buffers: seq<Buffer>, source: seq<Byte>, experts: nat, stride: nat, start: nat, workers: nat, e: nat)
    requires Holds(buffers, source, experts, stride, start, workers) && e < experts
    ensures var owner := DeviceOf(e, start, workers);
            && start <= owner < |buffers|
            && (forall g :: 0 <= g < |buffers| ==> e < |buffers[g].slots| && (buffers[g].slots[e].Some? <==> g == owner))
            && var at := At(buffers[owner].slots[e].value, stride);
               && at + stride <= |buffers[owner].bytes| && At(e, stride) + stride <= |source|
               && buffers[owner].bytes[at..at + stride] == source[At(e, stride)..At(e, stride) + stride]
  {
  }

  // ---------------------------------------------------------------- partial sums

  /** What GPU g adds up: the contributions of its experts. */
  function PartialSum(f: nat -> real, g: nat, start: nat, workers: nat, n: nat): real
    requires workers > 0
  {
    if n == 0 then 0.0
    else PartialSum(f, g, start, workers, n - 1) + if DeviceOf(n - 1, start, workers) == g then f(n - 1) else 0.0
  }

  lemma {:induction false} SumOfOne(d: nat -> real, at: nat, n: nat)
    requires forall g: nat :: g < n && g != at ==> d(g) == 0.0
    ensures Sum(d, 0, n) == if at < n then d(at) else 0.0
  {
    if n > 0 {
      SumOfOne(d, at, n - 1);
    }
  }

  /** The partial sums of all GPUs add up to the unsharded sum. */
  lemma {:induction false} PartialSumsAddUp(f: nat -> real, start: nat, workers: nat, n: nat)
    requires workers > 0
    ensures Sum((g: nat) => PartialSum(f, g, start, workers, n), 0, start + workers) == Sum(f, 0, n)
  {
    hide Rem;
    var all := (g: nat) => PartialSum(f, g, start, workers, n);
    if n == 0 {
      SumZero(all, 0, start + workers);
    } else {
      var before := (g: nat) => PartialSum(f, g, start, workers, n - 1);
      var last := (g: nat) => if DeviceOf(n - 1, start, workers) == g then f(n - 1) else 0.0;
      PartialSumsAddUp(f, start, workers, n - 1);
      SumSame(before, (g: nat) => PartialSum(f, g, start, workers, n - 1), 0, start + workers);
      RemainderAtMost(n - 1, workers);
      SumOfOne(last, DeviceOf(n - 1, start, workers), start + workers);
      SumAdd(before, last, all, start + workers);
    }
    SumSame(all, (g: nat) => PartialSum(f, g, start, workers, n), 0, start + workers);
  }

  // ---------------------------------------------------------------- partial sums of what the GPUs hold

  /** An expert's contribution, from its number and its bytes. */
  type Contribution = (nat, seq<Byte>, seq<Byte>) -> real

  function BytesAt(b: seq<Byte>, at: nat, size: nat): seq<Byte> {
    if at + size <= |b| then b[at..at + size] else []
  }

  /** What one entry adds, read through its pointers; a null entry adds nothing. */
  function EntryTerm(f: Contribution, entry: ConfigEntry, gateUp: seq<Byte>, down: seq<Byte>, gateUpStride: nat, downStride: nat): real {
    if entry.gateUp.None? || entry.down.None? then 0.0
    else f(entry.expertId, BytesAt(gateUp, entry.gateUp.value, gateUpStride), BytesAt(down, entry.down.value, downStride))
  }

  /** A sharded layer: both tensors, where they were distributed from and to, and a configuration per GPU. */
  datatype Sharded = Sharded(
    gateUpSource: seq<Byte>, downSource: seq<Byte>, experts: nat, gateUpStride: nat, downStride: nat, start: nat, workers: nat,
    gateUp: seq<Buffer>, down: seq<Buffer>, configs: seq<seq<ConfigEntry>>)

  /** Both tensors are distributed alike, and every GPU is configured from its slot map. */
  ghost predicate Placement(p: Sharded) {
    && Holds(p.gateUp, p.gateUpSource, p.experts, p.gateUpStride, p.start, p.workers)
    && Holds(p.down, p.downSource, p.experts, p.downStride, p.start, p.workers)
    && |p.configs| == |p.gateUp| && p.experts <= MAX_EXPERTS
    && forall g :: 0 <= g < |p.configs| ==>
         p.down[g].slots == p.gateUp[g].slots && Configured(p.configs[g], p.gateUp[g].slots, p.experts, p.gateUpStride, p.downStride)
  }

  /** Distributing both tensors the same way gives equal slot maps. */
  lemma SlotMapsAgree(a: seq<Option<nat>>, b: seq<Option<nat>>, experts: nat, start: nat, workers: nat, gpu: nat, identity: bool)
    requires workers > 0 && SlotsOf(a, experts, start, workers, gpu, identity) && SlotsOf(b, experts, start, workers, gpu, identity)
    ensures a == b
  {
    hide Rem, SlotOf;
  }

  /** So a layer distributed tensor by tensor and configured GPU by GPU is placed. */
  lemma LayerIsPlaced(p: Sharded, keepHome: bool)
    requires Distributed(p.gateUp, p.gateUpSource, p.experts, p.gateUpStride, p.start + p.workers, p.start, keepHome)
    requires Distributed(p.down, p.downSource, p.experts, p.downStride, p.start + p.workers, p.start, keepHome)
    requires |p.configs| == |p.gateUp| && p.experts <= MAX_EXPERTS
    requires forall g :: 0 <= g < |p.configs| ==> Configured(p.configs[g], p.gateUp[g].slots, p.experts, p.gateUpStride, p.downStride)
    ensures Placement(p)
  {
    hide HoldsItsShare, SlotsOf, Configured;
    forall g | 0 <= g < |p.configs| ensures p.down[g].slots == p.gateUp[g].slots {
      SlotMapsAgree(p.gateUp[g].slots, p.down[g].slots, p.experts, p.start, p.workers, g, keepHome && g == 0);
    }
  }

  /** An expert's contribution in the unsharded layer. */
  function Unsharded(f: Contribution, p: Sharded, e: nat): real {
    f(e, BytesAt(p.gateUpSource, At(e, p.gateUpStride), p.gateUpStride), BytesAt(p.downSource, At(e, p.downStride), p.downStride))
  }

  /** What GPU g adds up over its first n entries, from the bytes in its own buffers. */
  function GpuSum(f: Contribution, p: Sharded, g: nat, n: nat): real {
    if n == 0 || g >= |p.configs| || g >= |p.gateUp| || g >= |p.down| || n > |p.configs[g]| then 0.0
    else GpuSum(f, p, g, n - 1) + EntryTerm(f, p.configs[g][n - 1], p.gateUp[g].bytes, p.down[g].bytes, p.gateUpStride, p.downStride)
  }

  lemma EntryIsItsExpert(f: Contribution, p: Sharded, g: nat, e: nat)
    requires g < |p.gateUp| && g < |p.down| && p.down[g].slots == p.gateUp[g].slots
    requires PlacedAt(p.gateUp[g], p.gateUpSource, e, p.gateUpStride) && PlacedAt(p.down[g], p.downSource, e, p.downStride)
    ensures var slot := p.gateUp[g].slots[e].value;
            EntryTerm(f, ConfigEntry(e, Some(At(slot, p.gateUpStride)), Some(At(slot, p.downStride))), p.gateUp[g].bytes, p.down[g].bytes,
                      p.gateUpStride, p.downStride) == Unsharded(f, p, e)
  {
    hide At;
  }

  lemma NullAddsNothing(f: Contribution, gateUp: seq<Byte>, down: seq<Byte>, gateUpStride: nat, downStride: nat)
    ensures EntryTerm(f, NullEntry(), gateUp, down, gateUpStride, downStride) == 0.0
  {
  }

  lemma {:induction false} GpuSumIsPartialSum(f: Contribution, p: Sharded, g: nat, n: nat)
    requires Placement(p) && g < |p.configs| && n <= MAX_EXPERTS
    ensures GpuSum(f, p, g, n)
            == PartialSum((e: nat) => Unsharded(f, p, e), g, p.start, p.workers, if n < p.experts then n else p.experts)
  {
    hide Rem, Load, At, EntryTerm, Unsharded, PlacedAt;
    if n > 0 {
      var e := n - 1;
      GpuSumIsPartialSum(f, p, g, e);
      assert Configured(p.configs[g], p.gateUp[g].slots, p.experts, p.gateUpStride, p.downStride);
      assert HoldsItsShare(p.gateUp[g], g, p.gateUpSource, p.experts, p.gateUpStride, p.start, p.workers);
      assert HoldsItsShare(p.down[g], g, p.downSource, p.experts, p.downStride, p.start, p.workers);
      if e < p.experts && p.gateUp[g].slots[e].Some? {
        EntryIsItsExpert(f, p, g, e);
      } else {
        NullAddsNothing(f, p.gateUp[g].bytes, p.down[g].bytes, p.gateUpStride, p.downStride);
      }
    }
  }

  /**
   What the GPUs add up over their non-null entries, from the bytes in their own buffers, is in all
   what the unsharded layer adds up over its experts, whatever an expert contributes.
   */
  lemma ShardedSumIsUnsharded(f: Contribution, p: Sharded)
    requires Placement(p)
    ensures Sum((g: nat) => GpuSum(f, p, g, MAX_EXPERTS), 0, p.start + p.workers) == Sum((e: nat) => Unsharded(f, p, e), 0, p.experts)
  {
    hide Rem, GpuSum, Unsharded, PartialSum, Configured, HoldsItsShare, At;
    var total := (e: nat) => Unsharded(f, p, e);
    var sharded := (g: nat) => GpuSum(f, p, g, MAX_EXPERTS);
    var partial := (g: nat) => PartialSum(total, g, p.start, p.workers, p.experts);
    forall g: nat | g < p.start + p.workers ensures sharded(g) == partial(g) {
      GpuSumIsPartialSum(f, p, g, MAX_EXPERTS);
    }
    SumSame(sharded, partial, 0, p.start + p.workers);
    PartialSumsAddUp(total, p.start, p.workers, p.experts);
    SumSame(partial, (g: nat) => PartialSum(total, g, p.start, p.workers, p.experts), 0, p.start + p.workers);
    SumSame(sharded, (g: nat) => GpuSum(f, p, g, MAX_EXPERTS), 0, p.start + p.workers);
  }
}
