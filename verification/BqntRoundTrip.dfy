/** What the writer writes, the reader reads back. */
module BqntRoundTrip {
  import opened Words
  import opened Options
  import opened LittleEndian
  import opened Fnv
  import opened BqntFormat
  import opened BqntWriter
  import opened BqntReader

  /** The finished file of a list of tensors. */
  function FileOf(maxTensors: nat, tensors: seq<Tensor>, metadata: seq<Byte>): seq<Byte> {
    Finish(WriteAll(maxTensors, tensors), metadata)
  }

  function TableEndExact(n: nat): nat {
    HEADER_SIZE + n * ENTRY_SIZE
  }

  // ---------------------------------------------------------------- the bytes of the finished file

  lemma FinishLength(w: Writer, metadata: seq<Byte>)
    requires |w.file| <= w.current && metadata != []
    ensures var end := MetadataOffset(w) + |metadata|;
            && w.current <= MetadataOffset(w)
            && |HeaderAndTable(w, metadata)| == TableEndExact(|w.entries|)
            && |Finish(w, metadata)| == if end > TableEndExact(|w.entries|) then end else TableEndExact(|w.entries|)
  {
    hide WriteAt, AlignUp, EncodeHeader, EncodeTable;
    AlignUpFacts(w.current, 8);
    var at := MetadataOffset(w);
    var padded := if at > w.current then WriteAt(w.file, w.current, Zeros(at - w.current)) else w.file;
    WriteAtLength(w.file, w.current, Zeros(at - w.current));
    WriteAtLength(padded, at, metadata);
    WriteAtLength(WriteAt(padded, at, metadata), 0, HeaderAndTable(w, metadata));
  }

  lemma FinishStarts(w: Writer, metadata: seq<Byte>)
    ensures HasData(Finish(w, metadata), 0, HeaderAndTable(w, metadata))
  {
  }

  /** Bytes written before, behind the table, are still there. */
  lemma FinishKeeps(w: Writer, metadata: seq<Byte>, at: nat, data: seq<Byte>)
    requires HasData(w.file, at, data) && at + |data| <= w.current
    requires |HeaderAndTable(w, metadata)| <= at
    ensures HasData(Finish(w, metadata), at, data)
  {
    hide WriteAt, HasData, AlignUp, EncodeHeader, EncodeTable;
    AlignUpFacts(w.current, 8);
    var meta := MetadataOffset(w);
    var padded := if meta > w.current then WriteAt(w.file, w.current, Zeros(meta - w.current)) else w.file;
    WriteAtKeeps(w.file, w.current, Zeros(meta - w.current), at, data);
    WriteAtKeeps(padded, meta, metadata, at, data);
    WriteAtKeeps(WriteAt(padded, meta, metadata), 0, HeaderAndTable(w, metadata), at, data);
  }

  lemma FinishHasMetadata(w: Writer, metadata: seq<Byte>)
    requires |HeaderAndTable(w, metadata)| <= MetadataOffset(w)
    ensures HasData(Finish(w, metadata), MetadataOffset(w), metadata)
  {
  }

  lemma DataIsSlice(file: seq<Byte>, at: nat, data: seq<Byte>)
    requires HasData(file, at, data) && at + |data| <= |file|
    ensures file[at..at + |data|] == data
  {
  }

  // ---------------------------------------------------------------- parsing it back

  /** Header fields and dimensions fit their widths. */
  ghost predicate Encodable(w: Writer, metadata: seq<Byte>) {
    && HeaderInRange(HeaderOf(w, metadata)) && |w.entries| < TWO_32
    && forall i :: 0 <= i < |w.entries| ==> EntryInRange(w.entries[i])
  }

  lemma HeaderReadsBack(w: Writer, metadata: seq<Byte>)
    requires |w.file| <= w.current && metadata != [] && Encodable(w, metadata)
    ensures var f := Finish(w, metadata);
            |f| >= HEADER_SIZE && Recognised(f) && ParseHeader(f) == HeaderOf(w, metadata) && ParseHeader(f).count == |w.entries|
            && TableFits(f, |w.entries|)
  {
    hide WriteAt, AlignUp, EncodeTable, FromBytes, ToBytes, EntryInRange, Finish;
    var f, h := Finish(w, metadata), HeaderOf(w, metadata);
    FinishLength(w, metadata);
    FinishStarts(w, metadata);
    HeaderPrefix(f, EncodeHeader(h), EncodeTable(w.entries));
    ParseEncodedHeader(h);
    SamePrefix(f, EncodeHeader(h));
  }

  lemma HeaderPrefix(f: seq<Byte>, header: seq<Byte>, table: seq<Byte>)
    requires |header| == HEADER_SIZE && HasData(f, 0, header + table) && |f| >= HEADER_SIZE + |table|
    ensures f[..HEADER_SIZE] == header && f[HEADER_SIZE..HEADER_SIZE + |table|] == table
  {
    var all := header + table;
    DataIsSlice(f, 0, all);
    assert f[..HEADER_SIZE] == f[0..0 + |all|][..HEADER_SIZE];
    assert f[HEADER_SIZE..HEADER_SIZE + |table|] == f[0..0 + |all|][HEADER_SIZE..];
  }

  /** Header fields depend on the first 32 bytes only. */
  lemma SamePrefix(f: seq<Byte>, b: seq<Byte>)
    requires |b| == HEADER_SIZE && |f| >= HEADER_SIZE && f[..HEADER_SIZE] == b
    ensures Recognised(f) == Recognised(b) && ParseHeader(f) == ParseHeader(b)
  {
    hide FromBytes;
    assert f[0..4] == b[0..4] && f[4..8] == b[4..8];
    assert f[8..12] == b[8..12] && f[12..16] == b[12..16];
    assert f[16..24] == b[16..24] && f[24..32] == b[24..32];
  }

  lemma EntryReadsBack(w: Writer, metadata: seq<Byte>, i: nat)
    requires |w.file| <= w.current && metadata != [] && Encodable(w, metadata) && i < |w.entries|
    ensures TableFits(Finish(w, metadata), |w.entries|) && EntryOf(Finish(w, metadata), |w.entries|, i) == w.entries[i]
  {
    hide WriteAt, AlignUp, EncodeEntry, EncodeHeader, ParseEntry, EntryInRange, Finish, EncodeTable;
    var f, table := Finish(w, metadata), EncodeTable(w.entries);
    FinishLength(w, metadata);
    FinishStarts(w, metadata);
    HeaderPrefix(f, EncodeHeader(HeaderOf(w, metadata)), table);
    TableSlice(w.entries, i);
    ParseEncodedEntry(w.entries[i]);
    EntryFits(f, |w.entries|, i);
    SliceOfSlice(f, HEADER_SIZE, table, i * ENTRY_SIZE, ENTRY_SIZE);
  }

  lemma SliceOfSlice(f: seq<Byte>, at: nat, part: seq<Byte>, from: nat, size: nat)
    requires at + |part| <= |f| && f[at..at + |part|] == part && from + size <= |part|
    ensures f[at + from..at + from + size] == part[from..from + size]
  {
    var a, b := f[at + from..at + from + size], part[from..from + size];
    forall k | 0 <= k < size ensures a[k] == b[k] {
      assert part[from + k] == f[at..at + |part|][from + k];
      assert at + (from + k) == at + from + k;
    }
  }

  // ---------------------------------------------------------------- acceptance

  ghost predicate DistinctHashes(tensors: seq<Tensor>) {
    forall i, j :: 0 <= i < j < |tensors| ==> Fnv1a(tensors[i].name) != Fnv1a(tensors[j].name)
  }

  predicate TensorOk(t: Tensor) {
    |t.data| == PackedSize(t.format, t.out, t.inp) && t.ndim <= MAX_NDIM
  }

  predicate DimsFit(t: Tensor) {
    t.out < TWO_32 && t.inp < TWO_32 && t.ndim < TWO_32
  }

  /** Inputs the writer's types allow, with at least one tensor and a text of metadata. */
  ghost predicate Writable(maxTensors: nat, tensors: seq<Tensor>, metadata: seq<Byte>) {
    && 0 < |tensors| < TWO_32 && metadata != []
    && |FileOf(maxTensors, tensors, metadata)| < TWO_64
    && forall i :: 0 <= i < |tensors| ==> DimsFit(tensors[i])
  }

  /** The reader sees the reserved region where the writer left it exactly when the writer reserved an entry. */
  lemma ReservedRegion(maxTensors: nat)
    ensures DataStart(Reserved(maxTensors % TWO_32)) <= DataStart(maxTensors) <==> maxTensors >= 1
  {
    hide DataStart;
    if maxTensors >= 1 {
      ReservedAtMost(maxTensors);
      DataStartMonotone(Reserved(maxTensors % TWO_32), maxTensors);
    } else {
      DefaultReserve();
    }
  }

  lemma ReservedAtMost(maxTensors: nat)
    requires maxTensors >= 1
    ensures Reserved(maxTensors % TWO_32) <= maxTensors
  {
  }

  lemma DataStartMonotone(a: nat, b: nat)
    requires a <= b
    ensures DataStart(a) <= DataStart(b)
  {
    hide AlignUp;
    AlignUpMonotone(HEADER_SIZE + a * ENTRY_SIZE, HEADER_SIZE + b * ENTRY_SIZE, ALIGNMENT);
  }

  lemma DefaultReserve()
    ensures DataStart(0) < DataStart(DEFAULT_RESERVED)
  {
  }

  lemma WriterEncodable(maxTensors: nat, tensors: seq<Tensor>, metadata: seq<Byte>)
    requires Writable(maxTensors, tensors, metadata)
    ensures var w := WriteAll(maxTensors, tensors);
            Inv(w, tensors) && w.maxTensors == maxTensors && Encodable(w, metadata)
            && w.current <= MetadataOffset(w) && MetadataOffset(w) + |metadata| <= |FileOf(maxTensors, tensors, metadata)|
  {
    hide WriteAt, AlignUp, HasData, WriteAll, Finish, FormatToCode;
    var w := WriteAll(maxTensors, tensors);
    WriteAllKeepsInv(maxTensors, tensors);
    FinishLength(w, metadata);
    forall i | 0 <= i < |w.entries| ensures EntryInRange(w.entries[i]) {
      assert Placed(w, tensors, i) && DimsFit(tensors[i]);
    }
  }

  lemma CodeRoundTrip(f: StorageDtype)
    ensures CodeToFormat(FormatToCode(f)) == Some(f)
  {
  }

  lemma EntryAccepted(maxTensors: nat, tensors: seq<Tensor>, metadata: seq<Byte>, i: nat)
    requires Writable(maxTensors, tensors, metadata) && i < |tensors|
    requires Inv(WriteAll(maxTensors, tensors), tensors)
    ensures var w := WriteAll(maxTensors, tensors);
            EntryWellFormed(|FileOf(maxTensors, tensors, metadata)|, HeaderOf(w, metadata), w.entries[i])
            ==> TensorOk(tensors[i])
    ensures var w := WriteAll(maxTensors, tensors);
            maxTensors >= 1 && TensorOk(tensors[i])
            ==> EntryWellFormed(|FileOf(maxTensors, tensors, metadata)|, HeaderOf(w, metadata), w.entries[i])
  {
    hide WriteAt, AlignUp, HasData, WriteAll, Finish, FormatToCode, CodeToFormat, PackedSize;
    var w := WriteAll(maxTensors, tensors);
    WriterEncodable(maxTensors, tensors, metadata);
    assert Placed(w, tensors, i);
    CodeRoundTrip(tensors[i].format);
    ReservedRegion(maxTensors);
  }

  /** The conditions under which a file of these tensors can be read. */
  ghost predicate Readable(maxTensors: nat, tensors: seq<Tensor>) {
    && maxTensors >= 1
    && (forall i :: 0 <= i < |tensors| ==> TensorOk(tensors[i]))
    && DistinctHashes(tensors)
  }

  lemma ReadableIsAccepted(maxTensors: nat, tensors: seq<Tensor>, metadata: seq<Byte>)
    requires Writable(maxTensors, tensors, metadata) && Readable(maxTensors, tensors)
    ensures WellFormed(FileOf(maxTensors, tensors, metadata))
  {
    hide WriteAt, AlignUp, HasData, WriteAll, Finish, EntryOf, EntryWellFormed, TensorOk, EntryInRange, Recognised, ParseHeader;
    var w, f := WriteAll(maxTensors, tensors), FileOf(maxTensors, tensors, metadata);
    WriterEncodable(maxTensors, tensors, metadata);
    HeaderReadsBack(w, metadata);
    ReservedRegion(maxTensors);
    assert Placed(w, tensors, 0);
    forall i: nat | i < |tensors|
      ensures EntryOf(f, |w.entries|, i) == w.entries[i] && EntryWellFormed(|f|, ParseHeader(f), w.entries[i])
      ensures w.entries[i].hash == Fnv1a(tensors[i].name)
    {
      EntryReadsBack(w, metadata, i);
      EntryAccepted(maxTensors, tensors, metadata, i);
      assert Placed(w, tensors, i);
    }
  }

  lemma AcceptedIsReadable(maxTensors: nat, tensors: seq<Tensor>, metadata: seq<Byte>)
    requires Writable(maxTensors, tensors, metadata) && WellFormed(FileOf(maxTensors, tensors, metadata))
    ensures Readable(maxTensors, tensors)
  {
    hide WriteAt, AlignUp, HasData, WriteAll, Finish, EntryOf, TensorOk, EntryInRange, Recognised, ParseHeader, PackedSize;
    var w, f := WriteAll(maxTensors, tensors), FileOf(maxTensors, tensors, metadata);
    WriterEncodable(maxTensors, tensors, metadata);
    HeaderReadsBack(w, metadata);
    ReservedRegion(maxTensors);
    forall i: nat | i < |tensors|
      ensures EntryOf(f, |w.entries|, i) == w.entries[i] && TensorOk(tensors[i])
      ensures w.entries[i].hash == Fnv1a(tensors[i].name)
    {
      EntryReadsBack(w, metadata, i);
      EntryAccepted(maxTensors, tensors, metadata, i);
      assert EntryWellFormed(|f|, ParseHeader(f), EntryOf(f, |w.entries|, i));
      assert Placed(w, tensors, i);
    }
    assert EntryWellFormed(|f|, ParseHeader(f), EntryOf(f, |w.entries|, 0));
  }

  /**
   The reader accepts the writer's file exactly when at least one entry was reserved, every
   tensor has its packed size and a plausible rank, and no two names have the same hash.
   */
  lemma AcceptedIffReadable(maxTensors: nat, tensors: seq<Tensor>, metadata: seq<Byte>)
    requires Writable(maxTensors, tensors, metadata)
    ensures WellFormed(FileOf(maxTensors, tensors, metadata)) <==> Readable(maxTensors, tensors)
  {
    hide WellFormed, Readable, FileOf, Writable;
    if Readable(maxTensors, tensors) {
      ReadableIsAccepted(maxTensors, tensors, metadata);
    }
    if WellFormed(FileOf(maxTensors, tensors, metadata)) {
      AcceptedIsReadable(maxTensors, tensors, metadata);
    }
  }

  // ---------------------------------------------------------------- the file, byte by byte

  lemma FieldInFile(file: seq<Byte>, base: nat, part: seq<Byte>, at: nat, width: nat, value: nat)
    requires HasData(file, base, part) && FieldAt(part, at, width, value) && width > 0
    ensures FieldAt(file, base + at, width, value)
  {
    ByteHeld(file, base, part, at + width - 1);
    forall k | 0 <= k < width ensures file[base + at + k] as int == value / Pow256(k) % 256 {
      ByteHeld(file, base, part, at + k);
      assert file[base + (at + k)] == part[at + k];
    }
  }

  lemma PartHeld(file: seq<Byte>, base: nat, a: seq<Byte>, b: seq<Byte>, c: seq<Byte>)
    requires HasData(file, base, a + b + c)
    ensures HasData(file, base + |a|, b)
  {
    TailHeld(file, base, a + b + c, |a|);
    assert (a + b + c)[|a|..] == b + c;
    if b != [] {
      ByteHeld(file, base + |a|, b + c, |b| - 1);
    }
    forall k | 0 <= k < |b| ensures file[base + |a| + k] == b[k] {
      ByteHeld(file, base + |a|, b + c, k);
      assert (b + c)[k] == b[k];
    }
  }

  /** Magic, version, counts and the place of the metadata, at their places in the finished file. */
  lemma WrittenHeader(maxTensors: nat, tensors: seq<Tensor>, metadata: seq<Byte>)
    ensures var f, w := FileOf(maxTensors, tensors, metadata), WriteAll(maxTensors, tensors);
            && |w.entries| == |tensors|
            && FieldAt(f, 0, 4, 0x544E5142) && FieldAt(f, 4, 4, 1)
            && FieldAt(f, 8, 4, |tensors| % TWO_32) && FieldAt(f, 12, 4, maxTensors % TWO_32)
            && FieldAt(f, 16, 8, MetadataOffset(w)) && FieldAt(f, 24, 8, |metadata|)
  {
    hide Finish, HasData, FieldAt, EncodeHeader, EncodeTable, MetadataOffset, WriteAll;
    var f, w := FileOf(maxTensors, tensors, metadata), WriteAll(maxTensors, tensors);
    WriteAllKeepsInv(maxTensors, tensors);
    var h := HeaderOf(w, metadata);
    FinishStarts(w, metadata);
    assert [] + EncodeHeader(h) + EncodeTable(w.entries) == HeaderAndTable(w, metadata);
    PartHeld(f, 0, [], EncodeHeader(h), EncodeTable(w.entries));
    HeaderLayout(h);
    FieldInFile(f, 0, EncodeHeader(h), 0, 4, 0x544E5142);
    FieldInFile(f, 0, EncodeHeader(h), 4, 4, 1);
    FieldInFile(f, 0, EncodeHeader(h), 8, 4, h.count);
    FieldInFile(f, 0, EncodeHeader(h), 12, 4, h.reserved);
    FieldInFile(f, 0, EncodeHeader(h), 16, 8, h.metaOffset);
    FieldInFile(f, 0, EncodeHeader(h), 24, 8, h.metaSize);
  }

  lemma EntryHeld(w: Writer, metadata: seq<Byte>, i: nat)
    requires i < |w.entries|
    ensures HasData(Finish(w, metadata), 32 + 48 * i, EncodeEntry(w.entries[i]))
  {
    hide Finish, HasData, EncodeHeader, EncodeTable, EncodeEntry;
    var e, header, table := w.entries[i], EncodeHeader(HeaderOf(w, metadata)), EncodeTable(w.entries);
    FinishStarts(w, metadata);
    TableSlice(w.entries, i);
    var front, back := table[..48 * i], table[48 * i + 48..];
    assert table == front + EncodeEntry(e) + back;
    assert (header + front) + EncodeEntry(e) + back == HeaderAndTable(w, metadata);
    PartHeld(Finish(w, metadata), 0, header + front, EncodeEntry(e), back);
    assert |header + front| == 32 + 48 * i;
  }

  /** The 48 bytes of every tensor's entry, at their places in the finished file. */
  lemma WrittenEntry(maxTensors: nat, tensors: seq<Tensor>, metadata: seq<Byte>, i: nat)
    requires i < |tensors|
    ensures var f, w, at, t := FileOf(maxTensors, tensors, metadata), WriteAll(maxTensors, tensors), 32 + 48 * i, tensors[i];
            && |w.entries| == |tensors| && at + 48 <= |f|
            && FieldAt(f, at, 8, Fnv1a(t.name))
            && f[at + 8] as int == (match t.format case Bf16 => 0 case PcG32Q4 => 1 case Rnf4G128 => 2 case F32 => 3)
            && FieldAt(f, at + 12, 4, t.out) && FieldAt(f, at + 16, 4, t.inp) && FieldAt(f, at + 20, 4, t.ndim)
            && FieldAt(f, at + 24, 8, w.entries[i].offset) && FieldAt(f, at + 32, 8, |t.data|) && FieldAt(f, at + 40, 8, 0)
  {
    hide Finish, HasData, FieldAt, EncodeEntry, WriteAll, Fnv1a, DataStart;
    var f, w, at := FileOf(maxTensors, tensors, metadata), WriteAll(maxTensors, tensors), 32 + 48 * i;
    WriteAllKeepsInv(maxTensors, tensors);
    assert Placed(w, tensors, i);
    var e := w.entries[i];
    EntryHeld(w, metadata, i);
    EntryLayout(e);
    FieldInFile(f, at, EncodeEntry(e), 0, 8, e.hash);
    FieldInFile(f, at, EncodeEntry(e), 12, 4, e.out);
    FieldInFile(f, at, EncodeEntry(e), 16, 4, e.inp);
    FieldInFile(f, at, EncodeEntry(e), 20, 4, e.ndim);
    FieldInFile(f, at, EncodeEntry(e), 24, 8, e.offset);
    FieldInFile(f, at, EncodeEntry(e), 32, 8, e.bytes);
    FieldInFile(f, at, EncodeEntry(e), 40, 8, 0);
    ByteHeld(f, at, EncodeEntry(e), 8);
    ByteHeld(f, at, EncodeEntry(e), 47);
  }

  /** The gap in front of a tensor is what the alignment needs and no more. */
  lemma {:induction false} NoRoomIsWasted(maxTensors: nat, tensors: seq<Tensor>, i: nat)
    requires i < |tensors|
    ensures var w := WriteAll(maxTensors, tensors);
            && |w.entries| == |tensors| && w.entries[i].offset % 65536 == 0
            && var end := if i == 0 then 32 + 48 * maxTensors else w.entries[i - 1].offset + |tensors[i - 1].data|;
               end <= w.entries[i].offset < end + 65536
  {
    hide DataStart, AlignUp, HasData, WriteTensor;
    var n := |tensors| - 1;
    WriteAllKeepsInv(maxTensors, tensors);
    WriteAllKeepsInv(maxTensors, tensors[..n]);
    assert Placed(WriteAll(maxTensors, tensors), tensors, i);
    if i < n {
      NoRoomIsWasted(maxTensors, tensors[..n], i);
      EarlierEntriesStay(WriteAll(maxTensors, tensors[..n]), tensors[n]);
    } else {
      LastEntryIsNear(maxTensors, tensors);
    }
  }

  lemma EarlierEntriesStay(w: Writer, t: Tensor)
    ensures WriteTensor(w, t).entries == w.entries + [EntryFor(t, NextOffset(w))] && WriteTensor(w, t).current == NextOffset(w) + |t.data|
  {
  }

  lemma LastEntryIsNear(maxTensors: nat, tensors: seq<Tensor>)
    requires tensors != []
    ensures var w, n := WriteAll(maxTensors, tensors), |tensors| - 1;
            && |w.entries| == |tensors|
            && var end := if n == 0 then 32 + 48 * maxTensors else w.entries[n - 1].offset + |tensors[n - 1].data|;
               end <= w.entries[n].offset < end + 65536
  {
    hide AlignUp, HasData, WriteTensor;
    var n := |tensors| - 1;
    var front := WriteAll(maxTensors, tensors[..n]);
    WriteAllKeepsInv(maxTensors, tensors);
    WriteAllKeepsInv(maxTensors, tensors[..n]);
    EarlierEntriesStay(front, tensors[n]);
    AlignUpFacts(32 + 48 * maxTensors, ALIGNMENT);
    NextOffsetFacts(front);
    DataStartFacts(maxTensors);
    if n > 0 {
      assert tensors[..n][..n - 1] == tensors[..n - 1];
      EarlierEntriesStay(WriteAll(maxTensors, tensors[..n - 1]), tensors[n - 1]);
    }
  }

  // ---------------------------------------------------------------- and nothing else

  /** Every byte after a write: the written one, the one that was there, or a zero in a hole. */
  lemma WriteAtByte(file: seq<Byte>, pos: nat, data: seq<Byte>, p: nat)
    requires p < |WriteAt(file, pos, data)|
    ensures WriteAt(file, pos, data)[p] == if pos <= p < pos + |data| then data[p - pos] else if p < |file| then file[p] else 0
  {
    if data != [] {
      var before := if pos <= |file| then file[..pos] else file + Zeros(pos - |file|);
      if p >= pos + |data| {
        assert (before + data + file[pos + |data|..])[p] == file[pos + |data|..][p - (pos + |data|)];
      }
    }
  }

  predicate InTensor(entries: seq<Entry>, p: nat) {
    exists i :: 0 <= i < |entries| && entries[i].offset <= p < entries[i].offset + entries[i].bytes
  }

  ghost predicate ZeroElsewhere(w: Writer) {
    forall p: nat :: p < |w.file| && !InTensor(w.entries, p) ==> w.file[p] == 0
  }

  lemma MoreTensors(entries: seq<Entry>, e: Entry, p: nat)
    ensures InTensor(entries + [e], p) <==> InTensor(entries, p) || e.offset <= p < e.offset + e.bytes
  {
    if i :| 0 <= i < |entries| && entries[i].offset <= p < entries[i].offset + entries[i].bytes {
      assert (entries + [e])[i] == entries[i];
    }
    assert (entries + [e])[|entries|] == e;
  }

  lemma WriteTensorAddsNothingElse(w: Writer, t: Tensor)
    requires ZeroElsewhere(w)
    ensures ZeroElsewhere(WriteTensor(w, t))
  {
    hide WriteAt, AlignUp, DataStart, InTensor, Fnv1a;
    var start := if w.current == 0 then DataStart(w.maxTensors) else w.current;
    var at := NextOffset(w);
    var padded := if at > start then WriteAt(w.file, start, Zeros(at - start)) else w.file;
    forall p: nat | p < |WriteTensor(w, t).file| && !InTensor(WriteTensor(w, t).entries, p) ensures WriteTensor(w, t).file[p] == 0 {
      MoreTensors(w.entries, EntryFor(t, at), p);
      WriteAtByte(padded, at, t.data, p);
      if p < |padded| && at > start {
        WriteAtByte(w.file, start, Zeros(at - start), p);
      }
    }
  }

  lemma {:induction false} WriteAllAddsNothingElse(maxTensors: nat, tensors: seq<Tensor>)
    ensures ZeroElsewhere(WriteAll(maxTensors, tensors))
  {
    hide ZeroElsewhere, WriteTensor;
    if tensors == [] {
      NothingWritten(maxTensors);
    } else {
      WriteAllAddsNothingElse(maxTensors, tensors[..|tensors| - 1]);
      WriteTensorAddsNothingElse(WriteAll(maxTensors, tensors[..|tensors| - 1]), tensors[|tensors| - 1]);
    }
  }

  lemma NothingWritten(maxTensors: nat)
    ensures ZeroElsewhere(NewWriter(maxTensors))
  {
  }

  /** Behind the table, every byte of the file that is in no tensor and not metadata is zero. */
  lemma NothingElseIsWritten(maxTensors: nat, tensors: seq<Tensor>, metadata: seq<Byte>, p: nat)
    requires TableEndExact(|tensors|) <= p < |FileOf(maxTensors, tensors, metadata)|
    ensures var f, w := FileOf(maxTensors, tensors, metadata), WriteAll(maxTensors, tensors);
            || InTensor(w.entries, p) || MetadataOffset(w) <= p < MetadataOffset(w) + |metadata| || f[p] == 0
  {
    hide WriteAt, AlignUp, InTensor, HeaderAndTable, WriteAll;
    var w := WriteAll(maxTensors, tensors);
    WriteAllKeepsInv(maxTensors, tensors);
    WriteAllAddsNothingElse(maxTensors, tensors);
    var at := MetadataOffset(w);
    var padded := if at > w.current then WriteAt(w.file, w.current, Zeros(at - w.current)) else w.file;
    var filled := WriteAt(padded, at, metadata);
    TableLength(w, metadata);
    WriteAtByte(filled, 0, HeaderAndTable(w, metadata), p);
    if p < |filled| {
      WriteAtByte(padded, at, metadata, p);
      if p < |padded| && at > w.current {
        WriteAtByte(w.file, w.current, Zeros(at - w.current), p);
      }
    }
  }

  lemma TableLength(w: Writer, metadata: seq<Byte>)
    ensures |HeaderAndTable(w, metadata)| == TableEndExact(|w.entries|)
  {
  }

  // ---------------------------------------------------------------- round trip

  /** The table written last ends before the first tensor. */
  predicate TableFitsReserve(maxTensors: nat, n: nat) {
    TableEndExact(n) <= DataStart(maxTensors)
  }

  lemma WithinReservedCount(maxTensors: nat, n: nat)
    requires n <= maxTensors
    ensures TableFitsReserve(maxTensors, n)
  {
  }

  /** A tensor comes back as it was written. */
  ghost predicate Recovered(f: seq<Byte>, t: Tensor)
    requires WellFormed(f)
  {
    && Fnv1a(t.name) in Parsed(f).entries
    && var e := Parsed(f).entries[Fnv1a(t.name)];
    && e.out == t.out && e.inp == t.inp && e.ndim == t.ndim
    && CodeToFormat(e.format) == Some(t.format)
    && e.offset % ALIGNMENT == 0
    && TensorData(f, e) == Some(t.data)
  }

  /** The metadata comes back as well, and is what the header points at. */
  lemma MetadataRoundTrip(maxTensors: nat, tensors: seq<Tensor>, metadata: seq<Byte>)
    requires Writable(maxTensors, tensors, metadata) && TableFitsReserve(maxTensors, |tensors|)
    ensures var f := FileOf(maxTensors, tensors, metadata);
            && |f| >= HEADER_SIZE
            && var h := ParseHeader(f);
            h.metaOffset + h.metaSize <= |f| && f[h.metaOffset..h.metaOffset + h.metaSize] == metadata
  {
    hide WriteAt, AlignUp, HasData, WriteAll, Finish, DataStart, ParseHeader, Encodable, HeaderAndTable;
    var w := WriteAll(maxTensors, tensors);
    WriterEncodable(maxTensors, tensors, metadata);
    HeaderReadsBack(w, metadata);
    FinishLength(w, metadata);
    assert Placed(w, tensors, 0);
    FinishHasMetadata(w, metadata);
    DataIsSlice(FileOf(maxTensors, tensors, metadata), MetadataOffset(w), metadata);
  }

  /** Tensors written one after the other never overlap. */
  lemma TensorsDisjoint(maxTensors: nat, tensors: seq<Tensor>, i: nat, j: nat)
    requires i < j < |tensors|
    ensures var w := WriteAll(maxTensors, tensors);
            |w.entries| == |tensors| && w.entries[i].offset + w.entries[i].bytes <= w.entries[j].offset
  {
    WriteAllKeepsInv(maxTensors, tensors);
  }

  /** As long as the tensors have no bytes, the next one is written to where the data starts. */
  lemma {:induction false} EmptyTensorsTakeNoSpace(maxTensors: nat, tensors: seq<Tensor>)
    requires forall i :: 0 <= i < |tensors| ==> tensors[i].data == []
    ensures NextOffset(WriteAll(maxTensors, tensors)) == DataStart(maxTensors) && WriteAll(maxTensors, tensors).maxTensors == maxTensors
  {
    hide WriteAt, AlignUp, DataStart;
    DataStartFacts(maxTensors);
    AlignUpFacts(DataStart(maxTensors), ALIGNMENT);
    if tensors != [] {
      EmptyTensorsTakeNoSpace(maxTensors, tensors[..|tensors| - 1]);
    }
  }

  /** The first tensor that has bytes lies where the data starts. */
  lemma {:induction false} FirstWithBytes(maxTensors: nat, tensors: seq<Tensor>) returns (i: nat)
    requires exists k :: 0 <= k < |tensors| && tensors[k].data != []
    ensures i < |tensors| == |WriteAll(maxTensors, tensors).entries| && tensors[i].data != []
    ensures WriteAll(maxTensors, tensors).entries[i].offset == DataStart(maxTensors)
  {
    hide DataStart, AlignUp, WriteAt, Placed;
    var front := tensors[..|tensors| - 1];
    WriteAllKeepsInv(maxTensors, tensors);
    if k :| 0 <= k < |front| && front[k].data != [] {
      i := FirstWithBytes(maxTensors, front);
    } else {
      i := |tensors| - 1;
      EmptyTensorsTakeNoSpace(maxTensors, front);
    }
  }

  /**
   The table written last is clear of every tensor that has bytes exactly when it fits the reserved
   space or no tensor has any.
   */
  lemma TableClearIffItFits(maxTensors: nat, tensors: seq<Tensor>)
    ensures var w := WriteAll(maxTensors, tensors);
            && |w.entries| == |tensors|
            && (TableFitsReserve(maxTensors, |tensors|) || (forall i :: 0 <= i < |tensors| ==> tensors[i].data == []) <==>
                  forall i: nat :: i < |tensors| && tensors[i].data != [] ==> TableEndExact(|tensors|) <= w.entries[i].offset)
  {
    hide WriteAll, HasData, DataStart;
    WriteAllKeepsInv(maxTensors, tensors);
    var w := WriteAll(maxTensors, tensors);
    forall i: nat | i < |tensors| ensures DataStart(maxTensors) <= w.entries[i].offset {
      assert Placed(w, tensors, i);
    }
    if k :| 0 <= k < |tensors| && tensors[k].data != [] {
      var first := FirstWithBytes(maxTensors, tensors);
    }
  }

  /** Header and table win over what lies under them. */
  predicate Agrees(top: seq<Byte>, at: nat, data: seq<Byte>) {
    forall k :: 0 <= k < |data| && at + k < |top| ==> data[k] == top[at + k]
  }

  lemma TailByte(file: seq<Byte>, at: nat, data: seq<Byte>, skip: nat, k: nat)
    requires HasData(file, at, data) && skip + k < |data|
    ensures at + skip + k < |file| && file[at + skip + k] == data[skip..][k]
  {
    var m := skip + k;
    assert at + skip + k == at + m && data[skip..][k] == data[m];
  }

  /** The end of data that the file holds. */
  lemma TailHeld(file: seq<Byte>, at: nat, data: seq<Byte>, skip: nat)
    requires HasData(file, at, data) && skip <= |data|
    ensures HasData(file, at + skip, data[skip..])
  {
    if skip < |data| {
      TailByte(file, at, data, skip, |data| - skip - 1);
    }
    forall k | 0 <= k < |data[skip..]| ensures at + skip + k < |file| && file[at + skip + k] == data[skip..][k] {
      TailByte(file, at, data, skip, k);
    }
  }

  /** A tensor is read back exactly when the table, where it lies over the tensor, happens to agree with it. */
  lemma TensorSurvivesIff(maxTensors: nat, tensors: seq<Tensor>, metadata: seq<Byte>, i: nat)
    requires Writable(maxTensors, tensors, metadata) && i < |tensors|
    ensures var w := WriteAll(maxTensors, tensors);
            && Inv(w, tensors)
            && (TensorData(FileOf(maxTensors, tensors, metadata), w.entries[i]) == Some(tensors[i].data) <==>
                  Agrees(HeaderAndTable(w, metadata), w.entries[i].offset, tensors[i].data))
  {
    hide WriteAt, AlignUp, WriteAll, Finish, DataStart, Encodable, HeaderAndTable;
    var w, f := WriteAll(maxTensors, tensors), FileOf(maxTensors, tensors, metadata);
    WriterEncodable(maxTensors, tensors, metadata);
    assert Placed(w, tensors, i);
    FinishLength(w, metadata);
    FinishStarts(w, metadata);
    var at, data, top := w.entries[i].offset, tensors[i].data, HeaderAndTable(w, metadata);
    var skip := if at >= |top| then 0 else if at + |data| <= |top| then |data| else |top| - at;
    TailHeld(w.file, at, data, skip);
    if skip < |data| {
      FinishKeeps(w, metadata, at + skip, data[skip..]);
    }
    forall k | 0 <= k < |data| ensures at + k < |f| && f[at + k] == if at + k < |top| then top[at + k] else data[k] {
      if at + k < |top| {
        assert f[0 + (at + k)] == top[at + k];
      } else {
        assert data[skip..][k - skip] == data[k];
        assert f[at + skip + (k - skip)] == data[skip..][k - skip];
      }
    }
    SliceIffBytes(f, at, data);
  }

  lemma SliceIffBytes(f: seq<Byte>, at: nat, data: seq<Byte>)
    requires at + |data| <= |f|
    ensures f[at..at + |data|] == data <==> forall k :: 0 <= k < |data| ==> f[at + k] == data[k]
  {
    if forall k :: 0 <= k < |data| ==> f[at + k] == data[k] {
      DataIsSlice(f, at, data);
    } else {
      var k :| 0 <= k < |data| && f[at + k] != data[k];
      assert f[at..at + |data|][k] == f[at + k];
    }
  }

  /**
   Round trip: a tensor of an accepted file is found under its name's hash with its dimensions,
   format and data, at a 64 KiB aligned offset, exactly when the table agrees with the tensor
   wherever it lies over it.
   */
  lemma RoundTripIff(maxTensors: nat, tensors: seq<Tensor>, metadata: seq<Byte>, i: nat)
    requires Writable(maxTensors, tensors, metadata) && Readable(maxTensors, tensors) && i < |tensors|
    ensures WellFormed(FileOf(maxTensors, tensors, metadata))
    ensures var w := WriteAll(maxTensors, tensors);
            && Inv(w, tensors)
            && (Recovered(FileOf(maxTensors, tensors, metadata), tensors[i]) <==>
                  Agrees(HeaderAndTable(w, metadata), w.entries[i].offset, tensors[i].data))
  {
    hide WriteAt, AlignUp, HasData, WriteAll, Finish, DataStart, WellFormed, Readable, EntryOf, FormatToCode, CodeToFormat, ParseHeader, Parsed, TensorData, Encodable, Agrees, HeaderAndTable;
    var w, f := WriteAll(maxTensors, tensors), FileOf(maxTensors, tensors, metadata);
    ReadableIsAccepted(maxTensors, tensors, metadata);
    WriterEncodable(maxTensors, tensors, metadata);
    TensorSurvivesIff(maxTensors, tensors, metadata, i);
    HeaderReadsBack(w, metadata);
    EntryReadsBack(w, metadata, i);
    LookupFindsTensor(f, i);
    assert Placed(w, tensors, i);
    CodeRoundTrip(tensors[i].format);
  }

  /** When the table fits the reserved space, every tensor comes back. */
  lemma RoundTrip(maxTensors: nat, tensors: seq<Tensor>, metadata: seq<Byte>, i: nat)
    requires Writable(maxTensors, tensors, metadata) && Readable(maxTensors, tensors)
    requires TableFitsReserve(maxTensors, |tensors|) && i < |tensors|
    ensures WellFormed(FileOf(maxTensors, tensors, metadata))
    ensures Recovered(FileOf(maxTensors, tensors, metadata), tensors[i])
  {
    hide WriteAll, Finish, DataStart, WellFormed, Readable, Recovered, Encodable, HasData;
    var w := WriteAll(maxTensors, tensors);
    RoundTripIff(maxTensors, tensors, metadata, i);
    WriterEncodable(maxTensors, tensors, metadata);
    FinishLength(w, metadata);
    assert Placed(w, tensors, i);
  }

  // ---------------------------------------------------------------- where the round trip ends

  /** A file without tensors puts its metadata under the header, and the reader refuses it. */
  lemma NoTensorsIsRejected(maxTensors: nat, metadata: seq<Byte>)
    requires metadata != [] && |metadata| < TWO_64
    ensures !WellFormed(FileOf(maxTensors, [], metadata))
  {
    hide WriteAt, Finish, ParseHeader, Recognised;
    var w := WriteAll(maxTensors, []);
    WriteAllKeepsInv(maxTensors, []);
    HeaderReadsBack(w, metadata);
    DataStartFacts(Reserved(maxTensors % TWO_32));
  }

  /** A table longer than the reserved space is written over tensor data: those bytes are the table's. */
  lemma LongTableOverwrites(maxTensors: nat, tensors: seq<Tensor>, metadata: seq<Byte>, p: nat)
    requires Writable(maxTensors, tensors, metadata) && p < TableEndExact(|tensors|)
    ensures var w := WriteAll(maxTensors, tensors);
            && p < |HeaderAndTable(w, metadata)| && p < |FileOf(maxTensors, tensors, metadata)|
            && FileOf(maxTensors, tensors, metadata)[p] == HeaderAndTable(w, metadata)[p]
  {
    hide WriteAt, AlignUp, WriteAll, Finish, Encodable, HeaderAndTable;
    var w := WriteAll(maxTensors, tensors);
    WriterEncodable(maxTensors, tensors, metadata);
    FinishLength(w, metadata);
    FinishStarts(w, metadata);
  }

  lemma CurrentAfter(w: Writer, t: Tensor)
    ensures WriteTensor(w, t).maxTensors == w.maxTensors
    ensures WriteTensor(w, t).current <= (if w.current == 0 then DataStart(w.maxTensors) else w.current) + ALIGNMENT + |t.data|
  {
  }

  lemma {:induction false} WrittenLength(maxTensors: nat, tensors: seq<Tensor>)
    requires forall i :: 0 <= i < |tensors| ==> |tensors[i].data| <= 4
    ensures WriteAll(maxTensors, tensors).current <= DataStart(maxTensors) + |tensors| * (ALIGNMENT + 4)
    ensures WriteAll(maxTensors, tensors).maxTensors == maxTensors
  {
    hide WriteTensor, AlignUp, DataStart;
    if tensors != [] {
      var front := tensors[..|tensors| - 1];
      WrittenLength(maxTensors, front);
      CurrentAfter(WriteAll(maxTensors, front), tensors[|tensors| - 1]);
    }
  }

  /** A one-element tensor named by two characters below 128. */
  function Scalar(i: nat): Tensor {
    Tensor([i / 128 % 128, i % 128], F32, 1, 1, 1, [1, 2, 3, 4])
  }

  function Scalars(): (tensors: seq<Tensor>)
    ensures |tensors| == 1365
  {
    seq(1365, i requires 0 <= i < 1365 => Scalar(i))
  }

  lemma ScalarsFileFits(metadata: seq<Byte>)
    requires metadata != [] && |metadata| < TWO_32
    ensures |FileOf(1, Scalars(), metadata)| < TWO_64
  {
    hide WriteAt, AlignUp, HasData, WriteAll, Finish, Placed, DataStart, EntryFor;
    var w := WriteAll(1, Scalars());
    WriteAllKeepsInv(1, Scalars());
    WrittenLength(1, Scalars());
    FirstDataStart();
    MetadataSoonAfter(w);
    FinishLength(w, metadata);
  }

  lemma FirstDataStart()
    ensures DataStart(1) == ALIGNMENT
  {
  }

  lemma MetadataSoonAfter(w: Writer)
    ensures MetadataOffset(w) < w.current + 8
  {
  }

  lemma ScalarNamesDiffer(i: nat, j: nat)
    requires i < j < 16384
    ensures Fnv1a(Scalar(i).name) != Fnv1a(Scalar(j).name)
  {
    hide Fnv1a;
    if Fnv1a(Scalar(i).name) == Fnv1a(Scalar(j).name) {
      TwoByteNamesDiffer(i / 128 % 128, i % 128, j / 128 % 128, j % 128);
    }
  }

  lemma ScalarsReadable(metadata: seq<Byte>)
    requires metadata != [] && |metadata| < TWO_32
    ensures Writable(1, Scalars(), metadata) && Readable(1, Scalars())
  {
    hide FileOf, Fnv1a;
    ScalarsFileFits(metadata);
    forall i, j | 0 <= i < j < 1365 ensures Fnv1a(Scalars()[i].name) != Fnv1a(Scalars()[j].name) {
      ScalarNamesDiffer(i, j);
    }
  }

  lemma ByteOfLastEntry(entries: seq<Entry>, header: seq<Byte>)
    requires |entries| == 1365 && |header| == HEADER_SIZE
    ensures |header + EncodeTable(entries)| > ALIGNMENT && (header + EncodeTable(entries))[ALIGNMENT] == entries[1364].bytes % 256
  {
  }

  lemma ScalarsAccepted(metadata: seq<Byte>)
    requires metadata != [] && |metadata| < TWO_32
    ensures var f, w := FileOf(1, Scalars(), metadata), WriteAll(1, Scalars());
            && Writable(1, Scalars(), metadata) && WellFormed(f) && Inv(w, Scalars())
            && ParseHeader(f).count == 1365 && TableFits(f, 1365)
            && EntryOf(f, 1365, 0) == w.entries[0] && w.entries[0].offset == ALIGNMENT && w.entries[0].bytes == 4
  {
    hide WriteAt, WriteAll, Finish, WellFormed, Readable, EntryOf, ParseHeader, Encodable, DataStart, HasData, Fnv1a;
    var w := WriteAll(1, Scalars());
    ScalarsReadable(metadata);
    ReadableIsAccepted(1, Scalars(), metadata);
    WriterEncodable(1, Scalars(), metadata);
    HeaderReadsBack(w, metadata);
    EntryReadsBack(w, metadata, 0);
    FirstDataStart();
    assert Placed(w, Scalars(), 0);
  }

  lemma ScalarOverwritten(metadata: seq<Byte>)
    requires Writable(1, Scalars(), metadata) && Inv(WriteAll(1, Scalars()), Scalars())
    ensures var f := FileOf(1, Scalars(), metadata); ALIGNMENT < |f| && f[ALIGNMENT] == 4
  {
    hide WriteAt, WriteAll, Finish, EncodeHeader, EncodeTable, HasData, Fnv1a, Writable;
    var w := WriteAll(1, Scalars());
    assert Placed(w, Scalars(), 1364);
    ByteOfLastEntry(w.entries, EncodeHeader(HeaderOf(w, metadata)));
    LongTableOverwrites(1, Scalars(), metadata, ALIGNMENT);
  }

  /**
   The reader compares tensor offsets with the reserved table region only, so it accepts a file
   whose table is longer than that region, lies over its first tensor and has destroyed it,
   whatever metadata the file carries.
   */
  lemma AcceptedAlthoughTableOverlaps(metadata: seq<Byte>)
    requires metadata != [] && |metadata| < TWO_32
    ensures var f := FileOf(1, Scalars(), metadata);
            && WellFormed(f) && ParseHeader(f).count == 1365
            && EntryOf(f, 1365, 0).offset < TableEndExact(1365)
            && TensorData(f, EntryOf(f, 1365, 0)) != Some(Scalars()[0].data)
  {
    hide FileOf, WriteAll, WellFormed, ParseHeader, EntryOf, Inv;
    ScalarsAccepted(metadata);
    ScalarOverwritten(metadata);
    var f := FileOf(1, Scalars(), metadata);
    var e := EntryOf(f, 1365, 0);
    assert Scalars()[0].data == [1, 2, 3, 4] && e.bytes == 4;
    assert TensorData(f, e).Some? ==> TensorData(f, e).value[0] == f[ALIGNMENT];
  }
}
