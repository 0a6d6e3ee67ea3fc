/** The validating reader of BQNT files. */
module BqntReader {
  import opened Words
  import opened Options
  import opened LittleEndian
  import opened BqntFormat

  datatype Error =
    | TooSmall | NotBqnt | UnsupportedVersion
    | TableBeyondFile | MetadataOverflows | MetadataBeyondFile | MetadataOverlapsTable
    | ImplausibleNdim | UnknownFormat | PackedSizeOverflows | SizeMismatch
    | TensorOverflows | TensorBeyondFile | TensorOverlapsTable | TensorOverlapsMetadata | DuplicateHash

  datatype Result<+T> = Ok(value: T) | Err(error: Error)

  datatype BqntFile = BqntFile(entries: map<nat, Entry>, count: nat, metaOffset: nat, metaSize: nat)

  // ---------------------------------------------------------------- what a file is

  predicate RangesOverlap(startA: nat, endA: nat, startB: nat, endB: nat) {
    startA < endB && startB < endA
  }

  function EntryAt(file: seq<Byte>, i: nat): Entry
    requires HEADER_SIZE + i * ENTRY_SIZE + ENTRY_SIZE <= |file|
  {
    ParseEntry(file[HEADER_SIZE + i * ENTRY_SIZE..HEADER_SIZE + i * ENTRY_SIZE + ENTRY_SIZE])
  }

  function TableEnd(h: Header): nat {
    DataStart(Reserved(h.reserved))
  }

  predicate HeaderWellFormed(file: seq<Byte>) {
    && |file| >= HEADER_SIZE && Recognised(file)
    && var h := ParseHeader(file);
    && HEADER_SIZE + h.count * ENTRY_SIZE <= |file|
    && h.metaOffset + h.metaSize <= |file|
    && (h.metaSize != 0 ==> TableEnd(h) <= h.metaOffset)
  }

  /** One table entry describes bytes inside the file, clear of the table region and the metadata. */
  predicate EntryWellFormed(length: nat, h: Header, e: Entry) {
    && e.ndim <= MAX_NDIM
    && CodeToFormat(e.format).Some?
    && e.bytes == PackedSize(CodeToFormat(e.format).value, e.out, e.inp)
    && e.offset + e.bytes <= length
    && TableEnd(h) <= e.offset
    && (h.metaSize != 0 ==> !RangesOverlap(e.offset, e.offset + e.bytes, h.metaOffset, h.metaOffset + h.metaSize))
  }

  predicate TableFits(file: seq<Byte>, n: nat) {
    HEADER_SIZE + n * ENTRY_SIZE <= |file|
  }

  lemma EntryFits(file: seq<Byte>, n: nat, i: nat)
    requires TableFits(file, n) && i < n
    ensures HEADER_SIZE + i * ENTRY_SIZE + ENTRY_SIZE <= |file|
  {
  }

  function EntryOf(file: seq<Byte>, n: nat, i: nat): Entry
    requires TableFits(file, n) && i < n
  {
    EntryFits(file, n, i);
    EntryAt(file, i)
  }

  /** The first k entries are well-formed and no two of them have the same hash. */
  ghost predicate EntriesWellFormed(file: seq<Byte>, h: Header, k: nat)
    requires TableFits(file, h.count) && k <= h.count
  {
    && (forall i: nat :: i < k ==> EntryWellFormed(|file|, h, EntryOf(file, h.count, i)))
    && (forall i: nat, j: nat :: i < j < k ==> EntryOf(file, h.count, i).hash != EntryOf(file, h.count, j).hash)
  }

  /** Well-formedness in unbounded integers, stated without the reader's order of checks. */
  ghost predicate WellFormed(file: seq<Byte>) {
    HeaderWellFormed(file) && EntriesWellFormed(file, ParseHeader(file), ParseHeader(file).count)
  }

  // ---------------------------------------------------------------- the same, byte by byte

  /** Bytes a tensor of a format code takes. */
  function SizeOfCode(code: int, out: nat, inp: nat): Option<nat> {
    if code == 0 then Some(out * inp * 2)
    else if code == 1 then Some(out * ((inp + 31) / 32) * 20)
    else if code == 2 then Some(out * ((inp + 127) / 128) * 132)
    else if code == 3 then Some(out * inp * 4)
    else None
  }

  /** Where the table region ends when the header reserves that many entries. */
  function RegionEnd(reserved: nat): nat {
    (32 + 48 * (if reserved == 0 then 4096 else reserved) + 65535) / 65536 * 65536
  }

  /** An entry's tensor has its size and lies in the file, behind the table region and clear of the metadata. */
  predicate Describes(length: nat, regionEnd: nat, metaOffset: nat, metaSize: nat, e: Entry) {
    && e.ndim <= 16
    && SizeOfCode(e.format, e.out, e.inp) == Some(e.bytes)
    && regionEnd <= e.offset && e.offset + e.bytes <= length
    && (metaSize == 0 || !(e.offset < metaOffset + metaSize && metaOffset < e.offset + e.bytes))
  }

  /** What the bytes of a file must be for the reader to accept it. */
  ghost predicate Acceptable(file: seq<Byte>) {
    && |file| >= 32 && Word32At(file, 0) == 0x544E5142 && Word32At(file, 4) == 1
    && var count, regionEnd, metaOffset, metaSize := Word32At(file, 8), RegionEnd(Word32At(file, 12)), Word64At(file, 16), Word64At(file, 24);
    && 32 + 48 * count <= |file| && metaOffset + metaSize <= |file| && (metaSize == 0 || regionEnd <= metaOffset)
    && (forall i: nat :: i < count ==> Describes(|file|, regionEnd, metaOffset, metaSize, StoredEntry(file, i)))
    && forall i: nat, j: nat :: i < j < count ==> StoredEntry(file, i).hash != StoredEntry(file, j).hash
  }

  /** The reader's result lists what the bytes of the file say. */
  ghost predicate Lists(file: seq<Byte>, b: BqntFile) {
    && |file| >= 32 && b.count == Word32At(file, 8) && b.metaOffset == Word64At(file, 16) && b.metaSize == Word64At(file, 24)
    && |b.entries| == b.count && 32 + 48 * b.count <= |file|
    && forall i: nat :: i < b.count ==>
         var e := StoredEntry(file, i); e.hash in b.entries && b.entries[e.hash] == e
  }

  lemma EntryIsStored(file: seq<Byte>, n: nat, i: nat)
    requires TableFits(file, n) && i < n
    ensures 32 + 48 * i + 48 <= |file| && EntryOf(file, n, i) == StoredEntry(file, i)
  {
    hide ParseEntry, StoredEntry;
    EntryFits(file, n, i);
    assert HEADER_SIZE + i * ENTRY_SIZE == 32 + 48 * i;
    ParsesStored(file, i);
  }

  lemma DescribesIsWellFormed(length: nat, h: Header, e: Entry)
    ensures EntryWellFormed(length, h, e) <==> Describes(length, RegionEnd(h.reserved), h.metaOffset, h.metaSize, e)
  {
  }

  lemma EntriesAreDescribed(file: seq<Byte>, h: Header)
    requires TableFits(file, h.count)
    ensures EntriesWellFormed(file, h, h.count) <==>
            && (forall i: nat :: i < h.count ==> Describes(|file|, RegionEnd(h.reserved), h.metaOffset, h.metaSize, StoredEntry(file, i)))
            && forall i: nat, j: nat :: i < j < h.count ==> StoredEntry(file, i).hash != StoredEntry(file, j).hash
  {
    hide EntryWellFormed, Describes, EntryOf, StoredEntry, RegionEnd;
    forall i: nat | i < h.count
      ensures EntryOf(file, h.count, i) == StoredEntry(file, i)
      ensures EntryWellFormed(|file|, h, EntryOf(file, h.count, i)) <==>
              Describes(|file|, RegionEnd(h.reserved), h.metaOffset, h.metaSize, StoredEntry(file, i))
    {
      EntryIsStored(file, h.count, i);
      DescribesIsWellFormed(|file|, h, EntryOf(file, h.count, i));
    }
    if EntriesWellFormed(file, h, h.count) {
      forall i: nat | i < h.count ensures Describes(|file|, RegionEnd(h.reserved), h.metaOffset, h.metaSize, StoredEntry(file, i)) {
        assert EntryWellFormed(|file|, h, EntryOf(file, h.count, i));
      }
      forall i: nat, j: nat | i < j < h.count ensures StoredEntry(file, i).hash != StoredEntry(file, j).hash {
        assert EntryOf(file, h.count, i).hash != EntryOf(file, h.count, j).hash;
      }
    } else if i: nat :| i < h.count && !EntryWellFormed(|file|, h, EntryOf(file, h.count, i)) {
    } else {
      var i: nat, j: nat :| i < j < h.count && EntryOf(file, h.count, i).hash == EntryOf(file, h.count, j).hash;
      assert StoredEntry(file, i).hash == StoredEntry(file, j).hash;
    }
  }

  /** Well-formedness is a property of the bytes at fixed positions. */
  lemma WellFormedIsAcceptable(file: seq<Byte>)
    ensures WellFormed(file) <==> Acceptable(file)
  {
    hide EntriesWellFormed, Describes, EntryOf, StoredEntry, ParseHeader, Recognised, Word32At, Word64At;
    if |file| >= 32 {
      ParsesHeader(file);
      var h := ParseHeader(file);
      if TableFits(file, h.count) {
        EntriesAreDescribed(file, h);
      }
      assert TableEnd(h) == RegionEnd(h.reserved);
    }
  }

  lemma ParsedIsListed(file: seq<Byte>)
    requires WellFormed(file)
    ensures Lists(file, Parsed(file))
  {
    hide EntryWellFormed, EntryOf, StoredEntry, ParseHeader, Recognised, Word32At, Word64At;
    ParsesHeader(file);
    var h := ParseHeader(file);
    TableLookup(file, h, h.count);
    forall i: nat | i < h.count
      ensures var e := StoredEntry(file, i); e.hash in Parsed(file).entries && Parsed(file).entries[e.hash] == e
    {
      EntryIsStored(file, h.count, i);
    }
  }

  // ---------------------------------------------------------------- the checks of the reader

  function CheckHeader(file: seq<Byte>): Result<Header> {
    if |file| < HEADER_SIZE then Err(TooSmall)
    else if FromBytes(file[0..4]) != MAGIC then Err(NotBqnt)
    else if FromBytes(file[4..8]) != VERSION then Err(UnsupportedVersion)
    else
      var h := ParseHeader(file);
      if HEADER_SIZE + h.count * ENTRY_SIZE > |file| then Err(TableBeyondFile)
      else
        var metaEnd := CheckedAdd(h.metaOffset, h.metaSize);
        if metaEnd.None? then Err(MetadataOverflows)
        else if metaEnd.value > |file| then Err(MetadataBeyondFile)
        else if h.metaSize != 0 && h.metaOffset < TableEnd(h) then Err(MetadataOverlapsTable)
        else Ok(h)
  }

  function CheckEntry(length: nat, h: Header, e: Entry, seen: set<nat>): Result<Entry> {
    if e.ndim > MAX_NDIM then Err(ImplausibleNdim)
    else if CodeToFormat(e.format).None? then Err(UnknownFormat)
    else
      var expected := CheckedPackedSize(CodeToFormat(e.format).value, e.out, e.inp);
      if expected.None? then Err(PackedSizeOverflows)
      else if e.bytes != expected.value then Err(SizeMismatch)
      else
        var end := CheckedAdd(e.offset, e.bytes);
        if end.None? then Err(TensorOverflows)
        else if end.value > length then Err(TensorBeyondFile)
        else if e.offset < TableEnd(h) then Err(TensorOverlapsTable)
        else if h.metaSize != 0 && RangesOverlap(e.offset, end.value, h.metaOffset, h.metaOffset + h.metaSize) then Err(TensorOverlapsMetadata)
        else if e.hash in seen then Err(DuplicateHash)
        else Ok(e)
  }

  lemma HeaderCheckIsExact(file: seq<Byte>)
    requires |file| < TWO_64
    ensures CheckHeader(file).Ok? <==> HeaderWellFormed(file)
    ensures CheckHeader(file).Ok? ==> CheckHeader(file).value == ParseHeader(file)
  {
  }

  lemma EntryCheckIsExact(length: nat, h: Header, e: Entry, seen: set<nat>)
    requires length < TWO_64 && EntryInRange(e)
    ensures CheckEntry(length, h, e, seen) == Ok(e) <==> EntryWellFormed(length, h, e) && e.hash !in seen
    ensures CheckEntry(length, h, e, seen).Ok? ==> CheckEntry(length, h, e, seen) == Ok(e)
  {
  }

  // ---------------------------------------------------------------- what is wrong with a file

  /** What each complaint about the header means; the checks before it pass. */
  predicate HeaderComplaint(file: seq<Byte>, error: Error) {
    if |file| < 32 then error == TooSmall
    else if Word32At(file, 0) != 0x544E5142 then error == NotBqnt
    else if Word32At(file, 4) != 1 then error == UnsupportedVersion
    else
      var metaOffset, metaSize := Word64At(file, 16), Word64At(file, 24);
      match error
      case TableBeyondFile => 32 + 48 * Word32At(file, 8) > |file|
      case MetadataOverflows => 32 + 48 * Word32At(file, 8) <= |file| && metaOffset + metaSize >= TWO_64
      case MetadataBeyondFile => 32 + 48 * Word32At(file, 8) <= |file| && |file| < metaOffset + metaSize < TWO_64
      case MetadataOverlapsTable =>
        && 32 + 48 * Word32At(file, 8) <= |file| && metaOffset + metaSize <= |file|
        && metaSize != 0 && metaOffset < RegionEnd(Word32At(file, 12))
      case _ => false
  }

  /** What each complaint about an entry means; `earlier` are the hashes of the entries before it. */
  predicate EntryComplaint(length: nat, regionEnd: nat, metaOffset: nat, metaSize: nat, e: Entry, earlier: set<nat>, error: Error) {
    var size, end := SizeOfCode(e.format, e.out, e.inp), e.offset + e.bytes;
    match error
    case ImplausibleNdim => e.ndim > 16
    case UnknownFormat => e.ndim <= 16 && size.None?
    case PackedSizeOverflows => e.ndim <= 16 && size.Some? && size.value >= TWO_64
    case SizeMismatch => e.ndim <= 16 && size.Some? && size.value < TWO_64 && size.value != e.bytes
    case TensorOverflows => e.ndim <= 16 && size == Some(e.bytes) && end >= TWO_64
    case TensorBeyondFile => e.ndim <= 16 && size == Some(e.bytes) && length < end < TWO_64
    case TensorOverlapsTable => e.ndim <= 16 && size == Some(e.bytes) && end <= length && e.offset < regionEnd
    case TensorOverlapsMetadata =>
      && e.ndim <= 16 && size == Some(e.bytes) && end <= length && regionEnd <= e.offset
      && metaSize != 0 && e.offset < metaOffset + metaSize && metaOffset < end
    case DuplicateHash => Describes(length, regionEnd, metaOffset, metaSize, e) && e.hash in earlier
    case _ => false
  }

  /** The hashes of the first n entries. */
  ghost function Hashes(file: seq<Byte>, n: nat): set<nat>
    requires 32 + 48 * n <= |file|
  {
    set i: nat | i < n :: StoredEntry(file, i).hash
  }

  /** The complaint is about the header, or about the first entry that is not as it should be. */
  ghost predicate Complaint(file: seq<Byte>, error: Error) {
    || HeaderComplaint(file, error)
    || (&& |file| >= 32 && 32 + 48 * Word32At(file, 8) <= |file|
        && exists i: nat :: i < Word32At(file, 8) && FirstBad(file, i, error))
  }

  /** Entry i is the first bad one and this is what is wrong with it. */
  ghost predicate FirstBad(file: seq<Byte>, i: nat, error: Error)
    requires |file| >= 32 && 32 + 48 * i + 48 <= |file|
  {
    var regionEnd, metaOffset, metaSize := RegionEnd(Word32At(file, 12)), Word64At(file, 16), Word64At(file, 24);
    && (forall j: nat :: j < i ==> Describes(|file|, regionEnd, metaOffset, metaSize, StoredEntry(file, j)))
    && EntryComplaint(|file|, regionEnd, metaOffset, metaSize, StoredEntry(file, i), Hashes(file, i), error)
  }

  lemma HeaderErrorIsMeant(file: seq<Byte>)
    requires |file| < TWO_64 && CheckHeader(file).Err?
    ensures HeaderComplaint(file, CheckHeader(file).error)
  {
    hide ParseHeader, FromBytes, Word32At, Word64At, RegionEnd, TableEnd;
    if |file| >= 32 {
      ParsesHeader(file);
      ReadsWord32(file, 0);
      ReadsWord32(file, 4);
      SameRegion(ParseHeader(file));
    }
  }

  lemma SameRegion(h: Header)
    ensures TableEnd(h) == RegionEnd(h.reserved)
  {
  }

  lemma EntryErrorIsMeant(length: nat, h: Header, e: Entry, seen: set<nat>)
    requires length < TWO_64 && EntryInRange(e) && CheckEntry(length, h, e, seen).Err?
    ensures EntryComplaint(length, RegionEnd(h.reserved), h.metaOffset, h.metaSize, e, seen, CheckEntry(length, h, e, seen).error)
  {
    hide RegionEnd, TableEnd, CheckedPackedSize, PackedSize;
    SameRegion(h);
    if CodeToFormat(e.format).Some? {
      CheckedSizeIsExact(CodeToFormat(e.format).value, e.out, e.inp);
    }
    SameSize(e);
  }

  lemma SameSize(e: Entry)
    ensures SizeOfCode(e.format, e.out, e.inp) ==
            if CodeToFormat(e.format).None? then None else Some(PackedSize(CodeToFormat(e.format).value, e.out, e.inp))
  {
  }

  lemma FirstBadEntry(file: seq<Byte>, h: Header, i: nat)
    requires |file| >= 32 && |file| < TWO_64 && h == ParseHeader(file) && TableFits(file, h.count) && i < h.count && EntriesWellFormed(file, h, i)
    requires CheckEntry(|file|, h, EntryOf(file, h.count, i), Table(file, h.count, i).Keys).Err?
    ensures h.count == Word32At(file, 8) && 32 + 48 * i + 48 <= |file|
    ensures FirstBad(file, i, CheckEntry(|file|, h, EntryOf(file, h.count, i), Table(file, h.count, i).Keys).error)
  {
    hide EntryWellFormed, CheckEntry, EntryComplaint, Describes, EntryOf, StoredEntry, ParseHeader, Word32At, Word64At, RegionEnd, EntryInRange;
    ParsesHeader(file);
    forall j: nat | j <= i
      ensures 32 + 48 * j + 48 <= |file| && EntryOf(file, h.count, j) == StoredEntry(file, j)
    {
      EntryIsStored(file, h.count, j);
    }
    forall j: nat | j < i ensures Describes(|file|, RegionEnd(h.reserved), h.metaOffset, h.metaSize, StoredEntry(file, j)) {
      DescribesIsWellFormed(|file|, h, EntryOf(file, h.count, j));
    }
    SameHashes(file, h, i);
    StoredInRange(file, i);
    EntryErrorIsMeant(|file|, h, EntryOf(file, h.count, i), Table(file, h.count, i).Keys);
  }

  lemma StoredInRange(file: seq<Byte>, i: nat)
    requires 32 + 48 * i + 48 <= |file|
    ensures EntryInRange(StoredEntry(file, i))
  {
    hide ParseEntry, StoredEntry, EntryInRange;
    ParsesStored(file, i);
    ParsedInRange(file[32 + 48 * i..32 + 48 * i + 48]);
  }

  lemma SameHashes(file: seq<Byte>, h: Header, i: nat)
    requires TableFits(file, h.count) && i <= h.count && EntriesWellFormed(file, h, i)
    ensures 32 + 48 * i <= |file| && Table(file, h.count, i).Keys == Hashes(file, i)
  {
    hide EntryWellFormed, EntryOf, StoredEntry;
    forall j: nat | j < i ensures EntryOf(file, h.count, j) == StoredEntry(file, j) {
      EntryIsStored(file, h.count, j);
    }
    forall x ensures x in Table(file, h.count, i).Keys <==> x in Hashes(file, i) {
      TableKeys(file, h, i, x);
    }
  }

  // ---------------------------------------------------------------- open

  /** The table as the reader keeps it, keyed by hash. */
  function Table(file: seq<Byte>, n: nat, k: nat): map<nat, Entry>
    requires TableFits(file, n) && k <= n
  {
    if k == 0 then map[] else Table(file, n, k - 1)[EntryOf(file, n, k - 1).hash := EntryOf(file, n, k - 1)]
  }

  lemma {:induction false} TableLookup(file: seq<Byte>, h: Header, k: nat)
    requires TableFits(file, h.count) && k <= h.count && EntriesWellFormed(file, h, k)
    ensures forall i: nat :: i < k ==> EntryOf(file, h.count, i).hash in Table(file, h.count, k)
    ensures forall i: nat :: i < k ==> Table(file, h.count, k)[EntryOf(file, h.count, i).hash] == EntryOf(file, h.count, i)
    ensures forall x :: x in Table(file, h.count, k) ==> exists i: nat :: i < k && EntryOf(file, h.count, i).hash == x
    ensures |Table(file, h.count, k)| == k
  {
    hide EntryWellFormed, EntryOf;
    if k > 0 {
      TableLookup(file, h, k - 1);
    }
  }

  lemma TableKeys(file: seq<Byte>, h: Header, k: nat, x: nat)
    requires TableFits(file, h.count) && k <= h.count && EntriesWellFormed(file, h, k)
    ensures x in Table(file, h.count, k) <==> exists i: nat :: i < k && EntryOf(file, h.count, i).hash == x
  {
    TableLookup(file, h, k);
  }

  ghost function Parsed(file: seq<Byte>): BqntFile
    requires WellFormed(file)
  {
    var h := ParseHeader(file);
    BqntFile(Table(file, h.count, h.count), h.count, h.metaOffset, h.metaSize)
  }

  lemma OneMoreEntry(file: seq<Byte>, h: Header, k: nat)
    requires TableFits(file, h.count) && k < h.count && EntriesWellFormed(file, h, k) && |file| < TWO_64
    ensures var e := EntryOf(file, h.count, k);
            CheckEntry(|file|, h, e, Table(file, h.count, k).Keys).Ok? <==> EntriesWellFormed(file, h, k + 1)
  {
    hide EntryWellFormed, CheckEntry, ParseEntry, EntryInRange;
    var e := EntryOf(file, h.count, k);
    EntryFits(file, h.count, k);
    ParsedInRange(file[HEADER_SIZE + k * ENTRY_SIZE..HEADER_SIZE + k * ENTRY_SIZE + ENTRY_SIZE]);
    EntryCheckIsExact(|file|, h, e, Table(file, h.count, k).Keys);
    TableKeys(file, h, k, e.hash);
  }

  /** The reader's checks pass exactly for the well-formed files. */
  method ReadTable(file: seq<Byte>) returns (r: Result<BqntFile>)
    requires |file| < TWO_64
    ensures r.Ok? <==> WellFormed(file)
    ensures r.Ok? ==> r.value == Parsed(file)
    ensures r.Err? ==> Complaint(file, r.error)
  {
    hide Complaint, Hashes;
    HeaderCheckIsExact(file);
    var checked := CheckHeader(file);
    if checked.Err? {
      HeaderComplaintCounts(file);
      return Err(checked.error);
    }
    hide HeaderWellFormed, EntryWellFormed, EntryOf, CheckEntry, ParseHeader, FromBytes;
    var h := checked.value;
    assert TableFits(file, h.count) by {
      HeaderTableFits(file);
    }
    var entries: map<nat, Entry> := map[];
    var i := 0;
    while i < h.count
      invariant 0 <= i <= h.count
      invariant EntriesWellFormed(file, h, i)
      invariant entries == Table(file, h.count, i)
    {
      var e := EntryOf(file, h.count, i);
      var ok := CheckEntry(|file|, h, e, entries.Keys);
      OneMoreEntry(file, h, i);
      if ok.Err? {
        FailsForGood(file, h, i + 1);
        EntryComplaintCounts(file, h, i);
        return Err(ok.error);
      }
      entries := entries[e.hash := e];
      i := i + 1;
    }
    r := Ok(BqntFile(entries, h.count, h.metaOffset, h.metaSize));
  }

  lemma HeaderComplaintCounts(file: seq<Byte>)
    requires |file| < TWO_64 && CheckHeader(file).Err?
    ensures Complaint(file, CheckHeader(file).error)
  {
    HeaderErrorIsMeant(file);
  }

  lemma EntryComplaintCounts(file: seq<Byte>, h: Header, i: nat)
    requires HEADER_SIZE <= |file| < TWO_64 && h == ParseHeader(file) && TableFits(file, h.count) && i < h.count && EntriesWellFormed(file, h, i)
    requires CheckEntry(|file|, h, EntryOf(file, h.count, i), Table(file, h.count, i).Keys).Err?
    ensures Complaint(file, CheckEntry(|file|, h, EntryOf(file, h.count, i), Table(file, h.count, i).Keys).error)
  {
    hide CheckEntry, EntryOf, ParseHeader, FirstBad, EntriesWellFormed, Word32At;
    FirstBadEntry(file, h, i);
  }

  /** The reader accepts exactly the files whose bytes are as they should be, lists what they say, and else names the first fault. */
  method Open(file: seq<Byte>) returns (r: Result<BqntFile>)
    requires |file| < TWO_64
    ensures r.Ok? <==> Acceptable(file)
    ensures r.Ok? ==> Lists(file, r.value)
    ensures r.Err? ==> Complaint(file, r.error)
    ensures r.Ok? <==> WellFormed(file)
    ensures r.Ok? ==> r.value == Parsed(file)
  {
    hide WellFormed, Acceptable, Lists, Complaint;
    r := ReadTable(file);
    WellFormedIsAcceptable(file);
    if r.Ok? {
      ParsedIsListed(file);
    }
  }

  lemma HeaderTableFits(file: seq<Byte>)
    requires HeaderWellFormed(file)
    ensures TableFits(file, ParseHeader(file).count)
  {
  }

  lemma FailsForGood(file: seq<Byte>, h: Header, k: nat)
    requires TableFits(file, h.count) && k <= h.count && !EntriesWellFormed(file, h, k)
    ensures !EntriesWellFormed(file, h, h.count)
  {
  }

  // ---------------------------------------------------------------- tensor bytes

  function TensorData(file: seq<Byte>, e: Entry): Option<seq<Byte>> {
    if e.offset + e.bytes <= |file| then Some(file[e.offset..e.offset + e.bytes]) else None
  }

  /** Entry `i` of an accepted file is found under its hash, and its bytes are in the file. */
  lemma LookupFindsTensor(file: seq<Byte>, i: nat)
    requires WellFormed(file) && i < ParseHeader(file).count
    ensures var h := ParseHeader(file);
            var e := EntryOf(file, h.count, i);
            && e.hash in Parsed(file).entries && Parsed(file).entries[e.hash] == e
            && TensorData(file, e) == Some(file[e.offset..e.offset + e.bytes])
            && e.bytes == PackedSize(CodeToFormat(e.format).value, e.out, e.inp)
  {
    hide EntryOf, PackedSize, RangesOverlap, TableEnd;
    var h := ParseHeader(file);
    TableLookup(file, h, h.count);
    assert EntryWellFormed(|file|, h, EntryOf(file, h.count, i));
  }

  /** No tensor of an accepted file overlaps the table when the reserved region covers the table. */
  lemma TensorsClearOfTable(file: seq<Byte>, i: nat)
    requires WellFormed(file) && i < ParseHeader(file).count
    requires HEADER_SIZE + ParseHeader(file).count * ENTRY_SIZE <= TableEnd(ParseHeader(file))
    ensures HEADER_SIZE + ParseHeader(file).count * ENTRY_SIZE <= EntryOf(file, ParseHeader(file).count, i).offset
  {
  }

  /**
   The reader's check of an entry keeps tensors clear of the table exactly when the reserved region
   covers the table: otherwise it passes an entry whose bytes start in the table.
   */
  lemma CheckClearsTableIff(length: nat, h: Header)
    requires TableEnd(h) + 4 <= length && (h.metaSize != 0 ==> TableEnd(h) + 4 <= h.metaOffset)
    ensures HEADER_SIZE + h.count * ENTRY_SIZE <= TableEnd(h) <==>
            forall e: Entry :: EntryWellFormed(length, h, e) && e.bytes > 0 ==> HEADER_SIZE + h.count * ENTRY_SIZE <= e.offset
  {
    hide TableEnd;
    var e := Entry(0, 3, 1, 1, 1, TableEnd(h), 4);
    assert CodeToFormat(3) == Some(F32) && PackedSize(F32, 1, 1) == 4;
    assert EntryWellFormed(length, h, e);
  }

  predicate Ends(e: Entry, length: nat) {
    e.offset + e.bytes <= length
  }

  /** From the first byte of any tensor to the last. */
  ghost predicate Spans(entries: map<nat, Entry>, start: nat, end: nat) {
    && (exists x :: x in entries && entries[x].offset == start)
    && (exists x :: x in entries && entries[x].offset + entries[x].bytes == end)
    && forall x :: x in entries ==> start <= entries[x].offset && entries[x].offset + entries[x].bytes <= end
  }

  method DataSpan(entries: map<nat, Entry>) returns (start: nat, end: nat)
    requires entries != map[]
    ensures Spans(entries, start, end)
  {
    var x :| x in entries;
    start, end := entries[x].offset, entries[x].offset + entries[x].bytes;
    ghost var first, last := x, x;
    var left := entries.Keys - {x};
    while left != {}
      invariant left <= entries.Keys && first in entries && last in entries
      invariant start == entries[first].offset && end == entries[last].offset + entries[last].bytes
      invariant forall y :: y in entries && y !in left ==> start <= entries[y].offset && entries[y].offset + entries[y].bytes <= end
      decreases |left|
    {
      var y :| y in left;
      if entries[y].offset < start {
        start, first := entries[y].offset, y;
      }
      if entries[y].offset + entries[y].bytes > end {
        end, last := entries[y].offset + entries[y].bytes, y;
      }
      left := left - {y};
    }
  }

  /** Every tensor's bytes are in the section, at its offset from the section's start. */
  ghost predicate Covers(file: seq<Byte>, entries: map<nat, Entry>, start: nat, section: seq<Byte>) {
    forall x :: x in entries ==>
      var e, at := entries[x], entries[x].offset - start;
      0 <= at && at + e.bytes <= |section| && Some(section[at..at + e.bytes]) == TensorData(file, e)
  }

  lemma SpanCovers(file: seq<Byte>, entries: map<nat, Entry>, start: nat, end: nat)
    requires Spans(entries, start, end) && end <= |file|
    ensures start <= end && Covers(file, entries, start, file[start..end])
  {
    hide TensorData;
    assert start <= end;
    forall x | x in entries
      ensures var e, at := entries[x], entries[x].offset - start;
              0 <= at && at + e.bytes <= end - start && Some(file[start..end][at..at + e.bytes]) == TensorData(file, e)
    {
      SpanHolds(file, start, end, entries[x]);
    }
  }

  /** The section from the first tensor to the end of the last. */
  method DataSection(file: seq<Byte>, entries: map<nat, Entry>) returns (r: Option<(nat, seq<Byte>)>)
    ensures r.Some? <==> entries != map[] && forall x :: x in entries ==> Ends(entries[x], |file|)
    ensures r.Some? ==> exists x :: x in entries && entries[x].offset == r.value.0
    ensures r.Some? ==> exists x :: x in entries && entries[x].offset + entries[x].bytes == r.value.0 + |r.value.1|
    ensures r.Some? ==> Covers(file, entries, r.value.0, r.value.1)
  {
    hide Covers;
    if entries == map[] {
      return None;
    }
    var start, end := DataSpan(entries);
    if end > |file| {
      return None;
    }
    SpanCovers(file, entries, start, end);
    r := Some((start, file[start..end]));
  }

  lemma SpanHolds(file: seq<Byte>, start: nat, end: nat, e: Entry)
    requires start <= e.offset && e.offset + e.bytes <= end <= |file|
    ensures TensorData(file, e) == Some(file[start..end][e.offset - start..e.offset - start + e.bytes])
  {
    SliceOfSpan(file, start, end, e.offset, e.bytes);
  }

  lemma SliceOfSpan(file: seq<Byte>, start: nat, end: nat, offset: nat, size: nat)
    requires start <= offset && offset + size <= end <= |file|
    ensures file[start..end][offset - start..offset - start + size] == file[offset..offset + size]
  {
    var a, b := file[start..end][offset - start..offset - start + size], file[offset..offset + size];
    forall k | 0 <= k < size ensures a[k] == b[k] {
      assert a[k] == file[start..end][offset - start + k];
    }
  }
}
