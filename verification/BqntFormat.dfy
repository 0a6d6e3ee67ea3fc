/** The BQNT container: header, tensor table, and the packed size of each storage format. */
module BqntFormat {
  import opened Words
  import opened Options
  import opened Arithmetic
  import opened LittleEndian

  const MAGIC: nat := 0x544E5142
  const VERSION: nat := 1
  const HEADER_SIZE: nat := 32
  const ENTRY_SIZE: nat := 48
  const ALIGNMENT: nat := 65536
  const DEFAULT_RESERVED: nat := 4096
  const MAX_NDIM: nat := 16

  datatype StorageDtype = Bf16 | PcG32Q4 | Rnf4G128 | F32

  function FormatToCode(f: StorageDtype): Byte {
    match f
    case Bf16 => 0
    case PcG32Q4 => 1
    case Rnf4G128 => 2
    case F32 => 3
  }

  function CodeToFormat(code: Byte): Option<StorageDtype> {
    match code
    case 0 => Some(Bf16)
    case 1 => Some(PcG32Q4)
    case 2 => Some(Rnf4G128)
    case 3 => Some(F32)
    case _ => None
  }

  /** The size in unbounded integers. */
  function PackedSize(format: StorageDtype, out: nat, inp: nat): nat {
    match format
    case Bf16 => out * inp * 2
    case F32 => out * inp * 4
    case PcG32Q4 => out * ((inp + 31) / 32) * 20
    case Rnf4G128 => out * ((inp + 127) / 128) * 132
  }

  function CheckedMul(a: nat, b: nat): Option<nat> {
    if a * b < TWO_64 then Some(a * b) else None
  }

  function CheckedAdd(a: nat, b: nat): Option<nat> {
    if a + b < TWO_64 then Some(a + b) else None
  }

  function MulThen(a: nat, b: nat, c: nat): Option<nat> {
    var ab := CheckedMul(a, b);
    if ab.None? then None else CheckedMul(ab.value, c)
  }

  /** The size in 64-bit arithmetic, step by step, giving up at the first overflow. */
  function CheckedPackedSize(format: StorageDtype, out: nat, inp: nat): Option<nat> {
    match format
    case Bf16 => MulThen(out, inp, 2)
    case F32 => MulThen(out, inp, 4)
    case PcG32Q4 =>
      var padded := CheckedAdd(inp, 31);
      if padded.None? then None else MulThen(out, padded.value / 32, 20)
    case Rnf4G128 =>
      var padded := CheckedAdd(inp, 127);
      if padded.None? then None else MulThen(out, padded.value / 128, 132)
  }

  /** Overflow is rejected, never wrapped. */
  lemma CheckedSizeIsExact(format: StorageDtype, out: nat, inp: nat)
    requires out < TWO_32 && inp < TWO_32
    ensures CheckedPackedSize(format, out, inp) ==
            if PackedSize(format, out, inp) < TWO_64 then Some(PackedSize(format, out, inp)) else None
  {
  }

  // ---------------------------------------------------------------- alignment

  /** Round up to a multiple of a power of two. */
  function AlignUp(offset: nat, alignment: nat): nat
    requires alignment > 0
  {
    (offset + alignment - 1) / alignment * alignment
  }

  lemma AlignUpFacts(offset: nat, alignment: nat)
    requires alignment > 0
    ensures offset <= AlignUp(offset, alignment) < offset + alignment
    ensures AlignUp(offset, alignment) % alignment == 0
    ensures offset % alignment == 0 ==> AlignUp(offset, alignment) == offset
  {
    var q, r := (offset + alignment - 1) / alignment, (offset + alignment - 1) % alignment;
    assert offset + alignment - 1 == q * alignment + r;
    Euclid(q * alignment, q, 0, alignment);
    if offset % alignment == 0 {
      var k := offset / alignment;
      assert offset == k * alignment;
      Euclid(offset + alignment - 1, k, alignment - 1, alignment);
    }
  }

  lemma AlignUpMonotone(a: nat, b: nat, alignment: nat)
    requires alignment > 0 && a <= b
    ensures AlignUp(a, alignment) <= AlignUp(b, alignment)
  {
    hide AlignUp;
    AlignUpFacts(a, alignment);
    AlignUpFacts(b, alignment);
    var x, y := AlignUp(a, alignment), AlignUp(b, alignment);
    MultipleOf(x, alignment);
    MultipleOf(y, alignment);
    if x > y {
      MultiplesApart(y / alignment, x / alignment, alignment);
    }
  }

  lemma MultipleOf(x: nat, d: nat)
    requires d > 0 && x % d == 0
    ensures x == x / d * d
    ensures forall y: nat :: y % d == 0 && y == y / d * d && y < x ==> y / d < x / d
  {
    forall y: nat | y % d == 0 && y == y / d * d && y < x ensures y / d < x / d {
      if x / d < y / d {
        MultiplesApart(x / d, y / d, d);
      }
    }
  }

  /** Rounding with a mask, as the program does it, is rounding to a multiple. */
  lemma MaskRounds(offset: bv64)
    ensures (offset + 65535) & !65535 == (offset + 65535) / 65536 * 65536
    ensures (offset + 7) & !7 == (offset + 7) / 8 * 8
  {
  }

  /** Where tensor data starts when the table has room for `reserved` entries. */
  function DataStart(reserved: nat): nat {
    AlignUp(HEADER_SIZE + reserved * ENTRY_SIZE, ALIGNMENT)
  }

  // ---------------------------------------------------------------- table entries

  datatype Entry = Entry(hash: nat, format: Byte, out: nat, inp: nat, ndim: nat, offset: nat, bytes: nat)

  predicate EntryInRange(e: Entry) {
    e.hash < TWO_64 && e.out < TWO_32 && e.inp < TWO_32 && e.ndim < TWO_32 && e.offset < TWO_64 && e.bytes < TWO_64
  }

  function EncodeEntry(e: Entry): (bytes: seq<Byte>)
    ensures |bytes| == ENTRY_SIZE
  {
    ToBytes(e.hash, 8) + [e.format, 0, 0, 0] + ToBytes(e.out, 4) + ToBytes(e.inp, 4) + ToBytes(e.ndim, 4) +
    ToBytes(e.offset, 8) + ToBytes(e.bytes, 8) + ToBytes(0, 8)
  }

  function ParseEntry(b: seq<Byte>): Entry
    requires |b| == ENTRY_SIZE
  {
    Entry(FromBytes(b[0..8]), b[8], FromBytes(b[12..16]), FromBytes(b[16..20]), FromBytes(b[20..24]),
          FromBytes(b[24..32]), FromBytes(b[32..40]))
  }

  lemma EntryFields(a: seq<Byte>, f: seq<Byte>, b: seq<Byte>, c: seq<Byte>, d: seq<Byte>, e: seq<Byte>, g: seq<Byte>, h: seq<Byte>)
    requires |a| == 8 && |f| == 4 && |b| == 4 && |c| == 4 && |d| == 4 && |e| == 8 && |g| == 8 && |h| == 8
    ensures var s := a + f + b + c + d + e + g + h;
            && s[0..8] == a && s[8] == f[0] && s[12..16] == b && s[16..20] == c && s[20..24] == d
            && s[24..32] == e && s[32..40] == g
  {
  }

  lemma ParseEncodedEntry(e: Entry)
    requires EntryInRange(e)
    ensures ParseEntry(EncodeEntry(e)) == e
  {
    hide ToBytes, FromBytes, Pow256;
    Widths();
    FromTo(e.hash, 8);
    FromTo(e.out, 4);
    FromTo(e.inp, 4);
    FromTo(e.ndim, 4);
    FromTo(e.offset, 8);
    FromTo(e.bytes, 8);
    EntryFields(ToBytes(e.hash, 8), [e.format, 0, 0, 0], ToBytes(e.out, 4), ToBytes(e.inp, 4), ToBytes(e.ndim, 4),
                ToBytes(e.offset, 8), ToBytes(e.bytes, 8), ToBytes(0, 8));
  }

  /** Every field of an encoded entry, byte by byte. */
  lemma EntryLayout(e: Entry)
    ensures var b := EncodeEntry(e);
            && FieldAt(b, 0, 8, e.hash) && b[8] == e.format && FieldAt(b, 12, 4, e.out) && FieldAt(b, 16, 4, e.inp)
            && FieldAt(b, 20, 4, e.ndim) && FieldAt(b, 24, 8, e.offset) && FieldAt(b, 32, 8, e.bytes)
            && (forall k :: 9 <= k < 12 ==> b[k] == 0) && FieldAt(b, 40, 8, 0)
  {
    hide ToBytes, FieldAt;
    var f := [e.format, 0, 0, 0];
    var hash, out, inp, ndim := ToBytes(e.hash, 8), ToBytes(e.out, 4), ToBytes(e.inp, 4), ToBytes(e.ndim, 4);
    var offset, bytes, zero := ToBytes(e.offset, 8), ToBytes(e.bytes, 8), ToBytes(0, 8);
    ToBytesDigits(e.hash, 8);
    ToBytesDigits(e.out, 4);
    ToBytesDigits(e.inp, 4);
    ToBytesDigits(e.ndim, 4);
    ToBytesDigits(e.offset, 8);
    ToBytesDigits(e.bytes, 8);
    ToBytesDigits(0, 8);
    var b := EncodeEntry(e);
    assert [] + hash + (f + out + inp + ndim + offset + bytes + zero) == b;
    FieldInside([], hash, f + out + inp + ndim + offset + bytes + zero, e.hash);
    assert (hash + f) + out + (inp + ndim + offset + bytes + zero) == b;
    FieldInside(hash + f, out, inp + ndim + offset + bytes + zero, e.out);
    assert (hash + f + out) + inp + (ndim + offset + bytes + zero) == b;
    FieldInside(hash + f + out, inp, ndim + offset + bytes + zero, e.inp);
    assert (hash + f + out + inp) + ndim + (offset + bytes + zero) == b;
    FieldInside(hash + f + out + inp, ndim, offset + bytes + zero, e.ndim);
    assert (hash + f + out + inp + ndim) + offset + (bytes + zero) == b;
    FieldInside(hash + f + out + inp + ndim, offset, bytes + zero, e.offset);
    assert (hash + f + out + inp + ndim + offset) + bytes + zero == b;
    FieldInside(hash + f + out + inp + ndim + offset, bytes, zero, e.bytes);
    assert (hash + f + out + inp + ndim + offset + bytes) + zero + [] == b;
    FieldInside(hash + f + out + inp + ndim + offset + bytes, zero, [], 0);
  }

  /** Entry i of the table behind the 32 bytes of the header, read byte by byte. */
  function StoredEntry(file: seq<Byte>, i: nat): Entry
    requires 32 + 48 * i + 48 <= |file|
  {
    var at := 32 + 48 * i;
    Entry(Word64At(file, at), file[at + 8], Word32At(file, at + 12), Word32At(file, at + 16), Word32At(file, at + 20),
          Word64At(file, at + 24), Word64At(file, at + 32))
  }

  lemma SliceInside(file: seq<Byte>, at: nat, from: nat, to: nat)
    requires at + 48 <= |file| && from <= to <= 48
    ensures file[at..at + 48][from..to] == file[at + from..at + to]
  {
    var a, b := file[at..at + 48][from..to], file[at + from..at + to];
    forall k | 0 <= k < to - from ensures a[k] == b[k] {
      assert a[k] == file[at..at + 48][from + k];
    }
  }

  lemma ParsesStored(file: seq<Byte>, i: nat)
    requires 32 + 48 * i + 48 <= |file|
    ensures ParseEntry(file[32 + 48 * i..32 + 48 * i + 48]) == StoredEntry(file, i)
  {
    hide FromBytes, Word32At, Word64At;
    var at := 32 + 48 * i;
    SliceInside(file, at, 0, 8);
    SliceInside(file, at, 12, 16);
    SliceInside(file, at, 16, 20);
    SliceInside(file, at, 20, 24);
    SliceInside(file, at, 24, 32);
    SliceInside(file, at, 32, 40);
    ReadsWord64(file, at);
    ReadsWord32(file, at + 12);
    ReadsWord32(file, at + 16);
    ReadsWord32(file, at + 20);
    ReadsWord64(file, at + 24);
    ReadsWord64(file, at + 32);
  }

  lemma ParsedInRange(b: seq<Byte>)
    requires |b| == ENTRY_SIZE
    ensures EntryInRange(ParseEntry(b))
  {
    Widths();
    FromBytesBound(b[0..8]);
    FromBytesBound(b[12..16]);
    FromBytesBound(b[16..20]);
    FromBytesBound(b[20..24]);
    FromBytesBound(b[24..32]);
    FromBytesBound(b[32..40]);
  }

  function EncodeTable(entries: seq<Entry>): (bytes: seq<Byte>)
    ensures |bytes| == |entries| * ENTRY_SIZE
  {
    if entries == [] then [] else EncodeTable(entries[..|entries| - 1]) + EncodeEntry(entries[|entries| - 1])
  }

  lemma {:induction false} TableSlice(entries: seq<Entry>, i: nat)
    requires i < |entries|
    ensures i * ENTRY_SIZE + ENTRY_SIZE <= |EncodeTable(entries)|
    ensures EncodeTable(entries)[i * ENTRY_SIZE..i * ENTRY_SIZE + ENTRY_SIZE] == EncodeEntry(entries[i])
  {
    hide EncodeEntry;
    var n := |entries| - 1;
    if i < n {
      TableSlice(entries[..n], i);
    }
  }

  // ---------------------------------------------------------------- header

  datatype Header = Header(count: nat, reserved: nat, metaOffset: nat, metaSize: nat)

  function EncodeHeader(h: Header): (bytes: seq<Byte>)
    ensures |bytes| == HEADER_SIZE
  {
    ToBytes(MAGIC, 4) + ToBytes(VERSION, 4) + ToBytes(h.count, 4) + ToBytes(h.reserved, 4) +
    ToBytes(h.metaOffset, 8) + ToBytes(h.metaSize, 8)
  }

  function ParseHeader(b: seq<Byte>): Header
    requires |b| >= HEADER_SIZE
  {
    Header(FromBytes(b[8..12]), FromBytes(b[12..16]), FromBytes(b[16..24]), FromBytes(b[24..32]))
  }

  predicate HeaderInRange(h: Header) {
    h.count < TWO_32 && h.reserved < TWO_32 && h.metaOffset < TWO_64 && h.metaSize < TWO_64
  }

  predicate Recognised(b: seq<Byte>)
    requires |b| >= HEADER_SIZE
  {
    FromBytes(b[0..4]) == MAGIC && FromBytes(b[4..8]) == VERSION
  }

  lemma HeaderFields(a: seq<Byte>, b: seq<Byte>, c: seq<Byte>, d: seq<Byte>, e: seq<Byte>, f: seq<Byte>)
    requires |a| == 4 && |b| == 4 && |c| == 4 && |d| == 4 && |e| == 8 && |f| == 8
    ensures var s := a + b + c + d + e + f;
            s[0..4] == a && s[4..8] == b && s[8..12] == c && s[12..16] == d && s[16..24] == e && s[24..32] == f
  {
  }

  lemma ParseEncodedHeader(h: Header)
    requires HeaderInRange(h)
    ensures Recognised(EncodeHeader(h)) && ParseHeader(EncodeHeader(h)) == h
  {
    hide ToBytes, FromBytes, Pow256;
    Widths();
    FromTo(MAGIC, 4);
    FromTo(VERSION, 4);
    FromTo(h.count, 4);
    FromTo(h.reserved, 4);
    FromTo(h.metaOffset, 8);
    FromTo(h.metaSize, 8);
    HeaderFields(ToBytes(MAGIC, 4), ToBytes(VERSION, 4), ToBytes(h.count, 4), ToBytes(h.reserved, 4),
                 ToBytes(h.metaOffset, 8), ToBytes(h.metaSize, 8));
  }

  /** Every field of an encoded header, byte by byte. */
  lemma HeaderLayout(h: Header)
    ensures var b := EncodeHeader(h);
            && FieldAt(b, 0, 4, 0x544E5142) && FieldAt(b, 4, 4, 1) && FieldAt(b, 8, 4, h.count) && FieldAt(b, 12, 4, h.reserved)
            && FieldAt(b, 16, 8, h.metaOffset) && FieldAt(b, 24, 8, h.metaSize)
  {
    hide ToBytes, FieldAt;
    var magic, version, count, reserved := ToBytes(MAGIC, 4), ToBytes(VERSION, 4), ToBytes(h.count, 4), ToBytes(h.reserved, 4);
    var offset, size := ToBytes(h.metaOffset, 8), ToBytes(h.metaSize, 8);
    ToBytesDigits(MAGIC, 4);
    ToBytesDigits(VERSION, 4);
    ToBytesDigits(h.count, 4);
    ToBytesDigits(h.reserved, 4);
    ToBytesDigits(h.metaOffset, 8);
    ToBytesDigits(h.metaSize, 8);
    var b := EncodeHeader(h);
    assert [] + magic + (version + count + reserved + offset + size) == b;
    FieldInside([], magic, version + count + reserved + offset + size, MAGIC);
    assert magic + version + (count + reserved + offset + size) == b;
    FieldInside(magic, version, count + reserved + offset + size, VERSION);
    assert (magic + version) + count + (reserved + offset + size) == b;
    FieldInside(magic + version, count, reserved + offset + size, h.count);
    assert (magic + version + count) + reserved + (offset + size) == b;
    FieldInside(magic + version + count, reserved, offset + size, h.reserved);
    assert (magic + version + count + reserved) + offset + size == b;
    FieldInside(magic + version + count + reserved, offset, size, h.metaOffset);
    assert (magic + version + count + reserved + offset) + size + [] == b;
    FieldInside(magic + version + count + reserved + offset, size, [], h.metaSize);
  }

  lemma ParsesHeader(file: seq<Byte>)
    requires |file| >= 32
    ensures Recognised(file) <==> Word32At(file, 0) == 0x544E5142 && Word32At(file, 4) == 1
    ensures ParseHeader(file) == Header(Word32At(file, 8), Word32At(file, 12), Word64At(file, 16), Word64At(file, 24))
  {
    hide FromBytes, Word32At, Word64At;
    ReadsWord32(file, 0);
    ReadsWord32(file, 4);
    ReadsWord32(file, 8);
    ReadsWord32(file, 12);
    ReadsWord64(file, 16);
    ReadsWord64(file, 24);
  }

  /** Entry slots in front of the data; zero stands for the default of old files. */
  function Reserved(stored: nat): nat {
    if stored == 0 then DEFAULT_RESERVED else stored
  }
}
