/** The streaming writer of BQNT files: tensor data first, header and table last. */
module BqntWriter {
  import opened Words
  import opened LittleEndian
  import opened Fnv
  import opened BqntFormat

  // ---------------------------------------------------------------- file contents

  function Zeros(n: nat): (z: seq<Byte>)
    ensures |z| == n
  {
    seq(n, i => 0)
  }

  /** Writing at a position past the end leaves a hole of zeros; writing nothing changes nothing. */
  function WriteAt(file: seq<Byte>, pos: nat, data: seq<Byte>): seq<Byte> {
    if data == [] then file
    else
      var before := if pos <= |file| then file[..pos] else file + Zeros(pos - |file|);
      before + data + if pos + |data| <= |file| then file[pos + |data|..] else []
  }

  /** The file holds `data` at `pos`. */
  predicate HasData(file: seq<Byte>, pos: nat, data: seq<Byte>) {
    forall k :: 0 <= k < |data| ==> pos + k < |file| && file[pos + k] == data[k]
  }

  lemma WriteAtLength(file: seq<Byte>, pos: nat, data: seq<Byte>)
    ensures |WriteAt(file, pos, data)| == if data == [] || pos + |data| <= |file| then |file| else pos + |data|
  {
  }

  lemma ByteHeld(file: seq<Byte>, pos: nat, data: seq<Byte>, k: nat)
    requires HasData(file, pos, data) && k < |data|
    ensures pos + k < |file| && file[pos + k] == data[k]
  {
    assert 0 <= data[k] < 256;
  }

  /** Bytes outside the written range stay. */
  lemma WriteAtKeeps(file: seq<Byte>, pos: nat, data: seq<Byte>, at: nat, old_: seq<Byte>)
    requires HasData(file, at, old_) && (at + |old_| <= pos || pos + |data| <= at)
    ensures HasData(WriteAt(file, pos, data), at, old_)
  {
    WriteAtLength(file, pos, data);
    if data != [] && old_ != [] {
      ByteHeld(file, at, old_, |old_| - 1);
      var before := if pos <= |file| then file[..pos] else file + Zeros(pos - |file|);
      forall k | 0 <= k < |old_| ensures at + k < |WriteAt(file, pos, data)| && WriteAt(file, pos, data)[at + k] == old_[k] {
        ByteHeld(file, at, old_, k);
        if at + k < pos {
          assert before[at + k] == file[at + k];
        } else {
          assert file[pos + |data|..][at + k - (pos + |data|)] == file[at + k];
        }
      }
    }
  }

  // ---------------------------------------------------------------- the writer

  datatype Tensor = Tensor(name: seq<Byte>, format: StorageDtype, out: nat, inp: nat, ndim: nat, data: seq<Byte>)

  datatype Writer = Writer(file: seq<Byte>, entries: seq<Entry>, names: map<nat, seq<Byte>>, current: nat, maxTensors: nat)

  function NewWriter(maxTensors: nat): Writer {
    Writer([], [], map[], 0, maxTensors)
  }

  /** Another name with the same hash has been written. */
  predicate Collides(w: Writer, t: Tensor) {
    Fnv1a(t.name) in w.names && w.names[Fnv1a(t.name)] != t.name
  }

  /** Offset of the next tensor. */
  function NextOffset(w: Writer): nat {
    AlignUp(if w.current == 0 then DataStart(w.maxTensors) else w.current, ALIGNMENT)
  }

  function EntryFor(t: Tensor, offset: nat): Entry {
    Entry(Fnv1a(t.name), FormatToCode(t.format), t.out, t.inp, t.ndim, offset, |t.data|)
  }

  /** Pad to the alignment, then write the data. */
  function WriteTensor(w: Writer, t: Tensor): Writer {
    var start := if w.current == 0 then DataStart(w.maxTensors) else w.current;
    var aligned := NextOffset(w);
    var padded := if aligned > start then WriteAt(w.file, start, Zeros(aligned - start)) else w.file;
    w.(file := WriteAt(padded, aligned, t.data),
       entries := w.entries + [EntryFor(t, aligned)],
       names := w.names[Fnv1a(t.name) := t.name],
       current := aligned + |t.data|)
  }

  function MetadataOffset(w: Writer): nat {
    AlignUp(w.current, 8)
  }

  function HeaderOf(w: Writer, metadata: seq<Byte>): Header {
    Header(|w.entries| % TWO_32, w.maxTensors % TWO_32, MetadataOffset(w), |metadata|)
  }

  function HeaderAndTable(w: Writer, metadata: seq<Byte>): seq<Byte> {
    EncodeHeader(HeaderOf(w, metadata)) + EncodeTable(w.entries)
  }

  /** Metadata after the data, then header and table over the start of the file. */
  function Finish(w: Writer, metadata: seq<Byte>): seq<Byte> {
    var at := MetadataOffset(w);
    var padded := if at > w.current then WriteAt(w.file, w.current, Zeros(at - w.current)) else w.file;
    WriteAt(WriteAt(padded, at, metadata), 0, HeaderAndTable(w, metadata))
  }

  function WriteAll(maxTensors: nat, tensors: seq<Tensor>): Writer {
    if tensors == [] then NewWriter(maxTensors)
    else WriteTensor(WriteAll(maxTensors, tensors[..|tensors| - 1]), tensors[|tensors| - 1])
  }

  // ---------------------------------------------------------------- the invariant

  /** Entry i describes tensor i, whose bytes are in the file at an aligned offset. */
  ghost predicate Placed(w: Writer, tensors: seq<Tensor>, i: nat)
    requires |w.entries| == |tensors| && i < |tensors|
  {
    var e := w.entries[i];
    && e == EntryFor(tensors[i], e.offset)
    && DataStart(w.maxTensors) <= e.offset && e.offset % ALIGNMENT == 0
    && e.offset + e.bytes <= w.current
    && HasData(w.file, e.offset, tensors[i].data)
  }

  ghost predicate Inv(w: Writer, tensors: seq<Tensor>) {
    && |w.entries| == |tensors|
    && (forall i :: 0 <= i < |tensors| ==> Placed(w, tensors, i))
    && (forall i, j :: 0 <= i < j < |tensors| ==> w.entries[i].offset + w.entries[i].bytes <= w.entries[j].offset)
    && (w.current == 0 <==> tensors == [])
    && (tensors != [] ==> w.entries[0].offset == DataStart(w.maxTensors))
    && |w.file| <= w.current
  }

  lemma DataStartFacts(reserved: nat)
    ensures DataStart(reserved) % ALIGNMENT == 0 && HEADER_SIZE + reserved * ENTRY_SIZE <= DataStart(reserved)
    ensures DataStart(reserved) >= ALIGNMENT
  {
  }

  lemma NextOffsetFacts(w: Writer)
    ensures NextOffset(w) % ALIGNMENT == 0 && w.current <= NextOffset(w)
    ensures w.current == 0 ==> NextOffset(w) == DataStart(w.maxTensors)
    ensures w.current != 0 ==> NextOffset(w) < w.current + ALIGNMENT
  {
  }

  lemma WriteTensorFile(w: Writer, t: Tensor)
    requires |w.file| <= w.current
    ensures HasData(WriteTensor(w, t).file, NextOffset(w), t.data)
    ensures |WriteTensor(w, t).file| <= WriteTensor(w, t).current
    ensures forall at: nat, data :: HasData(w.file, at, data) && at + |data| <= w.current ==> HasData(WriteTensor(w, t).file, at, data)
  {
    hide WriteAt, HasData, AlignUp, Fnv1a, DataStart;
    NextOffsetFacts(w);
    var start := if w.current == 0 then DataStart(w.maxTensors) else w.current;
    var aligned := NextOffset(w);
    var padded := if aligned > start then WriteAt(w.file, start, Zeros(aligned - start)) else w.file;
    WriteAtLength(w.file, start, Zeros(aligned - start));
    WriteAtLength(padded, aligned, t.data);
    WriteAtHolds(padded, aligned, t.data);
    forall at: nat, data | HasData(w.file, at, data) && at + |data| <= w.current ensures HasData(WriteTensor(w, t).file, at, data) {
      if aligned > start {
        WriteAtKeeps(w.file, start, Zeros(aligned - start), at, data);
      }
      WriteAtKeeps(padded, aligned, t.data, at, data);
    }
  }

  lemma WriteAtHolds(file: seq<Byte>, pos: nat, data: seq<Byte>)
    ensures HasData(WriteAt(file, pos, data), pos, data)
  {
  }

  /** Writing a tensor keeps every tensor written before it, byte for byte. */
  lemma WriteTensorKeepsInv(w: Writer, tensors: seq<Tensor>, t: Tensor)
    requires Inv(w, tensors)
    ensures Inv(WriteTensor(w, t), tensors + [t])
  {
    hide WriteAt, HasData, AlignUp, FormatToCode, Fnv1a;
    var w', all := WriteTensor(w, t), tensors + [t];
    NextOffsetFacts(w);
    DataStartFacts(w.maxTensors);
    WriteTensorFile(w, t);
    assert w'.maxTensors == w.maxTensors;
    forall i | 0 <= i < |all| ensures Placed(w', all, i) {
      if i < |tensors| {
        assert Placed(w, tensors, i);
        assert w'.entries[i] == w.entries[i] && all[i] == tensors[i];
      } else if tensors != [] {
        assert Placed(w, tensors, 0);
      }
    }
    forall i, j | 0 <= i < j < |all| ensures w'.entries[i].offset + w'.entries[i].bytes <= w'.entries[j].offset {
      assert Placed(w, tensors, i);
    }
  }

  lemma {:induction false} WriteAllKeepsInv(maxTensors: nat, tensors: seq<Tensor>)
    ensures Inv(WriteAll(maxTensors, tensors), tensors) && WriteAll(maxTensors, tensors).maxTensors == maxTensors
  {
    hide Inv, WriteTensor;
    if tensors != [] {
      var front := tensors[..|tensors| - 1];
      WriteAllKeepsInv(maxTensors, front);
      WriteTensorKeepsInv(WriteAll(maxTensors, front), front, tensors[|tensors| - 1]);
      assert front + [tensors[|tensors| - 1]] == tensors;
      WriteTensorFrame(WriteAll(maxTensors, front), tensors[|tensors| - 1]);
    } else {
      NothingWritten(maxTensors);
    }
  }

  lemma WriteTensorFrame(w: Writer, t: Tensor)
    ensures WriteTensor(w, t).maxTensors == w.maxTensors
  {
  }

  lemma NothingWritten(maxTensors: nat)
    ensures Inv(NewWriter(maxTensors), [])
  {
  }

  // ---------------------------------------------------------------- the writer as the program runs it

  /** A file with a cursor, and the bookkeeping of the writer. */
  class FileWriter {
    var file: seq<Byte>
    var cursor: nat
    var entries: seq<Entry>
    var names: map<nat, seq<Byte>>
    var current: nat
    const maxTensors: nat

    ghost predicate Valid()
      reads this
    {
      cursor == current
    }

    function State(): Writer
      reads this
    {
      Writer(file, entries, names, current, maxTensors)
    }

    constructor (maxTensors: nat)
      ensures Valid() && State() == NewWriter(maxTensors)
    {
      file, cursor, entries, names, current := [], 0, [], map[], 0;
      this.maxTensors := maxTensors;
    }

    method Append(data: seq<Byte>)
      modifies this`file, this`cursor
      ensures file == WriteAt(old(file), old(cursor), data) && cursor == old(cursor) + |data|
    {
      file := WriteAt(file, cursor, data);
      cursor := cursor + |data|;
    }

    /** False stands for the panic on a hash collision. */
    method WriteOne(t: Tensor) returns (ok: bool)
      requires Valid()
      modifies this
      ensures ok <==> !Collides(old(State()), t)
      ensures Valid() && State() == if ok then WriteTensor(old(State()), t) else old(State())
    {
      hide WriteAt, AlignUp, Fnv1a;
      if Fnv1a(t.name) in names && names[Fnv1a(t.name)] != t.name {
        return false;
      }
      NextOffsetFacts(State());
      DataStartFacts(maxTensors);
      names := names[Fnv1a(t.name) := t.name];
      if current == 0 {
        current := DataStart(maxTensors);
        cursor := current;
      }
      var aligned := AlignUp(current, ALIGNMENT);
      AlignUpFacts(current, ALIGNMENT);
      if aligned > current {
        Append(Zeros(aligned - current));
      }
      entries := entries + [EntryFor(t, aligned)];
      Append(t.data);
      current := aligned + |t.data|;
      ok := true;
    }

    /** Metadata at the end, then header and table entry by entry from the start. */
    method FinishFile(metadata: seq<Byte>)
      requires Valid()
      modifies this
      ensures file == Finish(old(State()), metadata)
    {
      hide WriteAt, AlignUp, EncodeHeader, EncodeEntry, EncodeTable;
      var at := AlignUp(current, 8);
      AlignUpFacts(current, 8);
      if at > current {
        Append(Zeros(at - current));
      }
      Append(metadata);
      ghost var body := file;
      cursor := 0;
      var header := EncodeHeader(Header(|entries| % TWO_32, maxTensors % TWO_32, at, |metadata|));
      assert header == EncodeHeader(HeaderOf(old(State()), metadata));
      Append(header);
      TableStart(header, entries);
      var i := 0;
      while i < |entries|
        invariant 0 <= i <= |entries| && entries == old(entries)
        invariant cursor == |header + EncodeTable(entries[..i])|
        invariant file == WriteAt(body, 0, header + EncodeTable(entries[..i]))
      {
        Append(EncodeEntry(entries[i]));
        TableStep(header, entries, i);
        WriteOn(body, header + EncodeTable(entries[..i]), EncodeEntry(entries[i]));
        i := i + 1;
      }
      assert entries[..|entries|] == entries;
    }
  }

  lemma TableStart(header: seq<Byte>, entries: seq<Entry>)
    ensures header + EncodeTable(entries[..0]) == header
  {
  }

  lemma TableStep(header: seq<Byte>, entries: seq<Entry>, i: nat)
    requires i < |entries|
    ensures header + EncodeTable(entries[..i + 1]) == header + EncodeTable(entries[..i]) + EncodeEntry(entries[i])
  {
    hide EncodeEntry;
    assert entries[..i + 1][..i] == entries[..i];
  }

  /** Two writes one after the other are one write. */
  lemma WriteOn(file: seq<Byte>, front: seq<Byte>, more: seq<Byte>)
    requires front != [] && more != []
    ensures WriteAt(WriteAt(file, 0, front), |front|, more) == WriteAt(file, 0, front + more)
  {
  }
}
