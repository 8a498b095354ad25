/** The loops of the writer and the reader, on the buffers and lists they change in place. */
module ZipPrograms {
  import opened Common
  import opened ZipFormat
  import opened ZipArchive
  import opened ZipRoundTrip
  import Crc32

  // ---------------------------------------------------------------- headers, field by field

  method Put16(a: array<bv8>, at: nat, value: int, ghost done: seq<Field>) returns (ghost done': seq<Field>)
    requires at + 2 <= a.Length && Fits(F16(value)) && AllFit(done) && a[..at] == Pack(done)
    modifies a
    ensures done' == done + [F16(value)] && AllFit(done') && a[..at + 2] == Pack(done')
  {
    WriteUInt16LE(a, value, at);
    PackSnoc(done, F16(value));
    done' := done + [F16(value)];
  }

  method Put32(a: array<bv8>, at: nat, value: int, ghost done: seq<Field>) returns (ghost done': seq<Field>)
    requires at + 4 <= a.Length && Fits(F32(value)) && AllFit(done) && a[..at] == Pack(done)
    modifies a
    ensures done' == done + [F32(value)] && AllFit(done') && a[..at + 4] == Pack(done')
  {
    WriteUInt32LE(a, value, at);
    PackSnoc(done, F32(value));
    done' := done + [F32(value)];
  }

  method LocalHeaderBuffer(e: Entry) returns (header: array<bv8>)
    requires EntryFits(e)
    ensures fresh(header) && header[..] == LocalHeader(e)
  {
    hide Pack, Print, AllFit;
    header := new bv8[30 + |e.name|];
    ghost var done := LocalFront(header);
    done := Put32(header, 14, e.crc, done);
    done := Put32(header, 18, |e.compressed|, done);
    done := Put32(header, 22, |e.bytes|, done);
    done := Put16(header, 26, |e.name|, done);
    done := Put16(header, 28, 0, done);
    assert done == LocalFields(e);
    CopyName(header, 30, e.name);
  }

  method LocalFront(header: array<bv8>) returns (ghost done: seq<Field>)
    requires header.Length >= 14
    modifies header
    ensures done == [F32(LOCAL_SIGNATURE), F16(20), F16(UTF8_FLAG), F16(DEFLATE_METHOD), F16(0), F16(DOS_DATE)]
    ensures AllFit(done) && header[..14] == Pack(done)
  {
    hide Pack, Print, AllFit;
    EmptyPack();
    done := [];
    done := Put32(header, 0, LOCAL_SIGNATURE, done);
    done := Put16(header, 4, 20, done);
    done := Put16(header, 6, UTF8_FLAG, done);
    done := Put16(header, 8, DEFLATE_METHOD, done);
    done := Put16(header, 10, 0, done);
    done := Put16(header, 12, DOS_DATE, done);
  }

  lemma EmptyPack()
    ensures AllFit([]) && Pack([]) == []
  {}

  method CopyName(a: array<bv8>, at: nat, name: Octets)
    requires at + |name| == a.Length
    modifies a
    ensures a[..] == old(a[..at]) + name
  {
    forall i | 0 <= i < |name| { a[at + i] := name[i]; }
  }

  method CentralHeaderBuffer(e: Entry) returns (header: array<bv8>)
    requires EntryFits(e)
    ensures fresh(header) && header[..] == CentralHeader(e)
  {
    hide Pack, Print, AllFit;
    header := new bv8[46 + |e.name|];
    ghost var done := CentralFront(header);
    done := CentralMiddle(header, e, done);
    done := Put32(header, 38, FILE_ATTRIBUTES, done);
    done := Put32(header, 42, e.offset, done);
    assert done == CentralFields(e);
    CopyName(header, 46, e.name);
  }

  method CentralFront(header: array<bv8>) returns (ghost done: seq<Field>)
    requires header.Length >= 16
    modifies header
    ensures done == [F32(CENTRAL_SIGNATURE), F16(3 * 256 + 20), F16(20), F16(UTF8_FLAG), F16(DEFLATE_METHOD), F16(0), F16(DOS_DATE)]
    ensures AllFit(done) && header[..16] == Pack(done)
  {
    hide Pack, Print, AllFit, Size, Width;
    EmptyPack();
    done := [];
    done := Put32(header, 0, CENTRAL_SIGNATURE, done);
    done := Put16(header, 4, 3 * 256 + 20, done);
    done := Put16(header, 6, 20, done);
    done := Put16(header, 8, UTF8_FLAG, done);
    assert done == [F32(CENTRAL_SIGNATURE), F16(3 * 256 + 20), F16(20), F16(UTF8_FLAG)];
    done := Put16(header, 10, DEFLATE_METHOD, done);
    done := Put16(header, 12, 0, done);
    done := Put16(header, 14, DOS_DATE, done);
  }

  method CentralMiddle(header: array<bv8>, e: Entry, ghost front: seq<Field>) returns (ghost done: seq<Field>)
    requires header.Length >= 38 && EntryFits(e) && AllFit(front) && header[..16] == Pack(front)
    modifies header
    ensures done == front + [F32(e.crc), F32(|e.compressed|), F32(|e.bytes|), F16(|e.name|), F16(0), F16(0), F16(0), F16(0)]
    ensures AllFit(done) && header[..38] == Pack(done)
  {
    hide Pack, Print, AllFit, Size, Width;
    done := Put32(header, 16, e.crc, front);
    done := Put32(header, 20, |e.compressed|, done);
    done := Put32(header, 24, |e.bytes|, done);
    done := Put16(header, 28, |e.name|, done);
    assert done == front + [F32(e.crc), F32(|e.compressed|), F32(|e.bytes|), F16(|e.name|)];
    done := Put16(header, 30, 0, done);
    done := Put16(header, 32, 0, done);
    done := Put16(header, 34, 0, done);
    done := Put16(header, 36, 0, done);
  }

  method EndRecord(count: nat, size: nat, offset: nat) returns (record: array<bv8>)
    requires count < 0x1_0000 && size < 0x1_0000_0000 && offset < 0x1_0000_0000
    ensures fresh(record) && AllFit(EndFields(count, size, offset)) && record[..] == Pack(EndFields(count, size, offset))
  {
    hide Pack, Print, AllFit, Size, Width;
    record := new bv8[22];
    EmptyPack();
    ghost var done := [];
    done := Put32(record, 0, END_SIGNATURE, done);
    done := Put16(record, 4, 0, done);
    done := Put16(record, 6, 0, done);
    done := Put16(record, 8, count, done);
    assert done == [F32(END_SIGNATURE), F16(0), F16(0), F16(count)];
    done := Put16(record, 10, count, done);
    done := Put32(record, 12, size, done);
    done := Put32(record, 16, offset, done);
    done := Put16(record, 20, 0, done);
    assert done == EndFields(count, size, offset);
  }

  // ---------------------------------------------------------------- zipBytes

  function Prepare(f: SourceFile, codec: Codec, offset: nat): Entry {
    Entry(codec.encode(f.name), f.bytes, codec.deflate(f.bytes), Crc32.Number(f.bytes), offset)
  }

  function LocalLength(e: Entry): nat {
    30 + |e.name| + |e.compressed|
  }

  function TotalLength(es: seq<Entry>): nat {
    if es == [] then 0 else TotalLength(es[..|es| - 1]) + LocalLength(es[|es| - 1])
  }

  /** The entries of a list of files, one behind the other. */
  function Lay(files: seq<SourceFile>, codec: Codec): seq<Entry> {
    if files == [] then []
    else
      var front := Lay(files[..|files| - 1], codec);
      front + [Prepare(files[|files| - 1], codec, TotalLength(front))]
  }

  lemma {:induction false} LocalsLength(es: seq<Entry>)
    requires AllEntriesFit(es)
    ensures |Locals(es)| == TotalLength(es)
  {
    if es != [] {
      LocalsLength(es[..|es| - 1]);
      LocalHeaderLength(es[|es| - 1]);
    }
  }

  lemma LocalHeaderLength(e: Entry)
    requires EntryFits(e)
    ensures |LocalHeader(e)| == 30 + |e.name|
  {
    LocalSizes(e);
  }

  lemma {:induction false} LayPrefix(files: seq<SourceFile>, codec: Codec, i: nat)
    requires i <= |files|
    ensures |Lay(files, codec)| == |files| && Lay(files, codec)[..i] == Lay(files[..i], codec)
    ensures i < |files| ==> Lay(files, codec)[i] == Prepare(files[i], codec, TotalLength(Lay(files[..i], codec)))
    decreases |files|
  {
    hide Prepare, TotalLength;
    if i == |files| {
      assert files[..i] == files;
      if files != [] { LayPrefix(files[..|files| - 1], codec, 0); }
      assert Lay(files, codec)[..i] == Lay(files, codec);
    } else {
      var front := files[..|files| - 1];
      LayPrefix(front, codec, i);
      assert front[..i] == files[..i];
      assert Lay(files, codec)[..i] == Lay(front, codec)[..i];
      if i == |front| { assert front[..i] == front; }
    }
  }

  lemma LayIsPlaced(files: seq<SourceFile>, codec: Codec)
    requires AllEntriesFit(Lay(files, codec))
    ensures Placed(Lay(files, codec))
  {
    var es := Lay(files, codec);
    LayPrefix(files, codec, |files|);
    forall i | 0 <= i < |es| ensures es[i].offset == |Locals(es[..i])| {
      LayPrefix(files, codec, i);
      LocalsLength(es[..i]);
    }
  }

  method PrepareEntry(file: SourceFile, codec: Codec, table: array<bv32>, offset: nat) returns (e: Entry)
    requires Crc32.IsTable(table[..])
    ensures e == Prepare(file, codec, offset) && 0 <= e.crc < 0x1_0000_0000
  {
    var crc := Crc32.Crc(table, file.bytes);
    Crc32.NumberIsFaithful(file.bytes, file.bytes);
    e := Entry(codec.encode(file.name), file.bytes, codec.deflate(file.bytes), crc as int, offset);
  }

  lemma LocalsSnoc(es: seq<Entry>, e: Entry)
    requires AllEntriesFit(es) && EntryFits(e)
    ensures AllEntriesFit(es + [e]) && Locals(es + [e]) == Locals(es) + LocalHeader(e) + e.compressed
  {
    hide LocalHeader;
    assert (es + [e])[..|es|] == es;
  }

  lemma LayUnfold(files: seq<SourceFile>, codec: Codec, i: nat)
    requires i < |files|
    ensures var front := Lay(files[..i], codec);
            Lay(files[..i + 1], codec) == front + [Prepare(files[i], codec, TotalLength(front))]
  {
    hide Prepare, TotalLength;
    assert files[..i + 1][..i] == files[..i];
  }

  /** The next entry of the layout, given the ones before it. */
  lemma LayNext(files: seq<SourceFile>, codec: Codec, i: nat, entries: seq<Entry>, offset: nat)
    requires i < |files| && entries == Lay(files[..i], codec) && AllEntriesFit(entries) && offset == |Locals(entries)|
    ensures |Lay(files, codec)| == |files| && Lay(files, codec)[i] == Prepare(files[i], codec, offset)
    ensures Lay(files[..i + 1], codec) == entries + [Prepare(files[i], codec, offset)]
  {
    hide Prepare, Locals, TotalLength, AllEntriesFit, Lay;
    LayPrefix(files, codec, i);
    LayPrefix(files, codec, |files|);
    LocalsLength(entries);
    LayUnfold(files, codec, i);
  }

  lemma LayEmpty(files: seq<SourceFile>, codec: Codec)
    ensures Lay(files[..0], codec) == [] && |Lay(files, codec)| == |files| && AllEntriesFit([]) && Locals([]) == []
  {
    LayPrefix(files, codec, 0);
  }

  lemma MisfitSpoils(es: seq<Entry>, i: nat)
    requires i < |es| && !EntryFits(es[i])
    ensures !Fitting(es)
  {
    assert es[i] in es;
  }

  method ZipBytes(files: seq<SourceFile>, codec: Codec, table: array<bv32>) returns (r: Option<Octets>)
    requires Crc32.IsTable(table[..])
    ensures r.Some? <==> Fitting(Lay(files, codec))
    ensures r.Some? ==> r.value == Archive(Lay(files, codec))
  {
    LayEmpty(files, codec);
    if |files| >= 0xffff { return None; }
    var entries: seq<Entry> := [];
    var local: Octets := [];
    var offset := 0;
    var i := 0;
    while i < |files|
      invariant 0 <= i <= |files|
      invariant entries == Lay(files[..i], codec)
      invariant AllEntriesFit(entries) && local == Locals(entries) && offset == |local|
    {
      hide Lay, Locals, LocalHeader, Prepare, AllEntriesFit, Fitting, Crc32.IsTable;
      var e := PrepareEntry(files[i], codec, table, offset);
      LayNext(files, codec, i, entries, offset);
      if |e.bytes| >= 0xffff_ffff || |e.compressed| >= 0xffff_ffff || |e.name| >= 0x1_0000 || offset >= 0xffff_ffff {
        MisfitSpoils(Lay(files, codec), i);
        return None;
      }
      var header := LocalHeaderBuffer(e);
      LocalsSnoc(entries, e);
      entries, local := entries + [e], local + header[..] + e.compressed;
      offset := |local|;
      i := i + 1;
    }
    r := Finish(files, codec, entries, local);
  }

  method Finish(files: seq<SourceFile>, codec: Codec, entries: seq<Entry>, local: Octets) returns (r: Option<Octets>)
    requires |files| < 0xffff && entries == Lay(files[..|files|], codec) && AllEntriesFit(entries) && local == Locals(entries)
    ensures r.Some? <==> Fitting(Lay(files, codec))
    ensures r.Some? ==> r.value == Archive(Lay(files, codec))
  {
    hide Lay, Locals, Centrals, Pack;
    assert files[..|files|] == files;
    LayIsPlaced(files, codec);
    LayEmpty(files, codec);
    var central := CentralBuffers(entries);
    if |local| >= 0xffff_ffff || |central| >= 0xffff_ffff { return None; }
    var end := EndRecord(|entries|, |central|, |local|);
    r := Some(local + central + end[..]);
  }

  lemma CentralsNone()
    ensures Centrals([]) == []
  { }

  lemma CentralsNext(entries: seq<Entry>, i: nat)
    requires i < |entries| && AllEntriesFit(entries)
    ensures Centrals(entries[..i + 1]) == Centrals(entries[..i]) + CentralHeader(entries[i])
  {
    hide CentralHeader, EntryFits;
    assert entries[..i + 1][..i] == entries[..i];
  }

  method CentralBuffers(entries: seq<Entry>) returns (central: Octets)
    requires AllEntriesFit(entries)
    ensures central == Centrals(entries)
  {
    hide Centrals, CentralHeader, EntryFits;
    CentralsNone();
    central := [];
    var i := 0;
    while i < |entries|
      invariant 0 <= i <= |entries|
      invariant central == Centrals(entries[..i])
    {
      var header := CentralHeaderBuffer(entries[i]);
      CentralsNext(entries, i);
      central := central + header[..];
      i := i + 1;
    }
    assert entries[..i] == entries;
  }

  // ---------------------------------------------------------------- reader

  method FindEndOfCentralDirectory(b: Octets) returns (r: Result<nat, ZipError>)
    ensures r == FindEnd(b)
  {
    var minimum: nat := if |b| < 65557 then 0 else |b| - 65557;
    var at := |b| - 22;
    while at >= minimum
      invariant at + 22 <= |b|
      invariant ScanEnd(b, at, minimum) == FindEnd(b)
      decreases at + 1
    {
      if U32(b, at) == END_SIGNATURE { return Ok(at); }
      at := at - 1;
    }
    return Err(EndMissing);
  }

  /** `done` has been read, `left` is what reading on yields. */
  function Continue(done: seq<Central>, left: Result<(seq<Central>, nat), ZipError>): Result<(seq<Central>, nat), ZipError> {
    match left
    case Err(e) => Err(e)
    case Ok((cs, end)) => Ok((done + cs, end))
  }

  lemma ContinueStep(b: Octets, at: nat, count: nat, codec: Codec, done: seq<Central>)
    ensures var r, whole := ReadCentral(b, at, codec), ReadCentrals(b, at, count + 1, codec);
            if r.Err? then whole == Err(r.error) && Continue(done, whole) == whole
            else Continue(done, whole) == Continue(done + [r.value.0], ReadCentrals(b, r.value.1, count, codec))
  {
    hide ReadCentral;
    var r := ReadCentral(b, at, codec);
    if r.Ok? {
      var left := ReadCentrals(b, r.value.1, count, codec);
      if left.Ok? { assert done + ([r.value.0] + left.value.0) == (done + [r.value.0]) + left.value.0; }
    }
  }

  lemma ContinueEnds(done: seq<Central>, whole: Result<(seq<Central>, nat), ZipError>, b: Octets, at: nat, codec: Codec)
    ensures Continue([], whole) == whole
    ensures Continue(done, ReadCentrals(b, at, 0, codec)) == Ok((done, at))
  {
    if whole.Ok? { assert [] + whole.value.0 == whole.value.0; }
    assert done + [] == done;
  }

  method ReadEntries(b: Octets, start: nat, count: nat, codec: Codec) returns (r: Result<(seq<Central>, nat), ZipError>)
    ensures r == ReadCentrals(b, start, count, codec)
  {
    hide ReadCentral, ReadCentrals, Continue;
    var entries: seq<Central>, offset, index := [], start, 0;
    ghost var whole := ReadCentrals(b, start, count, codec);
    ContinueEnds([], whole, b, start, codec);
    while index < count
      invariant 0 <= index <= count
      invariant Continue(entries, ReadCentrals(b, offset, count - index, codec)) == whole
    {
      ContinueStep(b, offset, count - index - 1, codec, entries);
      var next := ReadCentral(b, offset, codec);
      if next.Err? { return Err(next.error); }
      entries, offset, index := entries + [next.value.0], next.value.1, index + 1;
    }
    ContinueEnds(entries, whole, b, offset, codec);
    return Ok((entries, offset));
  }

  method CentralDirectoryEntries(b: Octets, codec: Codec) returns (r: Result<seq<Central>, ZipError>)
    ensures r == CentralDirectory(b, codec)
  {
    hide ReadCentrals, FindEnd, U16, U32;
    var end := FindEndOfCentralDirectory(b);
    if end.Err? { return Err(end.error); }
    var count, size, start := U16(b, end.value + 10), U32(b, end.value + 12), U32(b, end.value + 16);
    if count == 0xffff || size == 0xffff_ffff || start == 0xffff_ffff { return Err(Zip64); }
    var entries := ReadEntries(b, start, count, codec);
    if entries.Err? { return Err(entries.error); }
    if entries.value.1 != start + size { return Err(BadCentralSize); }
    if !Distinct(Names(entries.value.0)) { return Err(DuplicateEntry); }
    return Ok(entries.value.0);
  }

  method DecodeEntries(b: Octets, entries: seq<Central>, codec: Codec) returns (r: Result<map<Name, Octets>, ZipError>)
    ensures r == DecodeAll(b, entries, codec)
  {
    hide DecodeOne;
    var files := map[];
    var i := 0;
    while i < |entries|
      invariant 0 <= i <= |entries|
      invariant DecodeAll(b, entries[..i], codec) == Ok(files)
    {
      assert entries[..i + 1][..i] == entries[..i];
      var bytes := DecodeOne(b, entries[i], codec);
      if bytes.Err? {
        FirstErrorWins(b, entries, i + 1, codec);
        return Err(bytes.error);
      }
      files := files[entries[i].name := bytes.value];
      i := i + 1;
    }
    assert entries[..i] == entries;
    return Ok(files);
  }

  lemma {:induction false} FirstErrorWins(b: Octets, cs: seq<Central>, i: nat, codec: Codec)
    requires i <= |cs| && DecodeAll(b, cs[..i], codec).Err?
    ensures DecodeAll(b, cs, codec) == DecodeAll(b, cs[..i], codec)
    decreases |cs|
  {
    hide DecodeOne;
    if i == |cs| {
      assert cs[..i] == cs;
    } else {
      assert cs[..|cs| - 1][..i] == cs[..i];
      FirstErrorWins(b, cs[..|cs| - 1], i, codec);
    }
  }

  lemma LayStores(files: seq<SourceFile>, codec: Codec)
    ensures StoresAll(Lay(files, codec), files, codec)
  {
    hide Lay, TotalLength;
    LayPrefix(files, codec, |files|);
    forall i | 0 <= i < |files| ensures Stores(Lay(files, codec)[i], files[i], codec) {
      LayPrefix(files, codec, i);
    }
  }

  /** What the writer produces from valid names, the reader reads back: every entry in order, and exactly the contents. */
  lemma WrittenThenRead(files: seq<SourceFile>, codec: Codec, es: seq<Entry>)
    requires es == Lay(files, codec) && Fitting(es) && Faithful(files, codec) && ValidNames(files)
    ensures |es| == |files|
    ensures CentralDirectory(Archive(es), codec) == Ok(Report(es, files, 0))
    ensures |Report(es, files, 0)| == |files| && forall i | 0 <= i < |files| :: Report(es, files, 0)[i] == Reported(es[i], files[i])
    ensures DecodeAll(Archive(es), Report(es, files, 0), codec) == Ok(Contents(files))
  {
    LayStores(files, codec);
    hide Lay, Archive, Fitting, Faithful, ValidNames, CentralDirectory, DecodeAll, Contents, Report, Reported, Stores;
    ArchiveRoundTrip(es, files, codec);
    ReportLength(es, files);
    forall i | 0 <= i < |files| ensures Report(es, files, 0)[i] == Reported(es[i], files[i]) {
      ReportAt(es, files, 0, i);
    }
  }
}
