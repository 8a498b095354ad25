/** The reader undoes the writer. */
module ZipRoundTrip {
  import opened Common
  import opened ZipFormat
  import opened ZipArchive
  import Crc32

  // ---------------------------------------------------------------- reading packed records

  lemma SizeStep(fs: seq<Field>, i: nat)
    requires i < |fs|
    ensures Size(fs[..i + 1]) == Size(fs[..i]) + Width(fs[i])
  {
    assert fs[..i + 1][..i] == fs[..i];
  }

  lemma LocalSizes(e: Entry)
    ensures var fs := LocalFields(e);
            && Size(fs[..0]) == 0 && Size(fs[..2]) == 6 && Size(fs[..3]) == 8 && Size(fs[..6]) == 14
            && Size(fs[..7]) == 18 && Size(fs[..8]) == 22 && Size(fs[..9]) == 26 && Size(fs[..10]) == 28
            && Size(fs) == 30
  {
    hide Size;
    var fs := LocalFields(e);
    EmptySize(fs);
    SizeStep(fs, 0); SizeStep(fs, 1); SizeStep(fs, 2); SizeStep(fs, 3); SizeStep(fs, 4); SizeStep(fs, 5);
    SizeStep(fs, 6); SizeStep(fs, 7); SizeStep(fs, 8); SizeStep(fs, 9); SizeStep(fs, 10);
    assert fs[..11] == fs;
  }

  lemma CentralSizes(e: Entry)
    ensures var fs := CentralFields(e);
            && Size(fs[..0]) == 0 && Size(fs[..3]) == 8 && Size(fs[..4]) == 10 && Size(fs[..7]) == 16
            && Size(fs[..8]) == 20 && Size(fs[..9]) == 24 && Size(fs[..10]) == 28 && Size(fs[..11]) == 30
            && Size(fs[..12]) == 32 && Size(fs[..15]) == 38 && Size(fs[..16]) == 42 && Size(fs) == 46
  {
    var fs := CentralFields(e);
    CentralSizesFront(e, fs);
    CentralSizesBack(e, fs);
    assert fs[..17] == fs;
  }

  lemma CentralSizesFront(e: Entry, fs: seq<Field>)
    requires fs == CentralFields(e)
    ensures Size(fs[..0]) == 0 && Size(fs[..3]) == 8 && Size(fs[..4]) == 10 && Size(fs[..7]) == 16
    ensures Size(fs[..8]) == 20 && Size(fs[..9]) == 24
  {
    hide Size;
    EmptySize(fs);
    SizeStep(fs, 0); SizeStep(fs, 1); SizeStep(fs, 2); SizeStep(fs, 3); SizeStep(fs, 4); SizeStep(fs, 5);
    SizeStep(fs, 6); SizeStep(fs, 7); SizeStep(fs, 8);
  }

  lemma CentralSizesBack(e: Entry, fs: seq<Field>)
    requires fs == CentralFields(e) && Size(fs[..9]) == 24
    ensures Size(fs[..10]) == 28 && Size(fs[..11]) == 30
    ensures Size(fs[..12]) == 32 && Size(fs[..15]) == 38 && Size(fs[..16]) == 42 && Size(fs[..17]) == 46
  {
    hide Size;
    SizeStep(fs, 9); SizeStep(fs, 10); SizeStep(fs, 11);
    SizeStep(fs, 12); SizeStep(fs, 13); SizeStep(fs, 14); SizeStep(fs, 15); SizeStep(fs, 16);
  }

  lemma EmptySize(fs: seq<Field>)
    ensures Size(fs[..0]) == 0
  {}

  lemma EndSizes(count: int, size: int, offset: int)
    ensures var fs := EndFields(count, size, offset);
            && Size(fs[..0]) == 0 && Size(fs[..4]) == 10 && Size(fs[..5]) == 12 && Size(fs[..6]) == 16 && Size(fs) == 22
  {
    var fs := EndFields(count, size, offset);
    SizeStep(fs, 0); SizeStep(fs, 1); SizeStep(fs, 2); SizeStep(fs, 3); SizeStep(fs, 4); SizeStep(fs, 5);
    SizeStep(fs, 6); SizeStep(fs, 7);
    assert fs[..8] == fs;
  }

  /** `b` holds `part` at `at`. */
  predicate Holds(b: Octets, at: nat, part: Octets) {
    at + |part| <= |b| && b[at..at + |part|] == part
  }

  lemma HeldSplits(b: Octets, at: nat, part: Octets)
    requires Holds(b, at, part)
    ensures at + |part| <= |b| && b == b[..at] + part + b[at + |part|..]
  {
    assert b[at..] == b[at..at + |part|] + b[at + |part|..];
  }

  lemma ReadHeld(fs: seq<Field>, i: nat, b: Octets, at: nat)
    requires AllFit(fs) && i < |fs| && Holds(b, at, Pack(fs))
    ensures Size(fs[..i]) + Width(fs[i]) <= Size(fs)
    ensures Read(fs[i], b, at + Size(fs[..i])) == fs[i].value
  {
    hide Read, U16, U32, Print, Fits, Size, Pack, Holds;
    HeldSplits(b, at, Pack(fs));
    PackThenRead(fs, i, b[..at], b[at + |Pack(fs)|..]);
  }

  lemma HeldPrefix(b: Octets, at: nat, p: Octets, q: Octets)
    requires Holds(b, at, p + q)
    ensures Holds(b, at, p) && Holds(b, at + |p|, q)
  {
    assert b[at..at + |p + q|][..|p|] == b[at..at + |p|];
    assert b[at..at + |p + q|][|p|..] == b[at + |p|..at + |p| + |q|];
  }

  lemma LocalReads(e: Entry, b: Octets, at: nat)
    requires EntryFits(e) && Holds(b, at, LocalHeader(e))
    ensures at + 30 + |e.name| <= |b| && |LocalHeader(e)| == 30 + |e.name|
    ensures U32(b, at) == LOCAL_SIGNATURE && U16(b, at + 6) == UTF8_FLAG && U16(b, at + 8) == DEFLATE_METHOD
    ensures U32(b, at + 14) == e.crc && U32(b, at + 18) == |e.compressed| && U32(b, at + 22) == |e.bytes|
    ensures U16(b, at + 26) == |e.name| && U16(b, at + 28) == 0
    ensures b[at + 30..at + 30 + |e.name|] == e.name
  {
    hide U16, U32, Pack, Size, Holds, Print, Fits;
    var fs := LocalFields(e);
    assert AllFit(fs) by { LocalFieldsFit(e); }
    LocalSizes(e);
    HeldPrefix(b, at, Pack(fs), e.name);
    ReadHeld(fs, 0, b, at); ReadHeld(fs, 2, b, at); ReadHeld(fs, 3, b, at); ReadHeld(fs, 6, b, at);
    ReadHeld(fs, 7, b, at); ReadHeld(fs, 8, b, at); ReadHeld(fs, 9, b, at); ReadHeld(fs, 10, b, at);
    HeldBytes(b, at + 30, e.name);
  }

  lemma HeldBytes(b: Octets, at: nat, part: Octets)
    requires Holds(b, at, part)
    ensures at + |part| <= |b| && b[at..at + |part|] == part
  {}

  lemma LocalFieldsFit(e: Entry)
    requires EntryFits(e)
    ensures AllFit(LocalFields(e))
  {}

  lemma CentralFieldsFit(e: Entry)
    requires EntryFits(e)
    ensures AllFit(CentralFields(e))
  {}

  lemma CentralReads(e: Entry, b: Octets, at: nat)
    requires EntryFits(e) && Holds(b, at, CentralHeader(e))
    ensures at + 46 + |e.name| <= |b| && |CentralHeader(e)| == 46 + |e.name|
    ensures U32(b, at) == CENTRAL_SIGNATURE && U16(b, at + 8) == UTF8_FLAG && U16(b, at + 10) == DEFLATE_METHOD
    ensures U32(b, at + 16) == e.crc && U32(b, at + 20) == |e.compressed| && U32(b, at + 24) == |e.bytes|
    ensures U16(b, at + 28) == |e.name| && U16(b, at + 30) == 0 && U16(b, at + 32) == 0
    ensures U32(b, at + 38) == FILE_ATTRIBUTES && U32(b, at + 42) == e.offset
    ensures b[at + 46..at + 46 + |e.name|] == e.name
  {
    hide U16, U32, Pack, Size, Holds, Print, Fits;
    var fs := CentralFields(e);
    assert AllFit(fs) by { CentralFieldsFit(e); }
    CentralSizes(e);
    HeldPrefix(b, at, Pack(fs), e.name);
    ReadHeld(fs, 0, b, at); ReadHeld(fs, 3, b, at); ReadHeld(fs, 4, b, at); ReadHeld(fs, 7, b, at);
    ReadHeld(fs, 8, b, at); ReadHeld(fs, 9, b, at); ReadHeld(fs, 10, b, at); ReadHeld(fs, 11, b, at);
    ReadHeld(fs, 12, b, at); ReadHeld(fs, 15, b, at); ReadHeld(fs, 16, b, at);
    HeldBytes(b, at + 46, e.name);
  }

  lemma EndReads(count: int, size: int, offset: int, b: Octets, at: nat)
    requires AllFit(EndFields(count, size, offset)) && Holds(b, at, Pack(EndFields(count, size, offset)))
    ensures at + 22 <= |b| && |Pack(EndFields(count, size, offset))| == 22
    ensures U32(b, at) == END_SIGNATURE && U16(b, at + 10) == count && U32(b, at + 12) == size && U32(b, at + 16) == offset
  {
    hide U16, U32, Pack, Size, Holds, Print, Fits;
    var fs := EndFields(count, size, offset);
    EndSizes(count, size, offset);
    HeldBytes(b, at, Pack(fs));
    ReadHeld(fs, 0, b, at); ReadHeld(fs, 4, b, at); ReadHeld(fs, 5, b, at); ReadHeld(fs, 6, b, at);
  }

  // ---------------------------------------------------------------- where the records lie

  lemma {:induction false} LocalLies(es: seq<Entry>, i: nat)
    requires AllEntriesFit(es) && i < |es|
    ensures var e := es[i]; Holds(Locals(es), |Locals(es[..i])|, LocalHeader(e) + e.compressed)
    decreases |es|
  {
    hide LocalHeader;
    var front, last := es[..|es| - 1], es[|es| - 1];
    if i < |front| {
      LocalLies(front, i);
      assert front[..i] == es[..i];
    } else {
      assert Locals(es) == Locals(front) + (LocalHeader(last) + last.compressed);
    }
  }

  lemma {:induction false} CentralLies(es: seq<Entry>, i: nat)
    requires AllEntriesFit(es) && i < |es|
    ensures Holds(Centrals(es), |Centrals(es[..i])|, CentralHeader(es[i]))
    ensures Centrals(es[..i + 1]) == Centrals(es[..i]) + CentralHeader(es[i])
    decreases |es|
  {
    hide CentralHeader;
    assert es[..i + 1][..i] == es[..i];
    var front := es[..|es| - 1];
    if i < |front| {
      CentralLies(front, i);
      assert front[..i] == es[..i] && front[..i + 1] == es[..i + 1];
    } else {
      assert es[..i + 1] == es;
    }
  }

  // ---------------------------------------------------------------- round trip

  /** The platform conversions undo each other on what the archive stores. */
  ghost predicate Faithful(files: seq<SourceFile>, codec: Codec) {
    forall f | f in files :: codec.text(codec.encode(f.name)) == f.name && codec.inflate(codec.deflate(f.bytes)) == Some(f.bytes)
  }

  /** The entry that stands for a file. */
  predicate Stores(e: Entry, f: SourceFile, codec: Codec) {
    e.name == codec.encode(f.name) && e.bytes == f.bytes && e.compressed == codec.deflate(f.bytes)
    && e.crc == Crc32.Number(f.bytes)
  }

  ghost predicate StoresAll(es: seq<Entry>, files: seq<SourceFile>, codec: Codec) {
    |es| == |files| && forall i | 0 <= i < |es| :: Stores(es[i], files[i], codec)
  }

  predicate ValidNames(files: seq<SourceFile>) {
    && (forall f | f in files :: SafeName(f.name))
    && (forall i, j | 0 <= i < j < |files| :: files[i].name != files[j].name)
  }

  /** What the reader reports for an entry. */
  function Reported(e: Entry, f: SourceFile): Central {
    Central(f.name, UTF8_FLAG, DEFLATE_METHOD, e.crc, |e.compressed|, |e.bytes|, e.offset, 33188)
  }

  lemma CentralRoundTrip(e: Entry, f: SourceFile, codec: Codec, b: Octets, at: nat)
    requires EntryFits(e) && Stores(e, f, codec) && Faithful([f], codec) && SafeName(f.name)
    requires Holds(b, at, CentralHeader(e))
    ensures ReadCentral(b, at, codec) == Ok((Reported(e, f), at + |CentralHeader(e)|))
  {
    hide U16, U32, CentralHeader, SafeName, Holds;
    CentralReads(e, b, at);
    assert f in [f];
    assert Sub(b, at + 46, at + 46 + |e.name|) == e.name;
  }

  /** The reader's report for the entries from i on. */
  function Report(es: seq<Entry>, files: seq<SourceFile>, i: nat): seq<Central>
    requires i <= |es| == |files|
    decreases |es| - i
  {
    if i == |es| then [] else [Reported(es[i], files[i])] + Report(es, files, i + 1)
  }

  lemma {:induction false} ReportAt(es: seq<Entry>, files: seq<SourceFile>, i: nat, k: nat)
    requires i <= k < |es| == |files|
    ensures |Report(es, files, i)| == |es| - i && Report(es, files, i)[k - i] == Reported(es[k], files[k])
    decreases |es| - i
  {
    if i < k {
      ReportAt(es, files, i + 1, k);
    } else if i + 1 < |es| {
      ReportAt(es, files, i + 1, i + 1);
    }
  }

  lemma ReadCentralsStep(b: Octets, at: nat, count: nat, codec: Codec, c: Central, next: nat, cs: seq<Central>, end: nat)
    requires ReadCentral(b, at, codec) == Ok((c, next)) && ReadCentrals(b, next, count, codec) == Ok((cs, end))
    ensures ReadCentrals(b, at, count + 1, codec) == Ok(([c] + cs, end))
  {
    hide ReadCentral;
  }

  lemma OneCentralRoundTrip(es: seq<Entry>, files: seq<SourceFile>, codec: Codec, b: Octets, at: nat, i: nat)
    requires AllEntriesFit(es) && StoresAll(es, files, codec) && Faithful(files, codec) && ValidNames(files)
    requires Holds(b, at, Centrals(es)) && i < |es|
    ensures ReadCentral(b, at + |Centrals(es[..i])|, codec) ==
            Ok((Reported(es[i], files[i]), at + |Centrals(es[..i + 1])|))
  {
    hide ReadCentral, CentralHeader, SafeName, Holds, Reported, Centrals;
    CentralLies(es, i);
    HeldInside(b, at, Centrals(es), |Centrals(es[..i])|, CentralHeader(es[i]));
    assert Faithful([files[i]], codec);
    CentralRoundTrip(es[i], files[i], codec, b, at + |Centrals(es[..i])|);
  }

  lemma {:induction false} CentralsRoundTrip(es: seq<Entry>, files: seq<SourceFile>, codec: Codec, b: Octets, at: nat, i: nat)
    requires AllEntriesFit(es) && StoresAll(es, files, codec) && Faithful(files, codec) && ValidNames(files)
    requires Holds(b, at, Centrals(es)) && i <= |es|
    ensures ReadCentrals(b, at + |Centrals(es[..i])|, |es| - i, codec) == Ok((Report(es, files, i), at + |Centrals(es)|))
    decreases |es| - i
  {
    hide ReadCentral, CentralHeader, SafeName, Holds, Reported, Centrals, Faithful, Stores, ValidNames;
    if i == |es| {
      assert es[..i] == es;
    } else {
      OneCentralRoundTrip(es, files, codec, b, at, i);
      CentralsRoundTrip(es, files, codec, b, at, i + 1);
      ReadCentralsStep(b, at + |Centrals(es[..i])|, |es| - i - 1, codec, Reported(es[i], files[i]),
                       at + |Centrals(es[..i + 1])|, Report(es, files, i + 1), at + |Centrals(es)|);
    }
  }

  lemma HeldInside(b: Octets, at: nat, whole: Octets, offset: nat, part: Octets)
    requires Holds(b, at, whole) && Holds(whole, offset, part)
    ensures Holds(b, at + offset, part)
  {
    forall k | 0 <= k < |part| ensures b[at + offset + k] == part[k] {
      assert b[at..at + |whole|][offset + k] == whole[offset + k];
      assert whole[offset..offset + |part|][k] == part[k];
    }
  }

  lemma LocalRoundTrip(e: Entry, f: SourceFile, codec: Codec, b: Octets)
    requires EntryFits(e) && Stores(e, f, codec) && Faithful([f], codec)
    requires Holds(b, e.offset, LocalHeader(e) + e.compressed)
    ensures DecodeOne(b, Reported(e, f), codec) == Ok(f.bytes)
  {
    hide U16, U32, LocalHeader, Holds, Crc32.Number;
    var at := e.offset;
    HeldPrefix(b, at, LocalHeader(e), e.compressed);
    LocalReads(e, b, at);
    var start := at + 30 + |e.name|;
    HeldBytes(b, start, e.compressed);
    assert f in [f];
    assert Sub(b, at + 30, start) == e.name;
    assert Sub(b, start, start + |e.compressed|) == e.compressed;
  }

  /** The files as the decoder's map. */
  function Contents(files: seq<SourceFile>): map<Name, Octets> {
    if files == [] then map[] else Contents(files[..|files| - 1])[files[|files| - 1].name := files[|files| - 1].bytes]
  }

  lemma FaithfulOne(files: seq<SourceFile>, codec: Codec, k: nat)
    requires Faithful(files, codec) && k < |files|
    ensures Faithful([files[k]], codec)
  {}

  lemma PlacedAt(es: seq<Entry>, k: nat)
    requires Fitting(es) && k < |es|
    ensures es[k].offset == |Locals(es[..k])|
  {
    hide Locals;
  }

  lemma StoredOne(es: seq<Entry>, files: seq<SourceFile>, codec: Codec, k: nat)
    requires Fitting(es) && StoresAll(es, files, codec) && k < |es|
    ensures |es| == |files| && EntryFits(es[k]) && Stores(es[k], files[k], codec) && Placed(es) && AllEntriesFit(es)
  {
    hide EntryFits, Stores, Placed, Locals, Centrals;
    assert es[k] in es;
  }

  lemma OneLocalRoundTrip(es: seq<Entry>, files: seq<SourceFile>, codec: Codec, b: Octets, k: nat)
    requires Fitting(es) && StoresAll(es, files, codec) && Faithful(files, codec)
    requires Holds(b, 0, Locals(es)) && k < |es|
    ensures DecodeOne(b, Reported(es[k], files[k]), codec) == Ok(files[k].bytes)
  {
    hide LocalHeader, Locals, Holds, Stores, StoresAll, Fitting, DecodeOne, Faithful, Reported, Placed, EntryFits;
    StoredOne(es, files, codec, k);
    LocalLies(es, k);
    PlacedAt(es, k);
    HeldInside(b, 0, Locals(es), |Locals(es[..k])|, LocalHeader(es[k]) + es[k].compressed);
    FaithfulOne(files, codec, k);
    LocalRoundTrip(es[k], files[k], codec, b);
  }

  lemma DecodeAllStep(b: Octets, cs: seq<Central>, c: Central, codec: Codec, files: map<Name, Octets>, bytes: Octets)
    requires DecodeAll(b, cs, codec) == Ok(files) && DecodeOne(b, c, codec) == Ok(bytes)
    ensures DecodeAll(b, cs + [c], codec) == Ok(files[c.name := bytes])
  {
    hide DecodeOne;
    assert (cs + [c])[..|cs|] == cs;
  }

  /** Every header of the report decodes to its file's contents. */
  ghost predicate DecodesEach(b: Octets, all: seq<Central>, files: seq<SourceFile>, codec: Codec) {
    |all| == |files| && forall k | 0 <= k < |all| :: all[k].name == files[k].name && DecodeOne(b, all[k], codec) == Ok(files[k].bytes)
  }

  lemma {:induction false} DecodeEach(b: Octets, all: seq<Central>, files: seq<SourceFile>, codec: Codec, k: nat)
    requires DecodesEach(b, all, files, codec) && k <= |all|
    ensures DecodeAll(b, all[..k], codec) == Ok(Contents(files[..k]))
  {
    hide DecodeOne, DecodeAll, Contents;
    if k == 0 {
      NothingDecoded(b, all, files, codec);
    } else {
      DecodeEach(b, all, files, codec, k - 1);
      DecodeNext(b, all, files, codec, k - 1);
    }
  }

  lemma LocalsRoundTrip(es: seq<Entry>, files: seq<SourceFile>, codec: Codec, b: Octets)
    requires Fitting(es) && StoresAll(es, files, codec) && Faithful(files, codec)
    requires Holds(b, 0, Locals(es))
    ensures DecodesEach(b, Report(es, files, 0), files, codec)
  {
    hide Locals, Holds, Stores, DecodeOne, Faithful, Fitting, Report;
    ReportLength(es, files);
    forall k | 0 <= k < |es|
      ensures Report(es, files, 0)[k].name == files[k].name
      ensures DecodeOne(b, Report(es, files, 0)[k], codec) == Ok(files[k].bytes)
    {
      OneLocalRoundTrip(es, files, codec, b, k);
      ReportAt(es, files, 0, k);
    }
  }

  lemma DecodeNext(b: Octets, all: seq<Central>, files: seq<SourceFile>, codec: Codec, k: nat)
    requires k < |files| == |all| && all[k].name == files[k].name
    requires DecodeAll(b, all[..k], codec) == Ok(Contents(files[..k])) && DecodeOne(b, all[k], codec) == Ok(files[k].bytes)
    ensures DecodeAll(b, all[..k + 1], codec) == Ok(Contents(files[..k + 1]))
  {
    hide DecodeOne, DecodeAll, Contents;
    DecodeAllStep(b, all[..k], all[k], codec, Contents(files[..k]), files[k].bytes);
    assert all[..k + 1] == all[..k] + [all[k]];
    ContentsStep(files, k);
  }

  lemma NothingDecoded(b: Octets, all: seq<Central>, files: seq<SourceFile>, codec: Codec)
    ensures DecodeAll(b, all[..0], codec) == Ok(Contents(files[..0]))
  {}

  lemma ContentsStep(files: seq<SourceFile>, k: nat)
    requires k < |files|
    ensures Contents(files[..k + 1]) == Contents(files[..k])[files[k].name := files[k].bytes]
  {
    assert files[..k + 1][..k] == files[..k];
  }

  lemma ReportLength(es: seq<Entry>, files: seq<SourceFile>)
    requires |es| == |files|
    ensures |Report(es, files, 0)| == |es|
  {
    if es != [] { ReportAt(es, files, 0, 0); }
  }

  /**
    Round trip.  Whatever the writer lays out as ZIP32, the independent reader accepts,
    reporting every entry in order with its name, sizes, checksum and offset, and
    decoding exactly the stored contents.
  */
  lemma ArchiveRoundTrip(es: seq<Entry>, files: seq<SourceFile>, codec: Codec)
    requires Fitting(es) && StoresAll(es, files, codec) && Faithful(files, codec) && ValidNames(files)
    ensures CentralDirectory(Archive(es), codec) == Ok(Report(es, files, 0))
    ensures DecodeAll(Archive(es), Report(es, files, 0), codec) == Ok(Contents(files))
  {
    var b := Archive(es);
    LocalsHeld(es);
    LocalsRoundTrip(es, files, codec, b);
    DecodeEach(b, Report(es, files, 0), files, codec, |es|);
    ReportLength(es, files);
    assert Report(es, files, 0)[..|es|] == Report(es, files, 0) && files[..|es|] == files;
    DirectoryRoundTrip(es, files, codec);
  }

  lemma LocalsHeld(es: seq<Entry>)
    requires Fitting(es)
    ensures Holds(Archive(es), 0, Locals(es)) && Holds(Archive(es), |Locals(es)|, Centrals(es))
    ensures Holds(Archive(es), |Locals(es)| + |Centrals(es)|, Pack(EndFields(|es|, |Centrals(es)|, |Locals(es)|)))
    ensures |Archive(es)| == |Locals(es)| + |Centrals(es)| + 22
  {
    hide Locals, Centrals, Pack;
    var end := Pack(EndFields(|es|, |Centrals(es)|, |Locals(es)|));
    EndSizes(|es|, |Centrals(es)|, |Locals(es)|);
  }

  lemma EndIsFound(es: seq<Entry>)
    requires Fitting(es)
    ensures FindEnd(Archive(es)) == Ok(|Locals(es)| + |Centrals(es)|)
    ensures var b, end := Archive(es), |Locals(es)| + |Centrals(es)|;
            end + 22 <= |b| && U16(b, end + 10) == |es| && U32(b, end + 12) == |Centrals(es)| && U32(b, end + 16) == |Locals(es)|
  {
    hide Locals, Centrals, Pack, Holds, U16, U32, Archive;
    LocalsHeld(es);
    EndReads(|es|, |Centrals(es)|, |Locals(es)|, Archive(es), |Locals(es)| + |Centrals(es)|);
  }

  lemma DirectoryRoundTrip(es: seq<Entry>, files: seq<SourceFile>, codec: Codec)
    requires Fitting(es) && StoresAll(es, files, codec) && Faithful(files, codec) && ValidNames(files)
    ensures CentralDirectory(Archive(es), codec) == Ok(Report(es, files, 0))
  {
    hide Locals, Centrals, Holds, U16, U32, Archive, FindEnd, ReadCentrals, Report, Stores, Faithful;
    EndIsFound(es);
    LocalsHeld(es);
    EmptyCentrals(es);
    CentralsRoundTrip(es, files, codec, Archive(es), |Locals(es)|, 0);
    ReportNamesDistinct(es, files);
  }

  lemma EmptyCentrals(es: seq<Entry>)
    requires AllEntriesFit(es)
    ensures |Centrals(es[..0])| == 0
  {}

  lemma ReportNamesDistinct(es: seq<Entry>, files: seq<SourceFile>)
    requires |es| == |files| && ValidNames(files)
    ensures Distinct(Names(Report(es, files, 0)))
  {
    hide Report;
    ReportLength(es, files);
    forall i, j | 0 <= i < j < |es| ensures Names(Report(es, files, 0))[i] != Names(Report(es, files, 0))[j] {
      ReportAt(es, files, 0, i);
      ReportAt(es, files, 0, j);
    }
  }

  /** Any one changed byte of an entry's content is rejected on decoding. */
  lemma CorruptionIsRejected(b: Octets, c: Central, codec: Codec, before: Octets, x: bv8, y: bv8, after: Octets)
    requires x != y
    requires c.crc == Crc32.Number(before + [x] + after)
    ensures DecodeOne(b, c, codec) != Ok(before + [y] + after)
  {
    hide U16, U32, Crc32.Number;
    Crc32.OneChangedByteIsDetected(before, x, y, after);
    Crc32.NumberIsFaithful(before + [x] + after, before + [y] + after);
  }
}
