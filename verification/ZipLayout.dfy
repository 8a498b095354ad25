/**
  The ZIP32 records octet by octet, with the offsets and constants of PKWARE APPNOTE,
  sections 4.3.7, 4.3.12 and 4.3.16; the tests of the reader in their order; and the
  entry names that both sides take for safe.
*/
module ZipLayout {
  import opened Common
  import opened ZipFormat
  import opened ZipArchive
  import opened ZipRoundTrip
  import Crc32

  // ---------------------------------------------------------------- what is written

  lemma SameDigits(a: int, b: int, c: int, d: int, w: int, x: int, y: int, z: int)
    requires 0 <= a < 256 && 0 <= b < 256 && 0 <= c < 256 && 0 <= w < 256 && 0 <= x < 256 && 0 <= y < 256
    requires a + 256 * (b + 256 * (c + 256 * d)) == w + 256 * (x + 256 * (y + 256 * z))
    ensures a == w && b == x && c == y && d == z
  { }

  function Num(b: bv8): int { b as int }

  lemma SameOctet(a: bv8, b: bv8)
    ensures 0 <= Num(a) < 256 && 0 <= Num(b) < 256
    ensures Num(a) == Num(b) ==> a == b
  { }

  lemma SameOctets(p: bv8, q: bv8, r: bv8, s: bv8, w: bv8, x: bv8, y: bv8, z: bv8)
    requires Num(p) + 256 * (Num(q) + 256 * (Num(r) + 256 * Num(s))) == Num(w) + 256 * (Num(x) + 256 * (Num(y) + 256 * Num(z)))
    ensures p == w && q == x && r == y && s == z
  {
    SameOctet(p, w);
    SameOctet(q, x);
    SameOctet(r, y);
    SameOctet(s, z);
    var a, b, c, d := Num(p), Num(q), Num(r), Num(s);
    var e, f, g, h := Num(w), Num(x), Num(y), Num(z);
    hide Num;
    SameDigits(a, b, c, d, e, f, g, h);
  }

  lemma U32Is(b: Octets, at: nat)
    requires at + 4 <= |b|
    ensures U32(b, at) == Num(b[at]) + 256 * (Num(b[at + 1]) + 256 * (Num(b[at + 2]) + 256 * Num(b[at + 3])))
  { }

  /** A 32-bit field by its octets, the lowest first. */
  lemma OctetsOfFour(b: Octets, at: nat, w: bv8, x: bv8, y: bv8, z: bv8)
    requires at + 4 <= |b|
    requires U32(b, at) == Num(w) + 256 * (Num(x) + 256 * (Num(y) + 256 * Num(z)))
    ensures b[at..at + 4] == [w, x, y, z]
  {
    U32Is(b, at);
    hide U32, Num;
    var p, q, r, s := b[at], b[at + 1], b[at + 2], b[at + 3];
    SameOctets(p, q, r, s, w, x, y, z);
    assert b[at..at + 4] == [p, q, r, s];
  }

  /** One field of a packed record. */
  lemma FieldAt(fs: seq<Field>, i: nat, h: Octets, at: nat)
    requires AllFit(fs) && i < |fs| && |h| >= Size(fs) && h[..Size(fs)] == Pack(fs) && at == Size(fs[..i])
    ensures at + Width(fs[i]) <= |h| && Read(fs[i], h, at) == fs[i].value
  {
    hide Size, Pack, Read, Width, Fits;
    assert h[0..0 + Size(fs)] == h[..Size(fs)];
    ReadHeld(fs, i, h, 0);
  }

  lemma LocalOffsets(e: Entry)
    ensures var fs := LocalFields(e);
      && |fs| == 11 && Size(fs[..0]) == 0 && Size(fs[..1]) == 4 && Size(fs[..2]) == 6 && Size(fs[..3]) == 8 && Size(fs[..4]) == 10
      && Size(fs[..5]) == 12 && Size(fs[..6]) == 14 && Size(fs[..7]) == 18 && Size(fs[..8]) == 22 && Size(fs[..9]) == 26
      && Size(fs[..10]) == 28 && Size(fs) == 30
  {
    hide Size;
    var fs := LocalFields(e);
    EmptySize(fs);
    SizeStep(fs, 0); SizeStep(fs, 1); SizeStep(fs, 2); SizeStep(fs, 3); SizeStep(fs, 4); SizeStep(fs, 5);
    SizeStep(fs, 6); SizeStep(fs, 7); SizeStep(fs, 8); SizeStep(fs, 9); SizeStep(fs, 10);
    assert fs[..11] == fs;
  }

  /** A local file header. */
  ghost predicate LocalLayout(h: Octets, e: Entry) {
    && |h| == 30 + |e.name| && h[30..] == e.name
    && h[0..4] == [0x50, 0x4b, 0x03, 0x04]          // signature
    && U16(h, 4) == 20 && U16(h, 6) == 0x0800       // version needed, UTF-8 names
    && U16(h, 8) == 8                               // deflated
    && U16(h, 10) == 0 && U16(h, 12) == 0x2821      // midnight, 1 January 2000
    && U32(h, 14) == e.crc && U32(h, 18) == |e.compressed| && U32(h, 22) == |e.bytes|
    && U16(h, 26) == |e.name| && U16(h, 28) == 0    // no extra field
  }

  lemma LocalFieldsAt(e: Entry, h: Octets)
    requires EntryFits(e) && h == LocalHeader(e)
    ensures |h| == 30 + |e.name| && h[30..] == e.name
    ensures U32(h, 0) == 0x04034b50 && U16(h, 4) == 20 && U16(h, 6) == 0x0800 && U16(h, 8) == 8
    ensures U16(h, 10) == 0 && U16(h, 12) == 0x2821
    ensures U32(h, 14) == e.crc && U32(h, 18) == |e.compressed| && U32(h, 22) == |e.bytes|
    ensures U16(h, 26) == |e.name| && U16(h, 28) == 0
  {
    hide Size, Pack, U16, U32, Fits;
    var fs := LocalFields(e);
    LocalFieldsFit(e);
    LocalOffsets(e);
    assert h[..30] == Pack(fs);
    FieldAt(fs, 0, h, 0);
    FieldAt(fs, 1, h, 4);
    FieldAt(fs, 2, h, 6);
    FieldAt(fs, 3, h, 8);
    FieldAt(fs, 4, h, 10);
    FieldAt(fs, 5, h, 12);
    FieldAt(fs, 6, h, 14);
    FieldAt(fs, 7, h, 18);
    FieldAt(fs, 8, h, 22);
    FieldAt(fs, 9, h, 26);
    FieldAt(fs, 10, h, 28);
  }

  lemma LocalHeaderLayout(e: Entry)
    requires EntryFits(e)
    ensures LocalLayout(LocalHeader(e), e)
  {
    var h := LocalHeader(e);
    hide LocalHeader, U16, U32;
    LocalFieldsAt(e, h);
    OctetsOfFour(h, 0, 0x50, 0x4b, 0x03, 0x04);
  }

  lemma CentralOffsets(e: Entry)
    ensures var fs := CentralFields(e);
      && |fs| == 17 && Size(fs[..0]) == 0 && Size(fs[..1]) == 4 && Size(fs[..2]) == 6 && Size(fs[..3]) == 8 && Size(fs[..4]) == 10
      && Size(fs[..5]) == 12 && Size(fs[..6]) == 14 && Size(fs[..7]) == 16 && Size(fs[..8]) == 20 && Size(fs[..9]) == 24
  {
    hide Size;
    var fs := CentralFields(e);
    EmptySize(fs);
    SizeStep(fs, 0); SizeStep(fs, 1); SizeStep(fs, 2); SizeStep(fs, 3); SizeStep(fs, 4); SizeStep(fs, 5);
    SizeStep(fs, 6); SizeStep(fs, 7); SizeStep(fs, 8);
  }

  lemma CentralOffsetsBack(e: Entry)
    ensures var fs := CentralFields(e);
      && Size(fs[..10]) == 28 && Size(fs[..11]) == 30 && Size(fs[..12]) == 32 && Size(fs[..13]) == 34 && Size(fs[..14]) == 36
      && Size(fs[..15]) == 38 && Size(fs[..16]) == 42 && Size(fs) == 46
  {
    CentralOffsets(e);
    hide Size;
    var fs := CentralFields(e);
    SizeStep(fs, 9); SizeStep(fs, 10); SizeStep(fs, 11);
    SizeStep(fs, 12); SizeStep(fs, 13); SizeStep(fs, 14); SizeStep(fs, 15); SizeStep(fs, 16);
    assert fs[..17] == fs;
  }

  /** A header of the central directory. */
  ghost predicate CentralLayout(h: Octets, e: Entry) {
    && |h| == 46 + |e.name| && h[46..] == e.name
    && h[0..4] == [0x50, 0x4b, 0x01, 0x02]              // signature
    && U16(h, 4) == 0x0314 && U16(h, 6) == 20           // made by version 2.0 on Unix, version needed
    && U16(h, 8) == 0x0800 && U16(h, 10) == 8           // UTF-8 names, deflated
    && U16(h, 12) == 0 && U16(h, 14) == 0x2821          // midnight, 1 January 2000
    && U32(h, 16) == e.crc && U32(h, 20) == |e.compressed| && U32(h, 24) == |e.bytes| && U16(h, 28) == |e.name|
    && U16(h, 30) == 0 && U16(h, 32) == 0 && U16(h, 34) == 0 && U16(h, 36) == 0  // no extra field, no comment, disk 0, binary
    && U32(h, 38) == 0x81a4_0000                        // a regular file with mode 0644
    && U32(h, 42) == e.offset
  }

  lemma CentralFieldsFront(e: Entry, h: Octets)
    requires EntryFits(e) && h == CentralHeader(e)
    ensures |h| == 46 + |e.name| && h[46..] == e.name
    ensures U32(h, 0) == 0x02014b50 && U16(h, 4) == 0x0314 && U16(h, 6) == 20 && U16(h, 8) == 0x0800 && U16(h, 10) == 8
    ensures U16(h, 12) == 0 && U16(h, 14) == 0x2821 && U32(h, 16) == e.crc && U32(h, 20) == |e.compressed|
  {
    hide Size, Pack, U16, U32, Fits;
    var fs := CentralFields(e);
    CentralFieldsFit(e);
    CentralOffsets(e);
    CentralOffsetsBack(e);
    assert h[..46] == Pack(fs);
    FieldAt(fs, 0, h, 0);
    FieldAt(fs, 1, h, 4);
    FieldAt(fs, 2, h, 6);
    FieldAt(fs, 3, h, 8);
    FieldAt(fs, 4, h, 10);
    FieldAt(fs, 5, h, 12);
    FieldAt(fs, 6, h, 14);
    FieldAt(fs, 7, h, 16);
    FieldAt(fs, 8, h, 20);
  }

  lemma CentralFieldsBack(e: Entry, h: Octets)
    requires EntryFits(e) && h == CentralHeader(e)
    ensures |h| == 46 + |e.name|
    ensures U32(h, 24) == |e.bytes| && U16(h, 28) == |e.name|
    ensures U16(h, 30) == 0 && U16(h, 32) == 0 && U16(h, 34) == 0 && U16(h, 36) == 0
    ensures U32(h, 38) == 0x81a4_0000 && U32(h, 42) == e.offset
  {
    hide Size, Pack, U16, U32, Fits;
    var fs := CentralFields(e);
    CentralFieldsFit(e);
    CentralOffsets(e);
    CentralOffsetsBack(e);
    assert h[..46] == Pack(fs);
    FieldAt(fs, 9, h, 24);
    FieldAt(fs, 10, h, 28);
    FieldAt(fs, 11, h, 30);
    FieldAt(fs, 12, h, 32);
    FieldAt(fs, 13, h, 34);
    FieldAt(fs, 14, h, 36);
    FieldAt(fs, 15, h, 38);
    FieldAt(fs, 16, h, 42);
  }

  lemma CentralHeaderLayout(e: Entry)
    requires EntryFits(e)
    ensures CentralLayout(CentralHeader(e), e)
  {
    var h := CentralHeader(e);
    hide CentralHeader, U16, U32;
    CentralFieldsFront(e, h);
    CentralFieldsBack(e, h);
    OctetsOfFour(h, 0, 0x50, 0x4b, 0x01, 0x02);
  }

  /** The end record of an archive of `count` entries. */
  ghost predicate EndLayout(h: Octets, count: nat, size: nat, offset: nat) {
    && |h| == 22 && h[0..4] == [0x50, 0x4b, 0x05, 0x06]                 // signature
    && U16(h, 4) == 0 && U16(h, 6) == 0                                 // one disk
    && U16(h, 8) == count && U16(h, 10) == count && U32(h, 12) == size && U32(h, 16) == offset
    && U16(h, 20) == 0                                                  // no comment
  }

  lemma EndOffsets(count: int, size: int, offset: int)
    ensures var fs := EndFields(count, size, offset);
      && |fs| == 8 && Size(fs[..0]) == 0 && Size(fs[..1]) == 4 && Size(fs[..2]) == 6 && Size(fs[..3]) == 8 && Size(fs[..4]) == 10
      && Size(fs[..5]) == 12 && Size(fs[..6]) == 16 && Size(fs[..7]) == 20 && Size(fs) == 22
  {
    hide Size;
    var fs := EndFields(count, size, offset);
    EmptySize(fs);
    SizeStep(fs, 0); SizeStep(fs, 1); SizeStep(fs, 2); SizeStep(fs, 3); SizeStep(fs, 4); SizeStep(fs, 5);
    SizeStep(fs, 6); SizeStep(fs, 7);
    assert fs[..8] == fs;
  }

  lemma EndFieldsAt(count: nat, size: nat, offset: nat, h: Octets)
    requires AllFit(EndFields(count, size, offset)) && h == Pack(EndFields(count, size, offset))
    ensures |h| == 22 && U32(h, 0) == 0x06054b50 && U16(h, 4) == 0 && U16(h, 6) == 0
    ensures U16(h, 8) == count && U16(h, 10) == count && U32(h, 12) == size && U32(h, 16) == offset && U16(h, 20) == 0
  {
    hide Size, Pack, U16, U32, Fits;
    var fs := EndFields(count, size, offset);
    EndOffsets(count, size, offset);
    assert h[..22] == Pack(fs);
    FieldAt(fs, 0, h, 0);
    FieldAt(fs, 1, h, 4);
    FieldAt(fs, 2, h, 6);
    FieldAt(fs, 3, h, 8);
    FieldAt(fs, 4, h, 10);
    FieldAt(fs, 5, h, 12);
    FieldAt(fs, 6, h, 16);
    FieldAt(fs, 7, h, 20);
  }

  lemma EndRecordLayout(count: nat, size: nat, offset: nat)
    requires AllFit(EndFields(count, size, offset))
    ensures EndLayout(Pack(EndFields(count, size, offset)), count, size, offset)
  {
    var h := Pack(EndFields(count, size, offset));
    EndFieldsAt(count, size, offset, h);
    hide Pack, U16, U32, AllFit, EndFields;
    EndSignature(h);
  }

  lemma EndSignature(h: Octets)
    requires |h| >= 4 && U32(h, 0) == 0x06054b50
    ensures h[0..4] == [0x50, 0x4b, 0x05, 0x06]
  {
    hide U32;
    OctetsOfFour(h, 0, 0x50, 0x4b, 0x05, 0x06);
  }

  // ---------------------------------------------------------------- safe names

  /** n[i..j] lies between two slashes (47), or a slash and an end. */
  predicate IsSegment(n: Name, i: int, j: int) {
    && 0 <= i <= j <= |n| && (i == 0 || n[i - 1] == 47) && (j == |n| || n[j] == 47)
    && forall k | i <= k < j :: n[k] != 47
  }

  /** The first segment goes up to the first slash, and the others are those of the rest behind it. */
  lemma {:induction false} SegmentsParts(n: Name)
    ensures var first := Segments(n)[0];
      && |first| <= |n| && n[..|first|] == first && 47 !in first
      && if |first| == |n| then Segments(n) == [first]
         else n[|first|] == 47 && Segments(n) == [first] + Segments(n[|first| + 1..])
    decreases |n|
  {
    if n != [] {
      SegmentsParts(n[1..]);
      if n[0] != 47 {
        var first := Segments(n[1..])[0];
        assert n == [n[0]] + n[1..];
        assert Segments(n)[0] == [n[0]] + first;
        if |first| < |n[1..]| { assert n[1..][|first| + 1..] == n[|first| + 2..]; }
      }
    }
  }

  ghost predicate HasSegment(n: Name, s: Name) {
    exists i, j :: IsSegment(n, i, j) && n[i..j] == s
  }

  lemma OnlySegment(n: Name, s: Name)
    requires 47 !in n
    ensures HasSegment(n, s) <==> s == n
  {
    assert IsSegment(n, 0, |n|) && n[0..|n|] == n;
  }

  lemma FirstOrLater(n: Name, k: nat, s: Name)
    requires 0 < k <= |n| && n[k - 1] == 47 && 47 !in n[..k - 1]
    ensures HasSegment(n, s) <==> s == n[..k - 1] || HasSegment(n[k..], s)
  {
    assert forall q | 0 <= q < k - 1 :: n[q] == n[..k - 1][q];
    assert IsSegment(n, 0, k - 1) && n[0..k - 1] == n[..k - 1];
    if i, j :| IsSegment(n[k..], i, j) && n[k..][i..j] == s { assert IsSegment(n, i + k, j + k) && n[i + k..j + k] == s; }
    if i, j :| IsSegment(n, i, j) && n[i..j] == s {
      if i > 0 { LaterSegment(n, k, i, j); } else { assert j == k - 1; }
    }
  }

  /** The segments of a name are the stretches between its slashes. */
  lemma {:induction false} SegmentsAre(n: Name, s: Name)
    ensures s in Segments(n) <==> exists i, j :: IsSegment(n, i, j) && n[i..j] == s
    decreases |n|
  {
    SegmentsParts(n);
    hide Segments, IsSegment;
    var first := Segments(n)[0];
    if |first| < |n| {
      FirstOrLater(n, |first| + 1, s);
      SegmentsAre(n[|first| + 1..], s);
    } else {
      assert n[..|first|] == n;
      OnlySegment(n, s);
    }
  }

  lemma LaterSegment(n: Name, k: nat, i: int, j: int)
    requires 0 < k <= |n| && (forall q | 0 <= q < k - 1 :: n[q] != 47) && IsSegment(n, i, j) && i > 0
    ensures i >= k && IsSegment(n[k..], i - k, j - k) && n[k..][i - k..j - k] == n[i..j]
  { }

  /**
    A safe name: not empty, without a zero or a backslash (92), neither starting nor ending with
    a slash, without a drive letter and colon (58) in front, and with no segment that is empty,
    "." or ".." (46).
  */
  lemma SafeNameIff(n: Name)
    ensures SafeName(n) <==>
      && n != [] && 0 !in n && 92 !in n && n[0] != 47 && n[|n| - 1] != 47
      && !(|n| >= 2 && n[1] == 58 && (65 <= n[0] <= 90 || 97 <= n[0] <= 122))
      && forall i, j | IsSegment(n, i, j) :: n[i..j] != [] && n[i..j] != [46] && n[i..j] != [46, 46]
  {
    SegmentsAre(n, []);
    SegmentsAre(n, [46]);
    SegmentsAre(n, [46, 46]);
    hide Segments, IsSegment;
    assert (forall s | s in Segments(n) :: s != [] && s != [DOT] && s != [DOT, DOT]) <==>
      [] !in Segments(n) && [46] !in Segments(n) && [46, 46] !in Segments(n);
  }

  /** An ordinary name, "a.json" below a directory "b", is safe. */
  lemma OrdinaryNameIsSafe()
    ensures SafeName([98, 47, 97, 46, 106, 115, 111, 110])
  {
    var n: Name := [98, 47, 97, 46, 106, 115, 111, 110];
    SafeNameIff(n);
    forall i, j | IsSegment(n, i, j) ensures n[i..j] != [] && n[i..j] != [46] && n[i..j] != [46, 46] {
      if i == 0 { assert j == 1 && n[i..j] == [98]; } else { assert i == 2 && j == 8 && |n[i..j]| == 6; }
    }
  }

  // ---------------------------------------------------------------- the tests of the reader, in order

  // A test, and the error of an archive that fails it.
  type Test = (bool, ZipError)

  /** The first test that fails decides. */
  function Fault(tests: seq<Test>): Option<ZipError> {
    if tests == [] then None else if tests[0].0 then Fault(tests[1..]) else Some(tests[0].1)
  }

  /** What a central header at `at` must satisfy. */
  function CentralTests(b: Octets, at: nat, codec: Codec): seq<Test> {
    if at + 46 > |b| then [(false, BadCentral)]
    else
      var end := at + 46 + U16(b, at + 28);
      var name := b[at + 46..if end <= |b| then end else |b|];
      var mode := U32(b, at + 38) / 0x1_0000;
      [(U32(b, at) == 0x02014b50, BadCentral),
       (codec.encode(codec.text(name)) == name, NotUtf8),
       (SafeName(codec.text(name)), UnsafeEntry),
       (U16(b, at + 8) % 2 == 0, Encrypted),
       (U16(b, at + 10) in {0, 8}, BadMethod),
       (mode / 0x1000 % 0x10 != 0xa, Symlink),
       (mode % 0x200 == 0x1a4, BadMode)]
  }

  lemma FaultOf(tests: seq<Test>)
    requires tests != []
    ensures Fault(tests) == if tests[0].0 then Fault(tests[1..]) else Some(tests[0].1)
  { }

  /** A central header is read exactly if it passes these tests, and otherwise the first that fails is reported. */
  lemma ReadCentralIs(b: Octets, at: nat, codec: Codec)
    ensures match Fault(CentralTests(b, at, codec))
      case Some(error) => ReadCentral(b, at, codec) == Err(error)
      case None =>
        var n := U16(b, at + 28);
        var end := at + 46 + n;
        ReadCentral(b, at, codec) ==
          Ok((Central(codec.text(b[at + 46..if end <= |b| then end else |b|]), U16(b, at + 8), U16(b, at + 10), U32(b, at + 16),
                      U32(b, at + 20), U32(b, at + 24), U32(b, at + 42), U32(b, at + 38) / 0x1_0000),
              at + 46 + n + U16(b, at + 30) + U16(b, at + 32)))
  {
    hide U16, U32, SafeName;
    var tests := CentralTests(b, at, codec);
    FaultOf(tests);
    if |tests| > 1 {
      FaultOf(tests[1..]);
      FaultOf(tests[2..]);
      FaultOf(tests[3..]);
      FaultOf(tests[4..]);
      FaultOf(tests[5..]);
      FaultOf(tests[6..]);
    }
  }

  /** What the local header of a listed entry must satisfy: it is there, says what the central header says, and lies in the file. */
  function LocalTests(b: Octets, c: Central, codec: Codec): seq<Test> {
    var at := c.localOffset;
    if at + 30 > |b| then [(false, BadLocal)]
    else
      var end := at + 30 + U16(b, at + 26);
      [(U32(b, at) == 0x04034b50, BadLocal),
       (U16(b, at + 6) == c.flags && U16(b, at + 8) == c.method_, Contradiction),
       (U32(b, at + 14) == c.crc && U32(b, at + 18) == c.compressedSize && U32(b, at + 22) == c.uncompressedSize, Contradiction),
       (end + U16(b, at + 28) + U32(b, at + 18) <= |b|, Contradiction),
       (codec.text(b[at + 30..if end <= |b| then end else |b|]) == c.name, Contradiction)]
  }

  /** The stored octets of an entry, behind its local header, name and extra field. */
  function Stored(b: Octets, at: nat): Octets
    requires at + 30 <= |b|
  {
    var start := at + 30 + U16(b, at + 26) + U16(b, at + 28);
    var end := start + U32(b, at + 18);
    if end <= |b| then b[start..end] else []
  }

  /** Their content: as stored for method 0, inflated for method 8. */
  function Content(b: Octets, c: Central, codec: Codec): Option<Octets>
    requires c.localOffset + 30 <= |b|
  {
    if c.method_ == 0 then Some(Stored(b, c.localOffset))
    else if c.method_ == 8 then codec.inflate(Stored(b, c.localOffset))
    else None
  }

  /** An entry is decoded exactly if it passes these tests, inflates, and has the listed size and checksum. */
  lemma DecodeOneIs(b: Octets, c: Central, codec: Codec)
    ensures match Fault(LocalTests(b, c, codec))
      case Some(error) => DecodeOne(b, c, codec) == Err(error)
      case None =>
        && c.localOffset + 30 <= |b|
        && DecodeOne(b, c, codec) ==
             match Content(b, c, codec)
             case None => Err(CannotInflate)
             case Some(bytes) => if |bytes| == c.uncompressedSize && Crc32.Number(bytes) == c.crc then Ok(bytes) else Err(BadChecksum)
  {
    hide U16, U32, Crc32.Number;
    var tests := LocalTests(b, c, codec);
    FaultOf(tests);
    if |tests| > 1 {
      FaultOf(tests[1..]);
      FaultOf(tests[2..]);
      FaultOf(tests[3..]);
      FaultOf(tests[4..]);
    }
  }

  /** The end record is the last place with its signature among the last 65557 octets, and missing exactly if there is none. */
  lemma EndIs(b: Octets, at: nat)
    ensures FindEnd(b) == Ok(at) <==>
      && at + 22 <= |b| <= at + 65557 && U32(b, at) == 0x06054b50
      && forall k | at < k <= |b| - 22 :: U32(b, k) != 0x06054b50
    ensures FindEnd(b).Err? <==> forall k | 0 <= k <= |b| - 22 && |b| <= k + 65557 :: U32(b, k) != 0x06054b50
    ensures FindEnd(b).Err? ==> FindEnd(b) == Err(EndMissing)
  {
    hide U32;
    ScanEndIs(b, |b| - 22, if |b| < 65557 then 0 else |b| - 65557);
  }

  lemma {:induction false} ScanEndIs(b: Octets, at: int, minimum: nat)
    requires at + 22 <= |b|
    ensures ScanEnd(b, at, minimum).Err? <==> forall k | minimum <= k <= at :: U32(b, k) != 0x06054b50
    ensures ScanEnd(b, at, minimum).Err? ==> ScanEnd(b, at, minimum) == Err(EndMissing)
    decreases at + 1
  {
    hide U32;
    if at >= minimum && U32(b, at) != END_SIGNATURE { ScanEndIs(b, at - 1, minimum); }
  }

  /**
    The central directory is accepted exactly if an end record is there whose fields are not the
    ZIP64 marks, the headers it announces can be read one behind the other, they end where it
    says, and no two have the same name.
  */
  lemma CentralDirectoryIs(b: Octets, codec: Codec)
    ensures match FindEnd(b)
      case Err(error) => CentralDirectory(b, codec) == Err(error)
      case Ok(end) =>
        var count, size, offset := U16(b, end + 10), U32(b, end + 12), U32(b, end + 16);
        if count == 0xffff || size == 0xffff_ffff || offset == 0xffff_ffff then CentralDirectory(b, codec) == Err(Zip64)
        else
          match ReadCentrals(b, offset, count, codec)
          case Err(error) => CentralDirectory(b, codec) == Err(error)
          case Ok((cs, after)) =>
            CentralDirectory(b, codec) ==
              if after != offset + size then Err(BadCentralSize)
              else if exists i, j :: 0 <= i < j < |cs| && cs[i].name == cs[j].name then Err(DuplicateEntry)
              else Ok(cs)
  {
    hide FindEnd, ReadCentrals, U16, U32;
    forall cs: seq<Central> ensures Distinct(Names(cs)) <==> !exists i, j :: 0 <= i < j < |cs| && cs[i].name == cs[j].name {
      DistinctNames(cs);
    }
    hide Distinct, Names;
  }

  lemma DistinctNames(cs: seq<Central>)
    ensures Distinct(Names(cs)) <==> !exists i, j :: 0 <= i < j < |cs| && cs[i].name == cs[j].name
  {
    if i, j :| 0 <= i < j < |cs| && cs[i].name == cs[j].name { assert Names(cs)[i] == Names(cs)[j]; }
    if !Distinct(Names(cs)) {
      var i, j :| 0 <= i < j < |cs| && Names(cs)[i] == Names(cs)[j];
      assert cs[i].name == cs[j].name;
    }
  }
}
