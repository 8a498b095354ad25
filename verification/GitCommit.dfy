/**
  readCommitBlobs of scripts/release/exact-git-source.js as a whole: the size listing of
  Git's batch check is read first, and the sized entries then go through GitBlobs.
*/
module GitCommit {
  import opened Common
  import opened GitBlobs

  datatype TreeEntry = TreeEntry(file: string, objectId: Bytes)

  const MAX_SAFE_INTEGER: nat := 0x1f_ffff_ffff_ffff

  // ---------------------------------------------------------------- the listing

  /** White space of one byte in UTF-8: tab, line feed, vertical tab, form feed, carriage return and space. */
  predicate White(b: Byte) { 9 <= b <= 13 || b == SPACE }

  /** White space of two bytes: U+00A0. */
  predicate White2(c: Bytes) { c == [0xc2, 0xa0] }

  /** White space of three bytes: U+1680, U+2000 to U+200A, U+2028, U+2029, U+202F, U+205F, U+3000 and U+FEFF. */
  predicate White3(c: Bytes)
    requires |c| == 3
  {
    || c == [0xe1, 0x9a, 0x80]
    || (c[..2] == [0xe2, 0x80] && (0x80 <= c[2] <= 0x8a || c[2] in {0xa8, 0xa9, 0xaf}))
    || c in {[0xe2, 0x81, 0x9f], [0xe3, 0x80, 0x80], [0xef, 0xbb, 0xbf]}
  }

  /** The length of the white-space character at the end of a text, or 0. */
  function WhiteAtEnd(t: Bytes): (n: nat)
    ensures n <= |t|
  {
    if t == [] then 0
    else if White(t[|t| - 1]) then 1
    else if |t| > 1 && White2(t[|t| - 2..]) then 2
    else if |t| > 2 && White3(t[|t| - 3..]) then 3
    else 0
  }

  /** trimEnd of a text in UTF-8. */
  function TrimEnd(t: Bytes): Bytes {
    var n := WhiteAtEnd(t);
    if n == 0 then t else TrimEnd(t[..|t| - n])
  }

  /** The last character is of ASCII and not white. */
  predicate EndsPlain(t: Bytes) {
    t != [] && t[|t| - 1] < 0x80 && !White(t[|t| - 1])
  }

  lemma PlainIsNotTrimmed(t: Bytes)
    requires EndsPlain(t)
    ensures WhiteAtEnd(t) == 0
  {
    if |t| > 1 { assert t[|t| - 2..][1] == t[|t| - 1]; }
    if |t| > 2 { assert t[|t| - 3..][2] == t[|t| - 1]; }
  }

  /** Every white-space character of ECMAScript, in UTF-8. */
  const WHITE_SPACE: set<Bytes> := {
    [0x09], [0x0a], [0x0b], [0x0c], [0x0d], [0x20], [0xc2, 0xa0], [0xe1, 0x9a, 0x80],
    [0xe2, 0x80, 0x80], [0xe2, 0x80, 0x81], [0xe2, 0x80, 0x82], [0xe2, 0x80, 0x83], [0xe2, 0x80, 0x84], [0xe2, 0x80, 0x85],
    [0xe2, 0x80, 0x86], [0xe2, 0x80, 0x87], [0xe2, 0x80, 0x88], [0xe2, 0x80, 0x89], [0xe2, 0x80, 0x8a],
    [0xe2, 0x80, 0xa8], [0xe2, 0x80, 0xa9], [0xe2, 0x80, 0xaf], [0xe2, 0x81, 0x9f], [0xe3, 0x80, 0x80], [0xef, 0xbb, 0xbf]
  }

  predicate EndsWith(t: Bytes, w: Bytes) { |w| <= |t| && t[|t| - |w|..] == w }

  lemma WhiteIs(b: Byte)
    ensures White(b) <==> [b] in WHITE_SPACE
  { }

  lemma White2Is(c: Bytes)
    requires |c| == 2
    ensures White2(c) <==> c in WHITE_SPACE
  { }

  lemma White3Is(c: Bytes)
    requires |c| == 3
    ensures White3(c) <==> c in WHITE_SPACE
  {
    assert c == [c[0], c[1], c[2]] && c[..2] == [c[0], c[1]];
  }

  lemma WhiteSpaceIsShort(w: Bytes)
    requires w in WHITE_SPACE
    ensures 1 <= |w| <= 3 && (|w| > 1 ==> w[|w| - 1] >= 0x80) && (|w| == 2 ==> w[0] == 0xc2) && (|w| == 3 ==> w[1] != 0xc2)
  { }

  /** What is taken off is the white-space character at the end, if the text ends in one. */
  lemma WhiteAtEndIs(t: Bytes, w: Bytes)
    ensures var n := WhiteAtEnd(t); n > 0 ==> t[|t| - n..] in WHITE_SPACE
    ensures w in WHITE_SPACE && EndsWith(t, w) ==> WhiteAtEnd(t) == |w|
  {
    if t != [] {
      WhiteIs(t[|t| - 1]);
      assert t[|t| - 1..] == [t[|t| - 1]];
    }
    if |t| > 1 { White2Is(t[|t| - 2..]); }
    if |t| > 2 { White3Is(t[|t| - 3..]); }
    if w in WHITE_SPACE && EndsWith(t, w) {
      WhiteSpaceIsShort(w);
      assert t[|t| - 1] == w[|w| - 1];
      if |w| == 3 { assert t[|t| - 2] == w[1] && t[|t| - 2..][0] == w[1]; }
    }
    hide White, White2, White3, WHITE_SPACE;
  }

  lemma EndsInNoWhite(t: Bytes)
    requires WhiteAtEnd(t) == 0
    ensures forall w | w in WHITE_SPACE :: !EndsWith(t, w)
  {
    hide WhiteAtEnd, EndsWith, WHITE_SPACE;
    forall w | w in WHITE_SPACE ensures !EndsWith(t, w) {
      WhiteAtEndIs(t, w);
      WhiteSpaceIsShort(w);
    }
  }

  /** A text followed by white-space characters. */
  ghost predicate Trimmed(t: Bytes, body: Bytes, ws: seq<Bytes>) {
    t == body + Concatenated(ws) && forall w | w in ws :: w in WHITE_SPACE
  }

  lemma TrimmedMore(t: Bytes, n: nat, body: Bytes, ws: seq<Bytes>)
    requires n <= |t| && Trimmed(t[..|t| - n], body, ws) && t[|t| - n..] in WHITE_SPACE
    ensures Trimmed(t, body, ws + [t[|t| - n..]])
  {
    hide WHITE_SPACE;
    ConcatenatedLast(ws, t[|t| - n..]);
    assert t == t[..|t| - n] + t[|t| - n..];
    hide Concatenated;
  }

  /** trimEnd takes off white-space characters, one after the other, until none is left at the end. */
  lemma {:induction false} TrimEndIs(t: Bytes) returns (ws: seq<Bytes>)
    ensures Trimmed(t, TrimEnd(t), ws) && forall w | w in WHITE_SPACE :: !EndsWith(TrimEnd(t), w)
    decreases |t|
  {
    hide WhiteAtEnd, WHITE_SPACE, EndsWith;
    var n := WhiteAtEnd(t);
    if n == 0 {
      ws := [];
      EndsInNoWhite(t);
      assert t == t + [];
    } else {
      hide Trimmed;
      WhiteAtEndIs(t, []);
      ws := TrimEndIs(t[..|t| - n]);
      TrimmedMore(t, n, TrimEnd(t[..|t| - n]), ws);
      ws := ws + [t[|t| - n..]];
    }
  }

  function Concatenated(ws: seq<Bytes>): Bytes {
    if ws == [] then [] else Concatenated(ws[..|ws| - 1]) + ws[|ws| - 1]
  }

  lemma ConcatenatedLast(ws: seq<Bytes>, w: Bytes)
    ensures Concatenated(ws + [w]) == Concatenated(ws) + w
  {
    assert (ws + [w])[..|ws|] == ws;
  }

  /** One line of the listing: the identity of the entry, its type and a safe size. */
  function SizeOf(line: Bytes, e: TreeEntry, o: Outside): Result<Entry, Fault> {
    var fields := Fields(line);
    if fields[0] != e.objectId || |fields| < 2 || fields[1] != BLOB || |fields| < 3 then Err(Malformed(e.file))
    else
      var size := Number(fields[2], o);
      if size.None? || size.value < 0 || size.value > MAX_SAFE_INTEGER then Err(Malformed(e.file))
      else Ok(Entry(e.file, e.objectId, size.value))
  }

  /**
    A line of the listing is accepted exactly if it is the name of the entry, " blob " and the
    text of a whole number from 0 to 2^53 - 1, followed by nothing or by a space and anything;
    the size is then that number.
  */
  lemma SizeOfIff(line: Bytes, e: TreeEntry, o: Outside, size: nat)
    ensures SizeOf(line, e, o) == Ok(Entry(e.file, e.objectId, size)) <==>
      size <= 9007199254740991 && exists text, rest :: HeaderText(line, Entry(e.file, e.objectId, size), o, text, rest)
    ensures SizeOf(line, e, o).Ok? ==> SizeOf(line, e, o) == Ok(Entry(e.file, e.objectId, SizeOf(line, e, o).value.size))
    ensures SizeOf(line, e, o).Err? ==> SizeOf(line, e, o) == Err(Malformed(e.file))
  {
    HeaderMatchesIff(line, Entry(e.file, e.objectId, size), o);
    hide HeaderText, Fields, Number;
  }

  function SizesOf(lines: seq<Bytes>, entries: seq<TreeEntry>, o: Outside): Result<seq<Entry>, Fault>
    requires |lines| == |entries|
  {
    if entries == [] then Ok([])
    else
      var n := |entries| - 1;
      var earlier := SizesOf(lines[..n], entries[..n], o);
      if earlier.Err? then earlier
      else
        var last := SizeOf(lines[n], entries[n], o);
        if last.Err? then Err(last.error) else Ok(earlier.value + [last.value])
  }

  function ReadListing(listing: Bytes, entries: seq<TreeEntry>, o: Outside): Result<seq<Entry>, Fault> {
    var lines := Split(TrimEnd(listing), NEWLINE);
    if |lines| != |entries| then Err(Incomplete) else SizesOf(lines, entries, o)
  }

  /** The first line at fault decides. */
  lemma {:induction false} FirstLineDecides(lines: seq<Bytes>, entries: seq<TreeEntry>, i: nat, o: Outside)
    requires |lines| == |entries| && i <= |entries| && SizesOf(lines[..i], entries[..i], o).Err?
    ensures SizesOf(lines, entries, o) == SizesOf(lines[..i], entries[..i], o)
    decreases |entries|
  {
    hide SizeOf;
    if i == |entries| {
      assert lines[..i] == lines && entries[..i] == entries;
    } else {
      var n := |entries| - 1;
      assert lines[..n][..i] == lines[..i] && entries[..n][..i] == entries[..i];
      FirstLineDecides(lines[..n], entries[..n], i, o);
    }
  }

  /** The map over the entries, which throws at the first malformed line. */
  method ReadSizes(listing: Bytes, entries: seq<TreeEntry>, o: Outside) returns (r: Result<seq<Entry>, Fault>)
    ensures r == ReadListing(listing, entries, o)
  {
    hide SizeOf, Split, TrimEnd;
    var lines := Split(TrimEnd(listing), NEWLINE);
    if |lines| != |entries| {
      return Err(Incomplete);
    }
    var sized: seq<Entry> := [];
    for i := 0 to |entries|
      invariant SizesOf(lines[..i], entries[..i], o) == Ok(sized)
    {
      assert lines[..i + 1][..i] == lines[..i] && entries[..i + 1][..i] == entries[..i];
      var one := SizeOf(lines[i], entries[i], o);
      if one.Err? {
        FirstLineDecides(lines, entries, i + 1, o);
        return Err(one.error);
      }
      sized := sized + [one.value];
    }
    assert lines[..|entries|] == lines && entries[..|entries|] == entries;
    return Ok(sized);
  }

  /** The sized entries are the entries, in order. */
  ghost predicate SizedAs(sized: seq<Entry>, entries: seq<TreeEntry>) {
    |sized| == |entries|
    && forall i | 0 <= i < |entries| ::
      sized[i].file == entries[i].file && sized[i].objectId == entries[i].objectId && sized[i].size <= MAX_SAFE_INTEGER
  }

  lemma {:induction false} SizesAreOfEntries(lines: seq<Bytes>, entries: seq<TreeEntry>, o: Outside)
    requires |lines| == |entries| && SizesOf(lines, entries, o).Ok?
    ensures SizedAs(SizesOf(lines, entries, o).value, entries)
    decreases |entries|
  {
    if entries != [] {
      var n := |entries| - 1;
      SizesAreOfEntries(lines[..n], entries[..n], o);
    }
  }

  // ---------------------------------------------------------------- a genuine listing

  function Sized(entries: seq<TreeEntry>, store: Bytes -> Bytes): seq<Entry> {
    if entries == [] then []
    else
      var n := |entries| - 1;
      Sized(entries[..n], store) + [Entry(entries[n].file, entries[n].objectId, |store(entries[n].objectId)|)]
  }

  function Line(e: TreeEntry, store: Bytes -> Bytes): Bytes {
    GitHeader(Entry(e.file, e.objectId, |store(e.objectId)|))
  }

  function Lines(entries: seq<TreeEntry>, store: Bytes -> Bytes): seq<Bytes> {
    if entries == [] then [] else [Line(entries[0], store)] + Lines(entries[1..], store)
  }

  /** Git's listing: each line ended by a newline. */
  function Listing(lines: seq<Bytes>): Bytes {
    if lines == [] then [] else lines[0] + [NEWLINE] + Listing(lines[1..])
  }

  /** Lines without newlines, the last of which ends in a plain character. */
  ghost predicate PlainLines(lines: seq<Bytes>) {
    && lines != []
    && (forall l | l in lines :: NEWLINE !in l)
    && EndsPlain(lines[|lines| - 1])
  }

  lemma ListingFrom(lines: seq<Bytes>)
    requires lines != []
    ensures Listing(lines) == lines[0] + [NEWLINE] + Listing(lines[1..])
    ensures lines[1..] == [] ==> Listing(lines) == lines[0] + [NEWLINE]
  { }

  /** Trimming takes away just the last newline, and splitting gives the lines back. */
  ghost predicate Trims(lines: seq<Bytes>, t: Bytes) {
    EndsPlain(t) && Listing(lines) == t + [NEWLINE] && Split(t, NEWLINE) == lines
  }

  lemma {:induction false} TrimmedLines(lines: seq<Bytes>) returns (t: Bytes)
    requires PlainLines(lines)
    ensures Trims(lines, t)
  {
    hide Listing, Split, White;
    var first, rest := lines[0], lines[1..];
    ListingFrom(lines);
    assert first in lines;
    if rest == [] {
      t := first;
      SplitWord(first, NEWLINE);
    } else {
      assert forall l :: l in rest ==> l in lines;
      assert rest[|rest| - 1] == lines[|lines| - 1];
      var u := TrimmedLines(rest);
      t := first + [NEWLINE] + u;
      SplitAfterWord(first, u, NEWLINE);
      assert Listing(lines) == t + [NEWLINE];
      assert lines == [first] + rest;
    }
  }

  lemma TrimmedListing(lines: seq<Bytes>)
    requires PlainLines(lines)
    ensures Split(TrimEnd(Listing(lines)), NEWLINE) == lines
  {
    var t := TrimmedLines(lines);
    TrimOnce(t);
    hide Split, Listing, TrimEnd;
  }

  lemma TrimOnce(t: Bytes)
    requires EndsPlain(t)
    ensures TrimEnd(t + [NEWLINE]) == t
  {
    assert (t + [NEWLINE])[..|t|] == t;
    assert WhiteAtEnd(t + [NEWLINE]) == 1;
    PlainIsNotTrimmed(t);
    hide WhiteAtEnd;
  }

  /** The entries' identities are words, and the stored objects have them and are of safe size. */
  ghost predicate InStore(entries: seq<TreeEntry>, store: Bytes -> Bytes, o: Outside) {
    forall e | e in entries ::
      && SPACE !in e.objectId && NEWLINE !in e.objectId
      && |store(e.objectId)| <= MAX_SAFE_INTEGER && BlobId(store(e.objectId), o) == e.objectId
  }

  lemma DigitsEndPlain(t: Bytes, d: Bytes)
    requires Digits(d)
    ensures EndsPlain(t + d)
  {
    assert (t + d)[|t + d| - 1] == d[|d| - 1] && d[|d| - 1] in d;
  }

  lemma LineEnds(e: Entry)
    requires SPACE !in e.objectId && NEWLINE !in e.objectId
    ensures NEWLINE !in GitHeader(e) && EndsPlain(GitHeader(e))
    ensures Fields(GitHeader(e)) == [e.objectId, BLOB, Decimal(e.size)] && Digits(Decimal(e.size))
    ensures DecimalValue(Decimal(e.size)) == e.size
  {
    var d := Decimal(e.size);
    DecimalRoundTrip(e.size);
    hide Decimal, DecimalValue, Fields, EndsPlain;
    DigitsArePlain(d);
    GitFields(e);
    GitHeaderPlain(e);
    DigitsEndPlain(e.objectId + [SPACE] + BLOB + [SPACE], d);
    hide Digits;
  }

  lemma GenuineLine(e: TreeEntry, store: Bytes -> Bytes, o: Outside)
    requires SPACE !in e.objectId && NEWLINE !in e.objectId && |store(e.objectId)| <= MAX_SAFE_INTEGER
    ensures SizeOf(Line(e, store), e, o) == Ok(Entry(e.file, e.objectId, |store(e.objectId)|))
    ensures NEWLINE !in Line(e, store) && EndsPlain(Line(e, store))
  {
    LineEnds(Entry(e.file, e.objectId, |store(e.objectId)|));
    hide Decimal, DecimalValue, Fields, Digits, GitHeader, EndsPlain;
  }

  lemma {:induction false} GenuineLines(entries: seq<TreeEntry>, store: Bytes -> Bytes, o: Outside)
    requires InStore(entries, store, o)
    ensures |Lines(entries, store)| == |entries|
    ensures forall i | 0 <= i < |entries| :: Lines(entries, store)[i] == Line(entries[i], store)
    ensures entries != [] ==> PlainLines(Lines(entries, store))
  {
    hide Line, BlobId;
    if entries != [] {
      GenuineLines(entries[1..], store, o);
      assert entries[0] in entries;
      GenuineLine(entries[0], store, o);
      hide SizeOf;
      var lines := Lines(entries, store);
      assert forall l :: l in lines <==> l == lines[0] || l in lines[1..];
    }
  }

  lemma {:induction false} GenuineSizes(lines: seq<Bytes>, entries: seq<TreeEntry>, store: Bytes -> Bytes, o: Outside)
    requires InStore(entries, store, o) && |lines| == |entries| && forall i | 0 <= i < |entries| :: lines[i] == Line(entries[i], store)
    ensures SizesOf(lines, entries, o) == Ok(Sized(entries, store))
    decreases |entries|
  {
    hide Line, BlobId, SizeOf;
    if entries != [] {
      var n := |entries| - 1;
      GenuineSizes(lines[..n], entries[..n], store, o);
      GenuineLine(entries[n], store, o);
    }
  }

  /** A genuine listing is read as exactly the stored sizes. */
  lemma ListingIsRead(entries: seq<TreeEntry>, store: Bytes -> Bytes, o: Outside)
    requires InStore(entries, store, o) && entries != []
    ensures ReadListing(Listing(Lines(entries, store)), entries, o) == Ok(Sized(entries, store))
  {
    GenuineLines(entries, store, o);
    TrimmedListing(Lines(entries, store));
    GenuineSizes(Lines(entries, store), entries, store, o);
  }

  // ---------------------------------------------------------------- the whole reader

  function StoredContents(entries: seq<TreeEntry>, store: Bytes -> Bytes): seq<Bytes> {
    if entries == [] then [] else StoredContents(entries[..|entries| - 1], store) + [store(entries[|entries| - 1].objectId)]
  }

  lemma {:induction false} SizedIsStored(entries: seq<TreeEntry>, store: Bytes -> Bytes, limit: nat, o: Outside)
    requires InStore(entries, store, o)
    ensures Stored(Sized(entries, store), store, o) && Contents(Sized(entries, store), store) == StoredContents(entries, store)
    ensures (forall e | e in entries :: |store(e.objectId)| <= limit) ==> Fits(Sized(entries, store), limit)
    decreases |entries|
  {
    hide BlobId;
    if entries != [] {
      var n := |entries| - 1;
      SizedIsStored(entries[..n], store, limit, o);
      var last := Entry(entries[n].file, entries[n].objectId, |store(entries[n].objectId)|);
      assert entries[n] in entries && [last][1..] == [];
      ContentsAppend(Sized(entries[..n], store), [last], store);
      assert Contents([last], store) == [store(last.objectId)];
    }
  }

  /** Git answers both requests from a store that has the entries. */
  ghost predicate Honest(entries: seq<TreeEntry>, check: seq<Bytes> -> Bytes, git: seq<Bytes> -> Bytes, store: Bytes -> Bytes, o: Outside) {
    && InStore(entries, store, o)
    && (forall ids :: check(ids) == CheckAnswer(ids, store))
    && forall ids :: git(ids) == Response(ids, store)
  }

  /** What Git answers to the size request: for each object named, its name, "blob", its size in decimal, and a newline. */
  function CheckAnswer(ids: seq<Bytes>, store: Bytes -> Bytes): Bytes {
    if ids == [] then []
    else
      ids[0] + [0x20, 0x62, 0x6c, 0x6f, 0x62, 0x20] + Decimal(|store(ids[0])|) + [0x0a] + CheckAnswer(ids[1..], store)
  }

  function ObjectIds(entries: seq<TreeEntry>): seq<Bytes> {
    if entries == [] then [] else [entries[0].objectId] + ObjectIds(entries[1..])
  }

  /** The answer to a request for the entries is their listing. */
  lemma {:induction false} EntriesAreAnswered(entries: seq<TreeEntry>, store: Bytes -> Bytes)
    ensures CheckAnswer(ObjectIds(entries), store) == Listing(Lines(entries, store))
  {
    if entries != [] {
      EntriesAreAnswered(entries[1..], store);
      AnswerFrom(entries, store);
      LineBytes(entries[0], store);
      ListingFrom(Lines(entries, store));
      assert Lines(entries, store)[1..] == Lines(entries[1..], store);
      hide Line, CheckAnswer, Decimal;
    }
  }

  lemma AnswerFrom(entries: seq<TreeEntry>, store: Bytes -> Bytes)
    requires entries != []
    ensures CheckAnswer(ObjectIds(entries), store) ==
      entries[0].objectId + [0x20, 0x62, 0x6c, 0x6f, 0x62, 0x20] + Decimal(|store(entries[0].objectId)|) + [0x0a]
      + CheckAnswer(ObjectIds(entries[1..]), store)
  {
    hide Decimal;
    assert ObjectIds(entries)[1..] == ObjectIds(entries[1..]);
  }

  lemma LineBytes(e: TreeEntry, store: Bytes -> Bytes)
    ensures Line(e, store) + [NEWLINE] ==
      e.objectId + [0x20, 0x62, 0x6c, 0x6f, 0x62, 0x20] + Decimal(|store(e.objectId)|) + [0x0a]
  {
    hide Decimal;
  }

  /**
    All blobs of a commit.  Whatever Git answers, an accepted result has one blob for each
    entry, in order and with its identity, none over the limit; and when Git answers from a
    store that has the entries, the result is exactly the stored contents unless one is over the limit.
  */
  method ReadCommitBlobs(entries: seq<TreeEntry>, limit: nat, check: seq<Bytes> -> Bytes, git: seq<Bytes> -> Bytes, o: Outside,
                         ghost store: Bytes -> Bytes)
    returns (r: Result<seq<Bytes>, Fault>)
    ensures r.Ok? ==> |r.value| == |entries|
    ensures r.Ok? ==> forall i | 0 <= i < |entries| :: BlobId(r.value[i], o) == entries[i].objectId && |r.value[i]| <= limit
    ensures Honest(entries, check, git, store, o) && (forall e | e in entries :: |store(e.objectId)| <= limit)
      ==> r == Ok(StoredContents(entries, store))
  {
    hide BlobId, InStore, Stored, Contents, Response, ReadListing;
    if entries == [] {
      return Ok([]);
    }
    var sized := ReadSizes(check(ObjectIds(entries)), entries, o);
    if Honest(entries, check, git, store, o) {
      EntriesAreAnswered(entries, store);
      ListingIsRead(entries, store, o);
      SizedIsStored(entries, store, limit, o);
    }
    if sized.Err? {
      return Err(sized.error);
    }
    ListingIsOfEntries(check(ObjectIds(entries)), entries, o);
    r := ReadBlobs(sized.value, limit, git, o, store);
  }

  lemma ListingIsOfEntries(listing: Bytes, entries: seq<TreeEntry>, o: Outside)
    requires ReadListing(listing, entries, o).Ok?
    ensures SizedAs(ReadListing(listing, entries, o).value, entries)
  {
    SizesAreOfEntries(Split(TrimEnd(listing), NEWLINE), entries, o);
  }
}
