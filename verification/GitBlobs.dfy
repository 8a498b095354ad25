/**
  Reading the blobs of a reviewed commit in scripts/release/exact-git-source.js: the
  bounded split into batches, and the decoding of Git's batch output.  Git, the SHA-1
  function and the number syntax beyond plain digits are parameters.
*/
module GitBlobs {
  import opened Common

  datatype Entry = Entry(file: string, objectId: Bytes, size: nat)

  datatype Fault =
    | Incomplete
    | Malformed(file: string)
    | Oversized(file: string)
    | TruncatedHeader(file: string)
    | Inconsistent(file: string)
    | TruncatedBytes(file: string)
    | WrongIdentity(file: string)
    | Trailing

  // ---------------------------------------------------------------- batches

  function Total(entries: seq<Entry>): nat {
    if entries == [] then 0 else Total(entries[..|entries| - 1]) + entries[|entries| - 1].size
  }

  function Flatten(batches: seq<seq<Entry>>): seq<Entry> {
    if batches == [] then [] else batches[0] + Flatten(batches[1..])
  }

  ghost predicate Within(batches: seq<seq<Entry>>, limit: nat) {
    forall b | b in batches :: Total(b) <= limit
  }

  /** No batch has room for the first entry of the next one. */
  ghost predicate Tight(batches: seq<seq<Entry>>, limit: nat) {
    && (forall k | 0 <= k < |batches| :: batches[k] != [])
    && forall k | 0 < k < |batches| :: Total(batches[k - 1]) + batches[k][0].size > limit
  }

  lemma {:induction false} TotalSplits(a: seq<Entry>, b: seq<Entry>)
    ensures Total(a + b) == Total(a) + Total(b)
  {
    if b == [] {
      assert a + b == a;
    } else {
      TotalSplits(a, b[..|b| - 1]);
      assert (a + b)[..|a + b| - 1] == a + b[..|b| - 1];
    }
  }

  lemma TotalOfOne(e: Entry)
    ensures Total([e]) == e.size
  {
    assert [e][..0] == [];
  }

  lemma TotalOfSlice(entries: seq<Entry>, i: nat, j: nat)
    requires i <= j <= |entries|
    ensures Total(entries[i..j]) <= Total(entries)
  {
    hide Total;
    assert entries == entries[..i] + (entries[i..j] + entries[j..]);
    TotalSplits(entries[..i], entries[i..j] + entries[j..]);
    TotalSplits(entries[i..j], entries[j..]);
  }

  lemma {:induction false} FlattenAppend(batches: seq<seq<Entry>>, b: seq<Entry>)
    ensures Flatten(batches + [b]) == Flatten(batches) + b
  {
    if batches == [] {
      assert batches + [b] == [b] && [b][1..] == [];
    } else {
      FlattenAppend(batches[1..], b);
      assert (batches + [b])[1..] == batches[1..] + [b];
    }
  }

  /** A batch that reached past the first tight batch of a suffix would be over the limit. */
  lemma StaysAhead(b: seq<Entry>, x: seq<Entry>, t: seq<Entry>, y: seq<Entry>, limit: nat)
    requires |b + x| <= |t + y| && b + x == (t + y)[|t + y| - |b + x|..]
    requires Total(t) <= limit && (x != [] ==> Total(b) + x[0].size > limit)
    ensures |x| <= |y|
    ensures |x| <= |y| ==> x == y[|y| - |x|..]
  {
    hide Total;
    var whole, d := t + y, |t + y| - |b + x|;
    if |x| > |y| {
      TotalOfOne(x[0]);
      TotalSplits(b, [x[0]]);
      assert t[d..d + |b| + 1] == whole[d..][..|b| + 1] == b + [x[0]];
      TotalOfSlice(t, d, d + |b| + 1);
    } else {
      assert y[|y| - |x|..] == whole[|whole| - |x|..] == whole[d..][|b|..] == x;
    }
  }

  lemma TightTail(tight: seq<seq<Entry>>, limit: nat)
    requires Tight(tight, limit) && tight != []
    ensures Tight(tight[1..], limit)
    ensures Flatten(tight[1..]) != [] ==> Total(tight[0]) + Flatten(tight[1..])[0].size > limit
  {
    hide Total;
    forall k | 0 < k < |tight[1..]| ensures Total(tight[1..][k - 1]) + tight[1..][k][0].size > limit {
      assert Total(tight[k]) + tight[k + 1][0].size > limit;
    }
  }

  /** A tight split of a suffix needs no more batches than any split of the whole. */
  lemma {:induction false} TightIsFewest(tight: seq<seq<Entry>>, other: seq<seq<Entry>>, limit: nat)
    requires Tight(tight, limit) && Within(other, limit)
    requires |Flatten(tight)| <= |Flatten(other)|
    requires Flatten(tight) == Flatten(other)[|Flatten(other)| - |Flatten(tight)|..]
    ensures |tight| <= |other|
  {
    hide Total;
    if tight != [] && other != [] {
      TightTail(tight, limit);
      hide Tight;
      StaysAhead(tight[0], Flatten(tight[1..]), other[0], Flatten(other[1..]), limit);
      TightIsFewest(tight[1..], other[1..], limit);
    }
  }

  ghost predicate Fits(entries: seq<Entry>, limit: nat) {
    forall i | 0 <= i < |entries| :: entries[i].size <= limit
  }

  /** The first entry that does not fit. */
  ghost predicate FirstOversized(entries: seq<Entry>, i: nat, limit: nat) {
    i < |entries| && entries[i].size > limit && Fits(entries[..i], limit)
  }

  /** What the greedy loop has built after reading some entries; an empty current batch means no batch at all. */
  ghost predicate Greedy(batches: seq<seq<Entry>>, current: seq<Entry>, entries: seq<Entry>, limit: nat) {
    && (current == [] ==> batches == [])
    && var split := if current == [] then [] else batches + [current];
    && Flatten(split) == entries
    && Within(split, limit)
    && Tight(split, limit)
  }

  lemma WithinAppend(batches: seq<seq<Entry>>, b: seq<Entry>, limit: nat)
    ensures Within(batches + [b], limit) <==> Within(batches, limit) && Total(b) <= limit
  {
    hide Total;
    assert forall x :: x in batches + [b] <==> x in batches || x == b;
  }

  lemma TightJoins(batches: seq<seq<Entry>>, current: seq<Entry>, e: Entry, limit: nat)
    requires current == [] ==> batches == []
    requires current != [] ==> Tight(batches + [current], limit)
    ensures Tight(batches + [current + [e]], limit)
  {
    hide Total;
    var was: seq<seq<Entry>>, now: seq<seq<Entry>> := batches + [current], batches + [current + [e]];
    forall k | 0 <= k < |now| ensures now[k] != [] {
      if k < |batches| { assert now[k] == was[k]; }
    }
    forall k | 0 < k < |now| ensures Total(now[k - 1]) + now[k][0].size > limit {
      assert now[k - 1] == was[k - 1] && now[k][0] == was[k][0];
    }
  }

  lemma TightStarts(batches: seq<seq<Entry>>, e: Entry, limit: nat)
    requires batches != [] && Tight(batches, limit) && Total(batches[|batches| - 1]) + e.size > limit
    ensures Tight(batches + [[e]], limit)
  {
    hide Total;
  }

  /** The entry joins the current batch. */
  lemma GreedyJoins(batches: seq<seq<Entry>>, current: seq<Entry>, entries: seq<Entry>, e: Entry, limit: nat)
    requires Greedy(batches, current, entries, limit) && Total(current) + e.size <= limit
    ensures Greedy(batches, current + [e], entries + [e], limit) && Total(current + [e]) == Total(current) + e.size
  {
    assert (current + [e])[..|current|] == current;
    FlattenAppend(batches, current);
    FlattenAppend(batches, current + [e]);
    TightJoins(batches, current, e, limit);
    WithinAppend(batches, current, limit);
    WithinAppend(batches, current + [e], limit);
    assert current == [] ==> Within(batches, limit);
    hide Total, Tight, Within;
    assert current == [] ==> Flatten(batches) == [];
    assert Flatten(batches) + (current + [e]) == entries + [e];
  }

  /** The entry starts a batch, because the current one has no room. */
  lemma GreedyStarts(batches: seq<seq<Entry>>, current: seq<Entry>, entries: seq<Entry>, e: Entry, limit: nat)
    requires Greedy(batches, current, entries, limit) && current != [] && Total(current) + e.size > limit && e.size <= limit
    ensures Greedy(batches + [current], [e], entries + [e], limit) && Total([e]) == e.size
  {
    assert [e][..0] == [];
    FlattenAppend(batches + [current], [e]);
    TightStarts(batches + [current], e, limit);
    WithinAppend(batches + [current], [e], limit);
  }

  /** The greedy loop: order preserved, no batch over the limit, and fewest batches of all such splits. */
  method SplitIntoBatches(entries: seq<Entry>, limit: nat) returns (r: Result<seq<seq<Entry>>, Fault>)
    ensures r.Ok? <==> Fits(entries, limit)
    ensures r.Err? ==> exists i: nat :: FirstOversized(entries, i, limit) && r.error == Oversized(entries[i].file)
    ensures r.Ok? ==> Flatten(r.value) == entries && Within(r.value, limit) && forall b | b in r.value :: b != []
    ensures r.Ok? ==> forall other: seq<seq<Entry>> | Flatten(other) == entries && Within(other, limit) :: |r.value| <= |other|
  {
    hide Total, Flatten, Tight, Within, Greedy;
    var batches: seq<seq<Entry>> := [];
    var current: seq<Entry> := [];
    var currentBytes := 0;
    NothingIsGreedy(limit);
    for i := 0 to |entries|
      invariant Fits(entries[..i], limit)
      invariant currentBytes == Total(current)
      invariant Greedy(batches, current, entries[..i], limit)
    {
      var entry := entries[i];
      if entry.size > limit {
        assert FirstOversized(entries, i, limit);
        return Err(Oversized(entry.file));
      }
      assert entries[..i + 1] == entries[..i] + [entry];
      if |current| > 0 && currentBytes + entry.size > limit {
        GreedyStarts(batches, current, entries[..i], entry, limit);
        batches := batches + [current];
        current := [];
        currentBytes := 0;
        assert [] + [entry] == [entry];
      } else {
        EmptyTotal(current);
        GreedyJoins(batches, current, entries[..i], entry, limit);
      }
      current := current + [entry];
      currentBytes := currentBytes + entry.size;
    }
    assert entries[..|entries|] == entries;
    GreedyIsFewest(batches, current, entries, limit);
    if |current| > 0 {
      batches := batches + [current];
    }
    return Ok(batches);
  }

  lemma NothingIsGreedy(limit: nat)
    ensures Greedy([], [], [], limit) && Total([]) == 0
  { }

  lemma EmptyTotal(current: seq<Entry>)
    ensures |current| == 0 ==> Total(current) == 0
  { }

  lemma GreedyIsFewest(batches: seq<seq<Entry>>, current: seq<Entry>, entries: seq<Entry>, limit: nat)
    requires Greedy(batches, current, entries, limit)
    ensures var split := if |current| > 0 then batches + [current] else batches;
      && Flatten(split) == entries && Within(split, limit) && (forall b | b in split :: b != [])
      && forall other: seq<seq<Entry>> | Flatten(other) == entries && Within(other, limit) :: |split| <= |other|
  {
    var split := if |current| > 0 then batches + [current] else batches;
    forall other: seq<seq<Entry>> | Flatten(other) == entries && Within(other, limit) ensures |split| <= |other| {
      TightIsFewest(split, other, limit);
    }
  }

  // ---------------------------------------------------------------- Git's batch output

  const NEWLINE: Byte := 0x0a
  const SPACE: Byte := 0x20
  const BLOB: Bytes := [0x62, 0x6c, 0x6f, 0x62]

  /** The size of a blob in decimal. */
  function Decimal(n: nat): Bytes {
    (if n < 10 then [] else Decimal(n / 10)) + [0x30 + n % 10]
  }

  predicate Digits(t: Bytes) {
    t != [] && forall i | 0 <= i < |t| :: 0x30 <= t[i] <= 0x39
  }

  function DecimalValue(t: Bytes): nat
    requires t == [] || Digits(t)
  {
    if t == [] then 0 else 10 * DecimalValue(t[..|t| - 1]) + (t[|t| - 1] - 0x30)
  }

  lemma DecimalValueAppend(t: Bytes, d: Byte)
    requires (t == [] || Digits(t)) && 0x30 <= d <= 0x39
    ensures Digits(t + [d]) && DecimalValue(t + [d]) == 10 * DecimalValue(t) + (d - 0x30)
  {
    assert (t + [d])[..|t|] == t;
  }

  lemma {:induction false} DecimalRoundTrip(n: nat)
    ensures Digits(Decimal(n)) && DecimalValue(Decimal(n)) == n
  {
    if n >= 10 { DecimalRoundTrip(n / 10); }
    var front: Bytes, d: Byte := if n < 10 then [] else Decimal(n / 10), 0x30 + n % 10;
    assert Decimal(n) == front + [d];
    hide Decimal, Digits, DecimalValue;
    DecimalValueAppend(front, d);
    assert DecimalValue(front) == n / 10 by { EmptyIsZero(); }
  }

  lemma EmptyIsZero()
    ensures DecimalValue([]) == 0
  { }

  /** split on a separator. */
  function Split(t: Bytes, separator: Byte): (r: seq<Bytes>)
    ensures |r| > 0
  {
    if t == [] then [[]]
    else
      var rest := Split(t[1..], separator);
      if t[0] == separator then [[]] + rest else [[t[0]] + rest[0]] + rest[1..]
  }

  lemma {:induction false} SplitWord(word: Bytes, separator: Byte)
    requires separator !in word
    ensures Split(word, separator) == [word]
  {
    if word != [] {
      SplitWord(word[1..], separator);
      assert word == [word[0]] + word[1..] && word[0] != separator;
    }
  }

  lemma {:induction false} SplitAfterWord(word: Bytes, rest: Bytes, separator: Byte)
    requires separator !in word
    ensures Split(word + [separator] + rest, separator) == [word] + Split(rest, separator)
  {
    var all := word + [separator] + rest;
    if word == [] {
      assert all[1..] == rest;
    } else {
      SplitAfterWord(word[1..], rest, separator);
      assert all[1..] == word[1..] + [separator] + rest && all[0] == word[0] != separator;
      assert word == [word[0]] + word[1..];
    }
  }

  function Fields(header: Bytes): (r: seq<Bytes>)
    ensures |r| > 0
  {
    Split(header, SPACE)
  }

  // number is what Number answers on text that is not plain digits.
  datatype Outside = Outside(sha1: Bytes -> Bytes, number: Bytes -> Option<int>)

  function Number(t: Bytes, o: Outside): Option<int> {
    if Digits(t) then Some(DecimalValue(t)) else o.number(t)
  }

  predicate HeaderMatches(header: Bytes, e: Entry, o: Outside) {
    var fields := Fields(header);
    && fields[0] == e.objectId
    && |fields| > 1 && fields[1] == BLOB
    && |fields| > 2 && Number(fields[2], o) == Some(e.size)
  }

  /** The identity Git gives to a blob. */
  function BlobId(content: Bytes, o: Outside): Bytes {
    o.sha1(BLOB + [SPACE] + Decimal(|content|) + [0] + content)
  }

  /** indexOf a newline from a position; the length if there is none. */
  function NewlineFrom(out: Bytes, at: nat): (k: nat)
    requires at <= |out|
    ensures at <= k <= |out| && NEWLINE !in out[at..k] && (k < |out| ==> out[k] == NEWLINE)
    decreases |out| - at
  {
    if at == |out| || out[at] == NEWLINE then at else NewlineFrom(out, at + 1)
  }

  /** One framed blob at an offset, and the offset after it. */
  function DecodeOne(e: Entry, out: Bytes, offset: nat, o: Outside): (r: Result<(Bytes, nat), Fault>)
    requires offset <= |out|
    ensures r.Ok? ==> r.value.1 <= |out|
  {
    var headerEnd := NewlineFrom(out, offset);
    if headerEnd == |out| then Err(TruncatedHeader(e.file))
    else if !HeaderMatches(out[offset..headerEnd], e, o) then Err(Inconsistent(e.file))
    else
      var contentEnd := headerEnd + 1 + e.size;
      if contentEnd >= |out| || out[contentEnd] != NEWLINE then Err(TruncatedBytes(e.file))
      else
        var content := out[headerEnd + 1..contentEnd];
        if BlobId(content, o) != e.objectId then Err(WrongIdentity(e.file))
        else Ok((content, contentEnd + 1))
  }

  function DecodeFrom(batch: seq<Entry>, out: Bytes, offset: nat, o: Outside): Result<seq<Bytes>, Fault>
    requires offset <= |out|
  {
    if batch == [] then (if offset != |out| then Err(Trailing) else Ok([]))
    else
      var one := DecodeOne(batch[0], out, offset, o);
      if one.Err? then Err(one.error)
      else
        var rest := DecodeFrom(batch[1..], out, one.value.1, o);
        if rest.Err? then rest else Ok([one.value.0] + rest.value)
  }

  /** Headers and contents in Git's framing. */
  function Framed(headers: seq<Bytes>, contents: seq<Bytes>): Bytes
    requires |headers| == |contents|
  {
    if headers == [] then []
    else headers[0] + [NEWLINE] + contents[0] + [NEWLINE] + Framed(headers[1..], contents[1..])
  }

  ghost predicate Genuine(batch: seq<Entry>, headers: seq<Bytes>, contents: seq<Bytes>, o: Outside) {
    && |headers| == |contents| == |batch|
    && forall i | 0 <= i < |batch| ::
      && NEWLINE !in headers[i] && HeaderMatches(headers[i], batch[i], o)
      && |contents[i]| == batch[i].size && BlobId(contents[i], o) == batch[i].objectId
  }

  lemma NewlineIs(out: Bytes, at: nat, header: Bytes, tail: Bytes)
    requires at <= |out| && out[at..] == header + [NEWLINE] + tail && NEWLINE !in header
    ensures NewlineFrom(out, at) == at + |header|
  {
    assert out[at + |header|] == out[at..][|header|] == NEWLINE;
    assert forall i | 0 <= i < |header| :: out[at + i] == out[at..][i] == header[i];
    NewlineIsFirst(out, at, at + |header|);
  }

  lemma {:induction false} NewlineIsFirst(out: Bytes, at: nat, k: nat)
    requires at <= k < |out| && out[k] == NEWLINE && forall i | at <= i < k :: out[i] != NEWLINE
    ensures NewlineFrom(out, at) == k
    decreases k - at
  {
    if at < k { NewlineIsFirst(out, at + 1, k); }
  }

  lemma GenuineDecodesOne(e: Entry, out: Bytes, offset: nat, header: Bytes, content: Bytes, tail: Bytes, o: Outside)
    requires offset <= |out| && out[offset..] == header + [NEWLINE] + content + [NEWLINE] + tail
    requires NEWLINE !in header && HeaderMatches(header, e, o) && |content| == e.size && BlobId(content, o) == e.objectId
    ensures DecodeOne(e, out, offset, o) == Ok((content, |out| - |tail|))
  {
    var all := header + [NEWLINE] + content + [NEWLINE] + tail;
    assert all == header + [NEWLINE] + (content + [NEWLINE] + tail);
    NewlineIs(out, offset, header, content + [NEWLINE] + tail);
    var h := offset + |header|;
    assert out[offset..h] == all[..|header|] == header;
    assert out[h + 1..h + 1 + e.size] == all[|header| + 1..|header| + 1 + |content|] == content;
    assert out[h + 1 + e.size] == all[|header| + 1 + |content|] == NEWLINE;
    assert |out| == offset + |all|;
  }

  lemma FramedFrom(headers: seq<Bytes>, contents: seq<Bytes>)
    requires |headers| == |contents| > 0
    ensures Framed(headers, contents) == headers[0] + [NEWLINE] + contents[0] + [NEWLINE] + Framed(headers[1..], contents[1..])
  { }

  lemma TailOf(out: Bytes, offset: nat, front: Bytes, tail: Bytes)
    requires offset <= |out| && out[offset..] == front + tail
    ensures |out| - |tail| >= 0 && out[|out| - |tail|..] == tail
  {
    var next := |out| - |tail|;
    assert next == offset + |front|;
    assert out[next..] == out[offset..][next - offset..];
  }

  lemma GenuineParts(batch: seq<Entry>, headers: seq<Bytes>, contents: seq<Bytes>, o: Outside)
    requires Genuine(batch, headers, contents, o) && batch != []
    ensures |headers| == |contents| == |batch| && NEWLINE !in headers[0] && HeaderMatches(headers[0], batch[0], o)
    ensures |contents[0]| == batch[0].size && BlobId(contents[0], o) == batch[0].objectId
    ensures Genuine(batch[1..], headers[1..], contents[1..], o)
  {
    hide HeaderMatches, BlobId;
  }

  lemma DecodeJoins(batch: seq<Entry>, out: Bytes, offset: nat, next: nat, content: Bytes, rest: seq<Bytes>, o: Outside)
    requires batch != [] && offset <= |out| && next <= |out| && DecodeOne(batch[0], out, offset, o) == Ok((content, next))
    requires DecodeFrom(batch[1..], out, next, o) == Ok(rest)
    ensures DecodeFrom(batch, out, offset, o) == Ok([content] + rest)
  {
    hide DecodeOne;
  }

  /** A genuine response decodes to exactly its contents, whatever newlines they contain. */
  lemma {:induction false} GenuineDecodes(batch: seq<Entry>, headers: seq<Bytes>, contents: seq<Bytes>, out: Bytes, offset: nat, o: Outside)
    requires Genuine(batch, headers, contents, o) && offset <= |out| && out[offset..] == Framed(headers, contents)
    ensures DecodeFrom(batch, out, offset, o) == Ok(contents)
    decreases |batch|
  {
    if batch != [] {
      hide *;
      GenuineParts(batch, headers, contents, o);
      var tail := Framed(headers[1..], contents[1..]);
      FramedFrom(headers, contents);
      GenuineDecodesOne(batch[0], out, offset, headers[0], contents[0], tail, o);
      TailOf(out, offset, headers[0] + [NEWLINE] + contents[0] + [NEWLINE], tail);
      var next := |out| - |tail|;
      GenuineDecodes(batch[1..], headers[1..], contents[1..], out, next, o);
      DecodeJoins(batch, out, offset, next, contents[0], contents[1..], o);
      assert contents == [contents[0]] + contents[1..];
    } else {
      hide HeaderMatches, BlobId, DecodeOne;
    }
  }

  lemma DecodedOneIsGenuine(e: Entry, out: Bytes, offset: nat, o: Outside) returns (header: Bytes)
    requires offset <= |out| && DecodeOne(e, out, offset, o).Ok?
    ensures var (content, next) := DecodeOne(e, out, offset, o).value;
      && out[offset..] == header + [NEWLINE] + content + [NEWLINE] + out[next..]
      && NEWLINE !in header && HeaderMatches(header, e, o) && |content| == e.size && BlobId(content, o) == e.objectId
  {
    var k := NewlineFrom(out, offset);
    header := out[offset..k];
    var content := out[k + 1..k + 1 + e.size];
    hide HeaderMatches, BlobId, NewlineFrom;
    assert [out[k]] == [NEWLINE] == [out[k + 1 + e.size]];
    assert out[offset..] == header + [out[k]] + content + [out[k + 1 + e.size]] + out[k + 1 + e.size + 1..];
  }

  /** What decodes is a genuine response with those contents and nothing after it. */
  lemma {:induction false} DecodedIsGenuine(batch: seq<Entry>, out: Bytes, offset: nat, o: Outside) returns (headers: seq<Bytes>)
    requires offset <= |out| && DecodeFrom(batch, out, offset, o).Ok?
    ensures Genuine(batch, headers, DecodeFrom(batch, out, offset, o).value, o)
    ensures out[offset..] == Framed(headers, DecodeFrom(batch, out, offset, o).value)
    decreases |batch|
  {
    hide HeaderMatches, BlobId, NewlineFrom;
    if batch == [] {
      headers := [];
    } else {
      var header := DecodedOneIsGenuine(batch[0], out, offset, o);
      hide DecodeOne;
      var one := DecodeOne(batch[0], out, offset, o).value;
      var rest := DecodedIsGenuine(batch[1..], out, one.1, o);
      headers := [header] + rest;
      var contents := DecodeFrom(batch, out, offset, o).value;
      assert headers[1..] == rest && contents[1..] == DecodeFrom(batch[1..], out, one.1, o).value;
    }
  }

  lemma {:induction false} GenuineLength(batch: seq<Entry>, headers: seq<Bytes>, contents: seq<Bytes>, out: Bytes, extra: Bytes,
                                         offset: nat, o: Outside)
    requires Genuine(batch, headers, contents, o) && offset <= |out| && out[offset..] == Framed(headers, contents) && extra != []
    ensures DecodeFrom(batch, out + extra, offset, o) == Err(Trailing)
    decreases |batch|
  {
    if batch != [] {
      hide *;
      GenuineParts(batch, headers, contents, o);
      var tail := Framed(headers[1..], contents[1..]);
      FramedFrom(headers, contents);
      var front := headers[0] + [NEWLINE] + contents[0] + [NEWLINE];
      assert (out + extra)[offset..] == out[offset..] + extra == front + (tail + extra);
      GenuineDecodesOne(batch[0], out + extra, offset, headers[0], contents[0], tail + extra, o);
      TailOf(out, offset, front, tail);
      var next := |out| - |tail|;
      GenuineLength(batch[1..], headers[1..], contents[1..], out, extra, next, o);
      DecodeFails(batch, out + extra, offset, next, contents[0], o);
    } else {
      hide HeaderMatches, BlobId, DecodeOne;
    }
  }

  lemma DecodeFails(batch: seq<Entry>, out: Bytes, offset: nat, next: nat, content: Bytes, o: Outside)
    requires batch != [] && offset <= |out| && next <= |out| && DecodeOne(batch[0], out, offset, o) == Ok((content, next))
    requires DecodeFrom(batch[1..], out, next, o) == Err(Trailing)
    ensures DecodeFrom(batch, out, offset, o) == Err(Trailing)
  {
    hide DecodeOne;
  }

  /** An accepted response followed by anything is rejected. */
  lemma LeftoverIsRejected(batch: seq<Entry>, out: Bytes, extra: Bytes, o: Outside)
    requires DecodeFrom(batch, out, 0, o).Ok? && extra != []
    ensures DecodeFrom(batch, out + extra, 0, o) == Err(Trailing)
  {
    var headers := DecodedIsGenuine(batch, out, 0, o);
    GenuineLength(batch, headers, DecodeFrom(batch, out, 0, o).value, out, extra, 0, o);
  }

  /** The header Git prints for an entry. */
  function GitHeader(e: Entry): Bytes {
    e.objectId + [SPACE] + BLOB + [SPACE] + Decimal(e.size)
  }

  lemma DigitsArePlain(t: Bytes)
    requires Digits(t)
    ensures SPACE !in t && NEWLINE !in t
  { }

  lemma GitFields(e: Entry)
    requires SPACE !in e.objectId && SPACE !in Decimal(e.size)
    ensures Fields(GitHeader(e)) == [e.objectId, BLOB, Decimal(e.size)]
  {
    var d := Decimal(e.size);
    hide Decimal, Split;
    assert GitHeader(e) == e.objectId + [SPACE] + (BLOB + [SPACE] + d);
    SplitAfterWord(e.objectId, BLOB + [SPACE] + d, SPACE);
    SplitAfterWord(BLOB, d, SPACE);
    SplitWord(d, SPACE);
  }

  lemma GitHeaderMatches(e: Entry, o: Outside)
    requires SPACE !in e.objectId && NEWLINE !in e.objectId
    ensures HeaderMatches(GitHeader(e), e, o) && NEWLINE !in GitHeader(e)
  {
    DecimalRoundTrip(e.size);
    DigitsArePlain(Decimal(e.size));
    GitFields(e);
    hide Decimal, Digits, DecimalValue, Fields;
    var fields := Fields(GitHeader(e));
    assert fields == [e.objectId, BLOB, Decimal(e.size)];
    hide GitHeader;
    assert HeaderMatches(GitHeader(e), e, o);
    hide HeaderMatches;
    GitHeaderPlain(e);
  }

  lemma GitHeaderPlain(e: Entry)
    requires NEWLINE !in e.objectId && NEWLINE !in Decimal(e.size)
    ensures NEWLINE !in GitHeader(e)
  {
    hide Decimal;
  }

  /** Splitting takes off the first word and the separator behind it. */
  lemma {:induction false} SplitParts(t: Bytes, separator: Byte) returns (rest: Bytes)
    ensures var fields := Split(t, separator);
      && fields != [] && separator !in fields[0]
      && if |fields| == 1 then t == fields[0]
         else t == fields[0] + [separator] + rest && Split(rest, separator) == fields[1..]
    decreases |t|
  {
    if t == [] {
      rest := [];
    } else if t[0] == separator {
      rest := t[1..];
    } else {
      rest := SplitParts(t[1..], separator);
      assert t == [t[0]] + t[1..];
    }
  }

  /** The words of a header: it begins with `word` exactly if that word is followed by a space or by nothing. */
  lemma FirstWordIs(header: Bytes, word: Bytes, rest: Bytes)
    requires 0x20 !in word && header == word + rest && (rest == [] || rest[0] == 0x20)
    ensures Fields(header) == if rest == [] then [word] else [word] + Fields(rest[1..])
  {
    hide Split;
    if rest == [] {
      assert header == word;
      SplitWord(word, SPACE);
    } else {
      assert header == word + [SPACE] + rest[1..];
      SplitAfterWord(word, rest[1..], SPACE);
    }
  }

  predicate PlainDigits(t: Bytes) {
    t != [] && forall b | b in t :: b in {0x30, 0x31, 0x32, 0x33, 0x34, 0x35, 0x36, 0x37, 0x38, 0x39}
  }

  /** The size field is plain digits, 0x30 to 0x39, read as a decimal number; any other text goes to the number syntax outside. */
  lemma NumberIs(t: Bytes, o: Outside)
    ensures PlainDigits(t) ==> Digits(t) && Number(t, o) == Some(DecimalValue(t))
    ensures !PlainDigits(t) ==> Number(t, o) == o.number(t)
  {
    hide DecimalValue;
    if PlainDigits(t) {
      forall i | 0 <= i < |t| ensures 0x30 <= t[i] <= 0x39 { assert t[i] in t; }
    }
    if Digits(t) {
      forall b | b in t ensures b in {0x30, 0x31, 0x32, 0x33, 0x34, 0x35, 0x36, 0x37, 0x38, 0x39} { }
    }
  }

  /** The name, " blob " and a text that reads as the size, followed by nothing or by a space and anything. */
  ghost predicate HeaderText(header: Bytes, e: Entry, o: Outside, size: Bytes, rest: Bytes) {
    && 0x20 !in e.objectId && 0x20 !in size && (rest == [] || rest[0] == 0x20)
    && header == e.objectId + [0x20, 0x62, 0x6c, 0x6f, 0x62, 0x20] + size + rest && Number(size, o) == Some(e.size)
  }

  /** A header matches an entry exactly if it has that text. */
  lemma HeaderMatchesIff(header: Bytes, e: Entry, o: Outside)
    ensures HeaderMatches(header, e, o) <==> exists size, rest :: HeaderText(header, e, o, size, rest)
  {
    hide Number, Split;
    if HeaderMatches(header, e, o) {
      var afterName := SplitParts(header, SPACE);
      var afterType := SplitParts(afterName, SPACE);
      var afterSize := SplitParts(afterType, SPACE);
      var fields := Fields(header);
      var rest := if |fields| == 3 then [] else [SPACE] + afterSize;
      assert Split(afterName, SPACE)[0] == BLOB && Split(afterType, SPACE)[0] == fields[2];
      assert header == e.objectId + [0x20, 0x62, 0x6c, 0x6f, 0x62, 0x20] + fields[2] + rest;
      assert HeaderText(header, e, o, fields[2], rest);
    }
    if size, rest :| HeaderText(header, e, o, size, rest) {
      var afterType := size + rest;
      var afterName := BLOB + ([SPACE] + afterType);
      assert header == e.objectId + ([SPACE] + afterName);
      assert ([SPACE] + afterName)[1..] == afterName && ([SPACE] + afterType)[1..] == afterType;
      FirstWordIs(header, e.objectId, [SPACE] + afterName);
      FirstWordIs(afterName, BLOB, [SPACE] + afterType);
      FirstWordIs(afterType, size, rest);
      hide Fields;
    }
  }

  /**
    One framed blob, byte by byte: the object's name, " blob ", its size in decimal, a newline,
    the content and a newline.  It decodes to the content exactly if the SHA-1 of "blob ", the
    size, a zero byte and the content is the name.
  */
  lemma FramedBlobDecodes(e: Entry, content: Bytes, tail: Bytes, o: Outside)
    requires 0x20 !in e.objectId && 0x0a !in e.objectId && |content| == e.size
    ensures var out := e.objectId + [0x20, 0x62, 0x6c, 0x6f, 0x62, 0x20] + Decimal(|content|) + [0x0a] + content + [0x0a] + tail;
      DecodeOne(e, out, 0, o) ==
        if o.sha1([0x62, 0x6c, 0x6f, 0x62, 0x20] + Decimal(|content|) + [0] + content) == e.objectId
        then Ok((content, |out| - |tail|)) else Err(WrongIdentity(e.file))
  {
    var header := GitHeader(e);
    var out := header + [0x0a] + content + [0x0a] + tail;
    var literal := e.objectId + [0x20, 0x62, 0x6c, 0x6f, 0x62, 0x20] + Decimal(|content|) + [0x0a] + content + [0x0a] + tail;
    HeaderBytes(e);
    assert out == literal;
    GitHeaderMatches(e, o);
    assert BlobId(content, o) == o.sha1([0x62, 0x6c, 0x6f, 0x62, 0x20] + Decimal(|content|) + [0] + content) by {
      assert BLOB + [SPACE] == [0x62, 0x6c, 0x6f, 0x62, 0x20];
    }
    hide Decimal, GitHeader, HeaderMatches, BlobId;
    assert out[0..] == out;
    FramedDecodes(e, out, header, content, tail, o);
  }

  lemma HeaderBytes(e: Entry)
    ensures GitHeader(e) == e.objectId + [0x20, 0x62, 0x6c, 0x6f, 0x62, 0x20] + Decimal(e.size)
  {
    hide Decimal;
  }

  lemma FramedDecodes(e: Entry, out: Bytes, header: Bytes, content: Bytes, tail: Bytes, o: Outside)
    requires out == header + [NEWLINE] + content + [NEWLINE] + tail
    requires NEWLINE !in header && HeaderMatches(header, e, o) && |content| == e.size
    ensures DecodeOne(e, out, 0, o) ==
      if BlobId(content, o) == e.objectId then Ok((content, |out| - |tail|)) else Err(WrongIdentity(e.file))
  {
    hide HeaderMatches, BlobId;
    assert out[0..] == header + [NEWLINE] + (content + [NEWLINE] + tail);
    NewlineIs(out, 0, header, content + [NEWLINE] + tail);
    var h := |header|;
    assert out[0..h] == header && out[h + 1..h + 1 + e.size] == content && out[h + 1 + e.size] == NEWLINE;
  }

  // ---------------------------------------------------------------- the reader

  function Prepend(blobs: seq<Bytes>, r: Result<seq<Bytes>, Fault>): Result<seq<Bytes>, Fault> {
    if r.Err? then r else Ok(blobs + r.value)
  }

  lemma PrependLaws(blobs: seq<Bytes>, content: Bytes, r: Result<seq<Bytes>, Fault>)
    ensures Prepend([], r) == r
    ensures Prepend(blobs + [content], r) == Prepend(blobs, Prepend([content], r))
  {
    if r.Ok? { assert blobs + [content] + r.value == blobs + ([content] + r.value); }
    if r.Ok? { assert [] + r.value == r.value; }
  }

  lemma DecodeStep(batch: seq<Entry>, i: nat, out: Bytes, offset: nat, o: Outside)
    requires i < |batch| && offset <= |out|
    ensures var one, now := DecodeOne(batch[i], out, offset, o), DecodeFrom(batch[i..], out, offset, o);
      now == if one.Err? then Err(one.error) else Prepend([one.value.0], DecodeFrom(batch[i + 1..], out, one.value.1, o))
  {
    assert batch[i..][0] == batch[i] && batch[i..][1..] == batch[i + 1..];
  }

  lemma DecodeEnd(out: Bytes, offset: nat, o: Outside)
    requires offset <= |out|
    ensures DecodeFrom([], out, offset, o) == if offset != |out| then Err(Trailing) else Ok([])
  { }

  /** The decoding loop over one batch. */
  method DecodeBatch(batch: seq<Entry>, out: Bytes, o: Outside) returns (r: Result<seq<Bytes>, Fault>)
    ensures r == DecodeFrom(batch, out, 0, o)
  {
    hide DecodeOne, DecodeFrom;
    var blobs: seq<Bytes> := [];
    var offset: nat := 0;
    assert batch[0..] == batch;
    PrependLaws([], [], DecodeFrom(batch, out, 0, o));
    for i := 0 to |batch|
      invariant offset <= |out|
      invariant DecodeFrom(batch, out, 0, o) == Prepend(blobs, DecodeFrom(batch[i..], out, offset, o))
    {
      DecodeStep(batch, i, out, offset, o);
      var one := DecodeOne(batch[i], out, offset, o);
      if one.Err? {
        return Err(one.error);
      }
      PrependLaws(blobs, one.value.0, DecodeFrom(batch[i + 1..], out, one.value.1, o));
      blobs := blobs + [one.value.0];
      offset := one.value.1;
    }
    assert batch[|batch|..] == [];
    DecodeEnd(out, offset, o);
    if offset != |out| {
      return Err(Trailing);
    }
    assert blobs + [] == blobs;
    return Ok(blobs);
  }

  function Ids(batch: seq<Entry>): seq<Bytes> {
    if batch == [] then [] else [batch[0].objectId] + Ids(batch[1..])
  }

  /** What Git answers from an object store. */
  function Response(ids: seq<Bytes>, store: Bytes -> Bytes): Bytes {
    if ids == [] then []
    else
      ids[0] + [SPACE] + BLOB + [SPACE] + Decimal(|store(ids[0])|) + [NEWLINE]
      + store(ids[0]) + [NEWLINE] + Response(ids[1..], store)
  }

  function Contents(batch: seq<Entry>, store: Bytes -> Bytes): seq<Bytes> {
    if batch == [] then [] else [store(batch[0].objectId)] + Contents(batch[1..], store)
  }

  /** Entries whose sizes and identities are those of the stored objects. */
  ghost predicate Stored(batch: seq<Entry>, store: Bytes -> Bytes, o: Outside) {
    forall e | e in batch ::
      && SPACE !in e.objectId && NEWLINE !in e.objectId
      && e.size == |store(e.objectId)| && BlobId(store(e.objectId), o) == e.objectId
  }

  function Headers(batch: seq<Entry>): seq<Bytes> {
    if batch == [] then [] else [GitHeader(batch[0])] + Headers(batch[1..])
  }

  lemma GenuineGrows(batch: seq<Entry>, headers: seq<Bytes>, contents: seq<Bytes>, e: Entry, header: Bytes, content: Bytes, o: Outside)
    requires Genuine(batch, headers, contents, o) && NEWLINE !in header && HeaderMatches(header, e, o)
    requires |content| == e.size && BlobId(content, o) == e.objectId
    ensures Genuine([e] + batch, [header] + headers, [content] + contents, o)
  {
    hide HeaderMatches, BlobId;
  }

  lemma FramedGrows(headers: seq<Bytes>, contents: seq<Bytes>, header: Bytes, content: Bytes)
    requires |headers| == |contents|
    ensures Framed([header] + headers, [content] + contents) == header + [NEWLINE] + content + [NEWLINE] + Framed(headers, contents)
  {
    assert ([header] + headers)[1..] == headers && ([content] + contents)[1..] == contents;
  }

  lemma ResponseFrom(ids: seq<Bytes>, store: Bytes -> Bytes, e: Entry)
    requires ids != [] && ids[0] == e.objectId && e.size == |store(e.objectId)|
    ensures Response(ids, store) == GitHeader(e) + [NEWLINE] + store(e.objectId) + [NEWLINE] + Response(ids[1..], store)
  {
    hide Decimal;
  }

  lemma IdsFrom(batch: seq<Entry>, store: Bytes -> Bytes)
    requires batch != []
    ensures Ids(batch) == [batch[0].objectId] + Ids(batch[1..]) && Ids(batch)[1..] == Ids(batch[1..])
    ensures Headers(batch) == [GitHeader(batch[0])] + Headers(batch[1..])
    ensures Contents(batch, store) == [store(batch[0].objectId)] + Contents(batch[1..], store)
  {
    hide GitHeader;
    assert Ids(batch)[1..] == Ids(batch[1..]);
  }

  lemma StoredFrom(batch: seq<Entry>, store: Bytes -> Bytes, o: Outside)
    requires Stored(batch, store, o) && batch != []
    ensures var e := batch[0];
      && SPACE !in e.objectId && NEWLINE !in e.objectId
      && e.size == |store(e.objectId)| && BlobId(store(e.objectId), o) == e.objectId
    ensures Stored(batch[1..], store, o)
  {
    hide BlobId;
    assert batch[0] in batch;
  }

  lemma {:induction false} ResponseIsGenuine(batch: seq<Entry>, store: Bytes -> Bytes, o: Outside)
    requires Stored(batch, store, o)
    ensures Genuine(batch, Headers(batch), Contents(batch, store), o)
    ensures Framed(Headers(batch), Contents(batch, store)) == Response(Ids(batch), store)
  {
    if batch != [] {
      hide *;
      var e, header := batch[0], GitHeader(batch[0]);
      StoredFrom(batch, store, o);
      ResponseIsGenuine(batch[1..], store, o);
      GitHeaderMatches(e, o);
      IdsFrom(batch, store);
      var headers, contents := Headers(batch[1..]), Contents(batch[1..], store);
      GenuineGrows(batch[1..], headers, contents, e, header, store(e.objectId), o);
      assert batch == [e] + batch[1..];
      GenuineCounts(batch[1..], headers, contents, o);
      FramedGrows(headers, contents, header, store(e.objectId));
      ResponseFrom(Ids(batch), store, e);
    } else {
      hide HeaderMatches, BlobId;
    }
  }

  lemma GenuineCounts(batch: seq<Entry>, headers: seq<Bytes>, contents: seq<Bytes>, o: Outside)
    requires Genuine(batch, headers, contents, o)
    ensures |headers| == |contents|
  {
    hide HeaderMatches, BlobId;
  }

  lemma {:induction false} ContentsAppend(a: seq<Entry>, b: seq<Entry>, store: Bytes -> Bytes)
    ensures Contents(a + b, store) == Contents(a, store) + Contents(b, store)
  {
    if a == [] {
      assert a + b == b;
    } else {
      hide *;
      var whole := a + b;
      assert whole[1..] == a[1..] + b && whole[0] == a[0];
      IdsFrom(whole, store);
      IdsFrom(a, store);
      ContentsAppend(a[1..], b, store);
    }
  }

  /** Each blob has the size and the identity of its entry, in order. */
  ghost predicate Identified(entries: seq<Entry>, blobs: seq<Bytes>, o: Outside) {
    && |blobs| == |entries|
    && forall i | 0 <= i < |entries| :: |blobs[i]| == entries[i].size && BlobId(blobs[i], o) == entries[i].objectId
  }

  lemma DecodedIsIdentified(batch: seq<Entry>, out: Bytes, o: Outside)
    requires DecodeFrom(batch, out, 0, o).Ok?
    ensures Identified(batch, DecodeFrom(batch, out, 0, o).value, o)
  {
    var headers := DecodedIsGenuine(batch, out, 0, o);
  }

  lemma StoredDecodes(batch: seq<Entry>, store: Bytes -> Bytes, o: Outside)
    requires Stored(batch, store, o)
    ensures DecodeFrom(batch, Response(Ids(batch), store), 0, o) == Ok(Contents(batch, store))
  {
    ResponseIsGenuine(batch, store, o);
    var out := Response(Ids(batch), store);
    assert out[0..] == out;
    GenuineDecodes(batch, Headers(batch), Contents(batch, store), out, 0, o);
  }

  lemma FlattenPrefix(batches: seq<seq<Entry>>, i: nat)
    requires i < |batches|
    ensures Flatten(batches[..i + 1]) == Flatten(batches[..i]) + batches[i]
  {
    assert batches[..i + 1] == batches[..i] + [batches[i]];
    FlattenAppend(batches[..i], batches[i]);
  }

  lemma {:induction false} FlattenMembers(batches: seq<seq<Entry>>, b: seq<Entry>, e: Entry)
    requires b in batches && e in b
    ensures e in Flatten(batches)
  {
    if batches[0] != b { FlattenMembers(batches[1..], b, e); }
  }

  lemma IdentifiedAppend(a: seq<Entry>, b: seq<Entry>, xs: seq<Bytes>, ys: seq<Bytes>, o: Outside)
    requires Identified(a, xs, o) && Identified(b, ys, o)
    ensures Identified(a + b, xs + ys, o)
  { }

  /** Git's answers come from a store that has the entries. */
  ghost predicate Faithful(entries: seq<Entry>, git: seq<Bytes> -> Bytes, store: Bytes -> Bytes, o: Outside) {
    Stored(entries, store, o) && forall ids :: git(ids) == Response(ids, store)
  }

  lemma FaithfulBatch(entries: seq<Entry>, batches: seq<seq<Entry>>, i: nat, git: seq<Bytes> -> Bytes,
                      store: Bytes -> Bytes, o: Outside)
    requires i < |batches| && Flatten(batches) == entries && Faithful(entries, git, store, o)
    ensures DecodeFrom(batches[i], git(Ids(batches[i])), 0, o) == Ok(Contents(batches[i], store))
  {
    hide BlobId, DecodeFrom;
    forall e | e in batches[i] ensures e in entries { FlattenMembers(batches, batches[i], e); }
    StoredDecodes(batches[i], store, o);
  }

  /**
    All blobs of the entries, whose sizes Git has given.  Whatever Git answers, an accepted
    result has each entry's size and identity in order; and when Git answers from a store
    that has them, the result is exactly the stored contents unless a blob is over the limit.
  */
  method ReadBlobs(entries: seq<Entry>, limit: nat, git: seq<Bytes> -> Bytes, o: Outside,
                         ghost store: Bytes -> Bytes)
    returns (r: Result<seq<Bytes>, Fault>)
    ensures r.Ok? ==> Fits(entries, limit) && Identified(entries, r.value, o)
    ensures Faithful(entries, git, store, o) && Fits(entries, limit) ==> r == Ok(Contents(entries, store))
  {
    hide DecodeFrom, Fits, Identified, Faithful, Contents, Flatten, Within;
    var split := SplitIntoBatches(entries, limit);
    if split.Err? {
      return Err(split.error);
    }
    var batches := split.value;
    var blobs: seq<Bytes> := [];
    NothingRead(store, o);
    assert batches[..0] == [];
    for i := 0 to |batches|
      invariant Identified(Flatten(batches[..i]), blobs, o)
      invariant Faithful(entries, git, store, o) ==> blobs == Contents(Flatten(batches[..i]), store)
    {
      var output := git(Ids(batches[i]));
      var decoded := DecodeBatch(batches[i], output, o);
      if Faithful(entries, git, store, o) { FaithfulBatch(entries, batches, i, git, store, o); }
      if decoded.Err? {
        return Err(decoded.error);
      }
      DecodedIsIdentified(batches[i], output, o);
      FlattenPrefix(batches, i);
      IdentifiedAppend(Flatten(batches[..i]), batches[i], blobs, decoded.value, o);
      ContentsAppend(Flatten(batches[..i]), batches[i], store);
      blobs := blobs + decoded.value;
    }
    assert batches[..|batches|] == batches;
    return Ok(blobs);
  }

  lemma NothingRead(store: Bytes -> Bytes, o: Outside)
    ensures Flatten([]) == [] && Identified([], [], o) && Contents([], store) == []
  { }
}
