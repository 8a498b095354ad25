/**
  The comment and string masker of scripts/ci/rust-raw-authority-policy.js against a
  lexer that reads one character at a time.  A character is a UTF-16 code unit, and
  offsets count code units, as in the source.
*/
module MaskNonCode {
  type Unit = x: int | 0 <= x < 0x1_0000

  type Text = seq<Unit>

  const NEWLINE: Unit := 10
  const SPACE: Unit := 32
  const QUOTE: Unit := 34
  const APOSTROPHE: Unit := 39
  const STAR: Unit := 42
  const SLASH: Unit := 47
  const BACKSLASH: Unit := 92

  // ---------------------------------------------------------------- the lexer

  /** The four states, and the second character of a two-character mark that leads to one. */
  datatype State =
    | Code
    | LineComment
    | BlockComment
    | Quoted(quote: Unit, escaped: bool)
    | Second(of: State)

  predicate OpensLine(s: Text, i: nat)
    requires i < |s|
  {
    i + 1 < |s| && s[i] == SLASH && s[i + 1] == SLASH
  }

  predicate OpensBlock(s: Text, i: nat)
    requires i < |s|
  {
    i + 1 < |s| && s[i] == SLASH && s[i + 1] == STAR
  }

  predicate ClosesBlock(s: Text, i: nat)
    requires i < |s|
  {
    i + 1 < |s| && s[i] == STAR && s[i + 1] == SLASH
  }

  predicate OpensQuote(s: Text, i: nat)
    requires i < |s|
  {
    s[i] == QUOTE || s[i] == APOSTROPHE
  }

  /** The state after the character at i. */
  function Step(s: Text, i: nat, state: State): State
    requires i < |s|
  {
    match state
    case Code =>
      if OpensLine(s, i) then Second(LineComment)
      else if OpensBlock(s, i) then Second(BlockComment)
      else if OpensQuote(s, i) then Quoted(s[i], false)
      else Code
    case LineComment => if s[i] == NEWLINE then Code else LineComment
    case BlockComment => if ClosesBlock(s, i) then Second(Code) else BlockComment
    case Quoted(quote, escaped) =>
      if escaped then Quoted(quote, false)
      else if s[i] == BACKSLASH then Quoted(quote, true)
      else if s[i] == quote then Code
      else state
    case Second(of) => of
  }

  /** The state in which the character at i is read. */
  function StateAt(s: Text, i: nat): State
    requires i <= |s|
  {
    if i == 0 then Code else Step(s, i - 1, StateAt(s, i - 1))
  }

  predicate Opens(s: Text, i: nat)
    requires i < |s|
  {
    OpensLine(s, i) || OpensBlock(s, i) || OpensQuote(s, i)
  }

  /** A character outside comments and strings that does not open one. */
  predicate IsCode(s: Text, i: nat)
    requires i < |s|
  {
    StateAt(s, i) == Code && !Opens(s, i)
  }

  /** Exactly the code characters and the newlines stay; everything else becomes a space. */
  ghost predicate Masks(m: Text, s: Text) {
    && |m| == |s|
    && forall i | 0 <= i < |s| :: m[i] == if IsCode(s, i) || s[i] == NEWLINE then s[i] else SPACE
  }

  // ---------------------------------------------------------------- the masker

  datatype Mode = InCode | InLineComment | InBlockComment | InString

  /** The loop's variables stand for a state of the lexer; quote and escaped matter in strings only. */
  function Meaning(mode: Mode, quote: Unit, escaped: bool): State {
    match mode
    case InCode => Code
    case InLineComment => LineComment
    case InBlockComment => BlockComment
    case InString => Quoted(quote, escaped)
  }

  /** The part before i is masked and the rest untouched. */
  ghost predicate MaskedTo(chars: Text, s: Text, i: nat) {
    && |chars| == |s|
    && (forall k | 0 <= k < |s| && k < i :: chars[k] == if IsCode(s, k) || s[k] == NEWLINE then s[k] else SPACE)
    && forall k | i <= k < |s| :: chars[k] == s[k]
  }

  lemma KeepOne(chars: Text, s: Text, i: nat)
    requires MaskedTo(chars, s, i) && i < |s| && (IsCode(s, i) || s[i] == NEWLINE)
    ensures MaskedTo(chars, s, i + 1)
  { }

  /** The two characters of a mark made spaces. */
  function Blanked(chars: Text, i: nat): Text
    requires i + 1 < |chars|
  {
    var first: Text := chars[i := SPACE];
    first[i + 1 := SPACE]
  }

  lemma BlankOne(chars: Text, s: Text, i: nat)
    requires MaskedTo(chars, s, i) && i < |s| && !IsCode(s, i) && s[i] != NEWLINE
    ensures MaskedTo(chars[i := SPACE], s, i + 1)
  { }

  /** Two characters of a mark: neither is code, and the second leads to the target state. */
  lemma BlankMark(chars: Text, s: Text, i: nat, target: State)
    requires MaskedTo(chars, s, i) && i + 1 < |s| && s[i] != NEWLINE && s[i + 1] != NEWLINE
    requires StateAt(s, i) != Code || Opens(s, i)
    requires Step(s, i, StateAt(s, i)) == Second(target)
    ensures MaskedTo(Blanked(chars, i), s, i + 2) && StateAt(s, i + 2) == target
  {
    assert StateAt(s, i + 1) == Second(target);
    BlankOne(chars, s, i);
    BlankOne(chars[i := SPACE], s, i + 1);
  }

  /** One character read, and kept or blanked as its state says. */
  lemma MaskOne(chars: Text, s: Text, i: nat)
    requires MaskedTo(chars, s, i) && i < |s|
    ensures StateAt(s, i + 1) == Step(s, i, StateAt(s, i))
    ensures MaskedTo(if (StateAt(s, i) == Code && !Opens(s, i)) || s[i] == NEWLINE then chars else chars[i := SPACE], s, i + 1)
  {
    if IsCode(s, i) || s[i] == NEWLINE { KeepOne(chars, s, i); } else { BlankOne(chars, s, i); }
  }

  method Mask(source: Text) returns (masked: Text)
    ensures Masks(masked, source)
  {
    hide StateAt, MaskedTo;
    var chars := new Unit[|source|](i requires 0 <= i < |source| => source[i]);
    var mode, quote, escaped := InCode, SPACE, false;
    var i: nat := 0;
    assert chars[..] == source;
    NothingMasked(source);
    while i < |source|
      invariant i <= |source| && chars.Length == |source|
      invariant Meaning(mode, quote, escaped) == StateAt(source, i)
      invariant MaskedTo(chars[..], source, i)
    {
      var current := source[i];
      var next := if i + 1 < chars.Length then source[i + 1] else SPACE;
      ghost var was := chars[..];
      MaskOne(was, source, i);
      if mode == InCode {
        if current == SLASH && next == SLASH {
          BlankMark(was, source, i, LineComment);
          chars[i], chars[i + 1] := SPACE, SPACE;
          assert chars[..] == Blanked(was, i);
          i := i + 1;
          mode := InLineComment;
        } else if current == SLASH && next == STAR {
          BlankMark(was, source, i, BlockComment);
          chars[i], chars[i + 1] := SPACE, SPACE;
          assert chars[..] == Blanked(was, i);
          i := i + 1;
          mode := InBlockComment;
        } else if current == QUOTE || current == APOSTROPHE {
          chars[i] := SPACE;
          assert chars[..] == was[i := SPACE];
          quote := current;
          escaped := false;
          mode := InString;
        }
      } else if mode == InLineComment {
        if current == NEWLINE {
          mode := InCode;
        } else {
          chars[i] := SPACE;
          assert chars[..] == was[i := SPACE];
        }
      } else if mode == InBlockComment {
        if current == STAR && next == SLASH {
          BlankMark(was, source, i, Code);
          chars[i], chars[i + 1] := SPACE, SPACE;
          assert chars[..] == Blanked(was, i);
          i := i + 1;
          mode := InCode;
        } else if current != NEWLINE {
          chars[i] := SPACE;
          assert chars[..] == was[i := SPACE];
        }
      } else {
        if current != NEWLINE {
          chars[i] := SPACE;
          assert chars[..] == was[i := SPACE];
        }
        if escaped {
          escaped := false;
        } else if current == BACKSLASH {
          escaped := true;
        } else if current == quote {
          mode := InCode;
        }
      }
      i := i + 1;
    }
    AllMasked(chars[..], source);
    masked := chars[..];
  }

  lemma NothingMasked(s: Text)
    ensures MaskedTo(s, s, 0) && StateAt(s, 0) == Code
  { }

  lemma AllMasked(m: Text, s: Text)
    requires MaskedTo(m, s, |s|)
    ensures Masks(m, s)
  { }

  // ---------------------------------------------------------------- what the masked text is good for

  /** Nothing in a masked text opens a comment or a string. */
  lemma MaskedTextOpensNothing(m: Text, s: Text, i: nat)
    requires Masks(m, s) && i < |m|
    ensures !Opens(m, i)
  {
    assert m[i] == (if IsCode(s, i) || s[i] == NEWLINE then s[i] else SPACE);
    if i + 1 < |m| { assert m[i + 1] == (if IsCode(s, i + 1) || s[i + 1] == NEWLINE then s[i + 1] else SPACE); }
  }

  lemma {:induction false} MaskedTextIsCode(m: Text, s: Text, i: nat)
    requires Masks(m, s) && i <= |m|
    ensures StateAt(m, i) == Code
  {
    if i > 0 {
      MaskedTextIsCode(m, s, i - 1);
      MaskedTextOpensNothing(m, s, i - 1);
    }
  }

  /** Masking again changes nothing. */
  lemma MaskingIsIdempotent(m: Text, again: Text, s: Text)
    requires Masks(m, s) && Masks(again, m)
    ensures again == m
  {
    forall i | 0 <= i < |m| ensures again[i] == m[i] {
      MaskedTextIsCode(m, s, i);
      MaskedTextOpensNothing(m, s, i);
    }
  }

  /** A text is its own mask exactly when it has no comment mark and no quote. */
  lemma FixedIff(s: Text)
    ensures Masks(s, s) <==> forall i | 0 <= i < |s| :: !Opens(s, i)
  {
    if Masks(s, s) {
      forall i | 0 <= i < |s| ensures !Opens(s, i) { MaskedTextOpensNothing(s, s, i); }
    }
    if forall i | 0 <= i < |s| :: !Opens(s, i) {
      forall i | 0 <= i < |s| ensures IsCode(s, i) { CodeThroughout(s, i); }
    }
  }

  lemma {:induction false} CodeThroughout(s: Text, i: nat)
    requires i <= |s| && forall k | 0 <= k < |s| :: !Opens(s, k)
    ensures StateAt(s, i) == Code
  {
    if i > 0 {
      CodeThroughout(s, i - 1);
      assert !Opens(s, i - 1);
    }
  }

  // ---------------------------------------------------------------- strings and comments, character by character

  /** The inside of a string: a backslash (92) takes the next character along, and nothing else is the quote. */
  predicate StringBody(body: Text, quote: Unit)
    decreases |body|
  {
    || body == []
    || (body[0] == 92 && |body| > 1 && StringBody(body[2..], quote))
    || (body[0] != 92 && body[0] != quote && StringBody(body[1..], quote))
  }

  lemma {:induction false} StaysQuoted(s: Text, i: nat, body: Text, quote: Unit)
    requires i + |body| <= |s| && s[i..i + |body|] == body && StateAt(s, i) == Quoted(quote, false) && StringBody(body, quote)
    ensures StateAt(s, i + |body|) == Quoted(quote, false)
    ensures forall k | i <= k < i + |body| :: StateAt(s, k).Quoted?
    decreases |body|
  {
    if body != [] {
      assert s[i] == body[0];
      if body[0] == 92 {
        assert StateAt(s, i + 1) == Quoted(quote, true) && StateAt(s, i + 2) == Quoted(quote, false);
        assert s[i + 2..i + |body|] == body[2..];
        StaysQuoted(s, i + 2, body[2..], quote);
      } else {
        assert s[i + 1..i + |body|] == body[1..];
        StaysQuoted(s, i + 1, body[1..], quote);
      }
    }
  }

  /** Between two positions of a masked text everything is blank (32) but the newlines (10), and the lexer is back in code. */
  ghost predicate Blank(m: Text, s: Text, start: nat, end: nat) {
    && start <= end <= |s| == |m| && StateAt(s, end) == Code
    && forall i | start <= i < end :: m[i] == if s[i] == 10 then 10 else 32
  }

  lemma OutsideIsBlank(m: Text, s: Text, start: nat, end: nat)
    requires Masks(m, s) && start <= end <= |s| && StateAt(s, end) == Code
    requires forall i | start <= i < end :: !IsCode(s, i)
    ensures Blank(m, s, start, end)
  {
    hide StateAt, IsCode;
  }

  /** A string in double (34) or single (39) quotes is blanked up to the quote that is not escaped, whatever it holds. */
  lemma StringIsBlanked(m: Text, s: Text, start: nat, end: nat)
    requires Masks(m, s) && start + 1 < end <= |s| && StateAt(s, start) == Code
    requires (s[start] == 34 || s[start] == 39) && s[end - 1] == s[start] && StringBody(s[start + 1..end - 1], s[start])
    ensures Blank(m, s, start, end)
  {
    hide StateAt, IsCode, Masks, StringBody, Blank;
    var body, quote := s[start + 1..end - 1], s[start];
    assert start + 1 + |body| == end - 1;
    QuoteOpens(s, start);
    StaysQuoted(s, start + 1, body, quote);
    QuoteCloses(s, end - 1, quote);
    forall i | start < i < end ensures !IsCode(s, i) { QuotedIsNoCode(s, i); }
    OutsideIsBlank(m, s, start, end);
  }

  lemma QuoteOpens(s: Text, i: nat)
    requires i < |s| && StateAt(s, i) == Code && (s[i] == 34 || s[i] == 39)
    ensures StateAt(s, i + 1) == Quoted(s[i], false) && !IsCode(s, i)
  { }

  lemma QuoteCloses(s: Text, i: nat, quote: Unit)
    requires i < |s| && StateAt(s, i) == Quoted(quote, false) && s[i] == quote && quote != 92
    ensures StateAt(s, i + 1) == Code
  { }

  lemma QuotedIsNoCode(s: Text, i: nat)
    requires i < |s| && StateAt(s, i).Quoted?
    ensures !IsCode(s, i)
  { }

  lemma {:induction false} StaysInLine(s: Text, i: nat, end: nat)
    requires i <= end <= |s| && StateAt(s, i) == LineComment && forall k | i <= k < end :: s[k] != 10
    ensures forall k | i <= k <= end :: StateAt(s, k) == LineComment
    decreases end - i
  {
    if i < end { StaysInLine(s, i + 1, end); }
  }

  /** A quote that a backslash escapes does not end a string: of "\"" and a letter behind it, the letter alone stays. */
  lemma EscapedQuoteStaysInside(m: Text, letter: Unit)
    requires letter !in {10, 34, 39, 47} && Masks(m, [34, 92, 34, 34, letter])
    ensures m == [32, 32, 32, 32, letter]
  {
    var s := [34, 92, 34, 34, letter];
    assert s[1..3] == [92, 34] && s[1..3][2..] == [];
    assert StringBody(s[1..3], 34);
    StringIsBlanked(m, s, 0, 4);
    CodeIsKept(m, s, 4);
    hide Masks;
  }

  /** A comment from two slashes (47) is blanked up to the end of its line. */
  lemma LineCommentIsBlanked(m: Text, s: Text, start: nat, end: nat)
    requires Masks(m, s) && start + 2 < end <= |s| && StateAt(s, start) == Code
    requires s[start] == 47 && s[start + 1] == 47 && s[end - 1] == 10 && forall k | start + 2 <= k < end - 1 :: s[k] != 10
    ensures Blank(m, s, start, end)
  {
    assert StateAt(s, start + 1) == Second(LineComment) && StateAt(s, start + 2) == LineComment;
    StaysInLine(s, start + 2, end - 1);
    OutsideIsBlank(m, s, start, end);
  }

  lemma {:induction false} StaysInBlock(s: Text, i: nat, end: nat)
    requires i <= end < |s| && StateAt(s, i) == BlockComment && forall k | i <= k < end :: !(s[k] == 42 && s[k + 1] == 47)
    ensures forall k | i <= k <= end :: StateAt(s, k) == BlockComment
    decreases end - i
  {
    if i < end { StaysInBlock(s, i + 1, end); }
  }

  /** A comment from slash and star (42) is blanked up to the first star and slash after that mark. */
  lemma BlockCommentIsBlanked(m: Text, s: Text, start: nat, end: nat)
    requires Masks(m, s) && start + 4 <= end <= |s| && StateAt(s, start) == Code
    requires s[start] == 47 && s[start + 1] == 42 && s[end - 2] == 42 && s[end - 1] == 47
    requires forall k | start + 2 <= k < end - 2 :: !(s[k] == 42 && s[k + 1] == 47)
    ensures Blank(m, s, start, end)
  {
    assert StateAt(s, start + 1) == Second(BlockComment) && StateAt(s, start + 2) == BlockComment;
    StaysInBlock(s, start + 2, end - 2);
    assert StateAt(s, end - 1) == Second(Code);
    OutsideIsBlank(m, s, start, end);
  }

  /** In code, every character stays but the quotes and a slash that a slash or a star follows. */
  lemma CodeIsKept(m: Text, s: Text, i: nat)
    requires Masks(m, s) && i < |s| && StateAt(s, i) == Code
    requires s[i] != 34 && s[i] != 39 && (s[i] == 47 && i + 1 < |s| ==> s[i + 1] != 47 && s[i + 1] != 42)
    ensures m[i] == s[i] && StateAt(s, i + 1) == Code
  { }

  function Newlines(s: Text, index: nat): nat
    requires index <= |s|
  {
    if index == 0 then 0 else Newlines(s, index - 1) + (if s[index - 1] == NEWLINE then 1 else 0)
  }

  /** Newlines are counted by position: those at which the text has character 10. */
  lemma {:induction false} NewlinesAre(s: Text, index: nat)
    requires index <= |s|
    ensures Newlines(s, index) == |set i | 0 <= i < index && s[i] == 10|
  {
    if index > 0 {
      NewlinesAre(s, index - 1);
      var fewer, all := set i | 0 <= i < index - 1 && s[i] == 10, set i | 0 <= i < index && s[i] == 10;
      assert all == if s[index - 1] == 10 then fewer + {index - 1} else fewer;
    }
  }

  method LineAt(source: Text, index: nat) returns (line: nat)
    requires index <= |source|
    ensures line == 1 + Newlines(source, index)
  {
    line := 1;
    for i := 0 to index
      invariant line == 1 + Newlines(source, i)
    {
      if source[i] == NEWLINE { line := line + 1; }
    }
  }

  /** Newlines keep their positions, so an offset in the masked text is on the same line of the source. */
  lemma {:induction false} LinesAgree(m: Text, s: Text, index: nat)
    requires Masks(m, s) && index <= |s|
    ensures Newlines(m, index) == Newlines(s, index)
    ensures forall i | 0 <= i < index :: m[i] == NEWLINE <==> s[i] == NEWLINE
  {
    if index > 0 { LinesAgree(m, s, index - 1); }
  }
}
