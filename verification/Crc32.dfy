/**
  The table-driven CRC-32 of scripts/release/deterministic-zip.js against the
  bit-serial reflected CRC that RFC 1952, section 8, tabulates.
*/
module Crc32 {
  const POLYNOMIAL: bv32 := 0xedb88320
  const ONES: bv32 := 0xffff_ffff

  function Xor(a: bv32, b: bv32): bv32 { a ^ b }

  function Shr(v: bv32): bv32 { v >> 1 }

  function Shr8(v: bv32): bv32 { v >> 8 }

  predicate Odd(v: bv32) { v & 1 == 1 }

  function Low(v: bv32): bv8 { (v & 0xff) as bv8 }

  function Wide(b: bv8): bv32 { b as bv32 }

  // ---------------------------------------------------------------- bit-serial definition

  /** Shift one message bit into the register: a reflected division step. */
  function FeedBit(register: bv32, bit: bool): bv32 {
    if Odd(register) != bit then Xor(Shr(register), POLYNOMIAL) else Shr(register)
  }

  function Shifted(v: bv32, count: nat): bv32 {
    if count == 0 then v else Shr(Shifted(v, count - 1))
  }

  /** Shift in the `count` low bits of a message word, lowest first. */
  function FeedBits(register: bv32, word: bv32, count: nat): bv32 {
    if count == 0 then register
    else FeedBit(FeedBits(register, word, count - 1), Odd(Shifted(word, count - 1)))
  }

  function FeedByte(register: bv32, byte: bv8): bv32 {
    FeedBits(register, Wide(byte), 8)
  }

  /** The register after `bytes`. */
  function Feed(register: bv32, bytes: seq<bv8>): bv32 {
    if bytes == [] then register else FeedByte(Feed(register, bytes[..|bytes| - 1]), bytes[|bytes| - 1])
  }

  function Checksum(bytes: seq<bv8>): bv32 {
    Xor(Feed(ONES, bytes), ONES)
  }

  // ---------------------------------------------------------------- the table

  function BitStep(v: bv32): bv32 {
    if Odd(v) then Xor(Shr(v), POLYNOMIAL) else Shr(v)
  }

  function BitSteps(v: bv32, count: nat): bv32 {
    if count == 0 then v else BitStep(BitSteps(v, count - 1))
  }

  function Entry(index: bv8): bv32 {
    BitSteps(Wide(index), 8)
  }

  function TableStep(v: bv32, byte: bv8): bv32 {
    Xor(Entry(Low(Xor(v, Wide(byte)))), Shr8(v))
  }

  ghost predicate IsTable(table: seq<bv32>) {
    |table| == 256 && forall i: bv8 :: table[i as int] == Entry(i)
  }

  method BuildTable() returns (table: array<bv32>)
    ensures fresh(table) && IsTable(table[..])
  {
    table := new bv32[256];
    var index := 0;
    while index < 256
      invariant 0 <= index <= 256
      invariant forall i: int | 0 <= i < index :: table[i] == Entry(i as bv8)
    {
      var value := Wide(index as bv8);
      var bit := 0;
      while bit < 8
        invariant 0 <= bit <= 8
        invariant value == BitSteps(Wide(index as bv8), bit)
      {
        value := if Odd(value) then Xor(Shr(value), POLYNOMIAL) else Shr(value);
        bit := bit + 1;
      }
      table[index] := value;
      index := index + 1;
    }
    forall i: bv8 ensures table[..][i as int] == Entry(i) {
      ByteRoundTrip(i);
      assert table[..][i as int] == table[i as int];
    }
  }

  lemma ByteRoundTrip(b: bv8)
    ensures 0 <= b as int < 256 && (b as int) as bv8 == b
  {}

  method Crc(table: array<bv32>, bytes: seq<bv8>) returns (crc: bv32)
    requires IsTable(table[..])
    ensures crc == Checksum(bytes)
  {
    hide Xor, Shr, Shr8, Odd, Low, Wide, Entry;
    var value := ONES;
    var i := 0;
    while i < |bytes|
      invariant 0 <= i <= |bytes|
      invariant value == Feed(ONES, bytes[..i])
    {
      var low := Low(Xor(value, Wide(bytes[i])));
      ByteRoundTrip(low);
      assert table[..][low as int] == Entry(low);
      TableStepIsSerial(value, bytes[i]);
      assert bytes[..i + 1][..i] == bytes[..i];
      value := Xor(table[low as int], Shr8(value));
      i := i + 1;
    }
    assert bytes[..i] == bytes;
    crc := Xor(value, ONES);
  }

  // ---------------------------------------------------------------- word facts

  lemma XorShift(a: bv32, b: bv32)
    ensures Shr(Xor(a, b)) == Xor(Shr(a), Shr(b))
  {}

  lemma XorOdd(a: bv32, b: bv32)
    ensures Odd(Xor(a, b)) == (Odd(a) != Odd(b))
  {}

  lemma XorAssoc(a: bv32, b: bv32, c: bv32)
    ensures Xor(Xor(a, b), c) == Xor(a, Xor(b, c))
  {}

  lemma XorCommutes(a: bv32, b: bv32)
    ensures Xor(a, b) == Xor(b, a)
  {}

  lemma XorTwice(a: bv32, b: bv32)
    ensures Xor(Xor(a, b), b) == a
  {}

  lemma XorZero(v: bv32)
    ensures Xor(v, 0) == v
  {}

  // ---------------------------------------------------------------- the table step is eight serial steps

  /** A part with a clear low bit only moves. */
  lemma HighPartShifts(high: bv32, low: bv32)
    requires !Odd(high)
    ensures BitStep(Xor(high, low)) == Xor(Shr(high), BitStep(low))
  {
    hide Xor, Shr, Odd;
    XorShift(high, low);
    XorOdd(high, low);
    if Odd(low) { XorAssoc(Shr(high), Shr(low), POLYNOMIAL); }
  }

  lemma {:induction false} HighPartShiftsOn(high: bv32, low: bv32, count: nat)
    requires forall k: nat | k < count :: !Odd(Shifted(high, k))
    ensures BitSteps(Xor(high, low), count) == Xor(Shifted(high, count), BitSteps(low, count))
  {
    hide Xor, Shr, Odd, BitStep;
    if count > 0 {
      HighPartShiftsOn(high, low, count - 1);
      HighPartShifts(Shifted(high, count - 1), BitSteps(low, count - 1));
    }
  }

  function HighPart(v: bv32): bv32 { v & 0xffff_ff00 }

  lemma SplitLow(v: bv32)
    ensures v == Xor(HighPart(v), Wide(Low(v)))
  {}

  lemma EightShifts(v: bv32)
    ensures Shr(Shr(Shr(Shr(Shr(Shr(Shr(Shr(v)))))))) == Shr8(v)
  {}

  lemma HighPartIsEven(v: bv32)
    ensures var h := HighPart(v);
            && !Odd(h) && !Odd(Shr(h)) && !Odd(Shr(Shr(h))) && !Odd(Shr(Shr(Shr(h)))) && !Odd(Shr(Shr(Shr(Shr(h)))))
            && !Odd(Shr(Shr(Shr(Shr(Shr(h)))))) && !Odd(Shr(Shr(Shr(Shr(Shr(Shr(h)))))))
            && !Odd(Shr(Shr(Shr(Shr(Shr(Shr(Shr(h))))))))
    ensures Shr8(HighPart(v)) == Shr8(v)
  {}

  lemma ShiftedOneByOne(h: bv32)
    ensures Shifted(h, 0) == h && Shifted(h, 1) == Shr(h) && Shifted(h, 2) == Shr(Shr(h))
    ensures Shifted(h, 3) == Shr(Shr(Shr(h))) && Shifted(h, 4) == Shr(Shr(Shr(Shr(h))))
    ensures Shifted(h, 5) == Shr(Shr(Shr(Shr(Shr(h))))) && Shifted(h, 6) == Shr(Shr(Shr(Shr(Shr(Shr(h))))))
    ensures Shifted(h, 7) == Shr(Shr(Shr(Shr(Shr(Shr(Shr(h)))))))
    ensures Shifted(h, 8) == Shr(Shr(Shr(Shr(Shr(Shr(Shr(Shr(h))))))))
  {
    hide Shr;
  }

  lemma EightStepsByTable(v: bv32)
    ensures BitSteps(v, 8) == Xor(Entry(Low(v)), Shr8(v))
  {
    hide Xor, Shr, Shr8, Odd, Low, Wide, HighPart, BitSteps;
    var h := HighPart(v);
    SplitLow(v);
    HighPartIsEven(v);
    EightShifts(h);
    ShiftedOneByOne(h);
    forall k: nat | k < 8 ensures !Odd(Shifted(h, k)) {
      assert k == 0 || k == 1 || k == 2 || k == 3 || k == 4 || k == 5 || k == 6 || k == 7;
    }
    HighPartShiftsOn(h, Wide(Low(v)), 8);
    XorCommutes(Shr8(v), Entry(Low(v)));
  }

  /** Feeding one bit of a pending word is one step of the register with the word mixed in. */
  lemma FeedBitIsStep(r: bv32, c: bv32)
    ensures BitStep(Xor(r, c)) == Xor(FeedBit(r, Odd(c)), Shr(c))
  {
    hide Xor, Shr, Odd;
    XorOdd(r, c);
    XorShift(r, c);
    if Odd(Xor(r, c)) {
      XorAssoc(Shr(r), Shr(c), POLYNOMIAL);
      XorCommutes(Shr(c), POLYNOMIAL);
      XorAssoc(Shr(r), POLYNOMIAL, Shr(c));
    }
  }

  lemma {:induction false} FeedBitsAreSteps(v: bv32, word: bv32, count: nat)
    ensures BitSteps(Xor(v, word), count) == Xor(FeedBits(v, word, count), Shifted(word, count))
  {
    hide Xor, Shr, Odd, BitStep, FeedBit;
    if count > 0 {
      FeedBitsAreSteps(v, word, count - 1);
      FeedBitIsStep(FeedBits(v, word, count - 1), Shifted(word, count - 1));
    }
  }

  lemma ByteRunsOut(byte: bv8)
    ensures Shr8(Wide(byte)) == 0
  {}

  lemma FeedIsSteps(v: bv32, byte: bv8)
    ensures FeedByte(v, byte) == BitSteps(Xor(v, Wide(byte)), 8)
  {
    hide Xor, Shr, Shr8, Odd, Wide, BitSteps, FeedBits;
    FeedBitsAreSteps(v, Wide(byte), 8);
    ShiftedOneByOne(Wide(byte));
    EightShifts(Wide(byte));
    ByteRunsOut(byte);
    XorZero(FeedByte(v, byte));
  }

  lemma ByteTouchesLowOnly(v: bv32, byte: bv8)
    ensures Shr8(Xor(v, Wide(byte))) == Shr8(v)
  {}

  /** One table lookup is exactly eight serial bit steps. */
  lemma TableStepIsSerial(v: bv32, byte: bv8)
    ensures TableStep(v, byte) == FeedByte(v, byte)
  {
    hide Xor, Shr8, Low, Wide, Entry, BitSteps, FeedByte;
    EightStepsByTable(Xor(v, Wide(byte)));
    ByteTouchesLowOnly(v, byte);
    FeedIsSteps(v, byte);
  }

  // ---------------------------------------------------------------- bijection

  predicate Top(v: bv32) { v & 0x8000_0000 != 0 }

  function Shl(v: bv32, low: bv32): bv32 { (v << 1) | low }

  function UndoStep(v: bv32): bv32 {
    if Top(v) then Shl(Xor(v, POLYNOMIAL), 1) else Shl(v, 0)
  }

  lemma ShlIsOdd(v: bv32)
    ensures Odd(Shl(v, 1)) && !Odd(Shl(v, 0))
  {}

  function ClearTop(v: bv32): bv32 { v & 0x7fff_ffff }

  lemma ShlThenShr(v: bv32)
    ensures Shr(Shl(v, 1)) == ClearTop(v) && Shr(Shl(v, 0)) == ClearTop(v)
  {}

  lemma TopIsClear(v: bv32)
    requires !Top(v)
    ensures ClearTop(v) == v
  {}

  lemma ShrThenShl(v: bv32)
    ensures !Top(Shr(v)) && Shl(Shr(v), if Odd(v) then 1 else 0) == v
  {}

  lemma XorTop(v: bv32)
    ensures Top(Xor(v, POLYNOMIAL)) == !Top(v)
  {}

  lemma UndoesStep(v: bv32)
    ensures UndoStep(BitStep(v)) == v
  {
    hide Xor, Shr, Shl, Odd, Top;
    ShrThenShl(v);
    XorTop(Shr(v));
    XorTwice(Shr(v), POLYNOMIAL);
  }

  lemma StepUndone(v: bv32)
    ensures BitStep(UndoStep(v)) == v
  {
    hide Xor, Shr, Shl, Odd, Top, ClearTop;
    XorTop(v);
    XorTwice(v, POLYNOMIAL);
    var w := if Top(v) then Xor(v, POLYNOMIAL) else v;
    ShlThenShr(w);
    TopIsClear(w);
    ShlIsOdd(Xor(v, POLYNOMIAL));
    ShlIsOdd(v);
  }

  function UndoSteps(v: bv32, count: nat): bv32
    decreases count
  {
    if count == 0 then v else UndoSteps(UndoStep(v), count - 1)
  }

  lemma {:induction false} UndoesSteps(v: bv32, count: nat)
    ensures UndoSteps(BitSteps(v, count), count) == v
  {
    hide BitStep, UndoStep;
    if count > 0 {
      UndoesStep(BitSteps(v, count - 1));
      UndoesSteps(v, count - 1);
    }
  }

  lemma {:induction false} StepsUndone(v: bv32, count: nat)
    ensures BitSteps(UndoSteps(v, count), count) == v
    decreases count
  {
    hide BitStep, UndoStep;
    if count > 0 {
      StepsUndone(UndoStep(v), count - 1);
      StepUndone(v);
    }
  }

  /** The register before a byte, from the register after it. */
  function Unfeed(v: bv32, byte: bv8): bv32 {
    Xor(UndoSteps(v, 8), Wide(byte))
  }

  /** For each byte, the step is a bijection on register states. */
  lemma ByteStepIsBijection(v: bv32, byte: bv8)
    ensures Unfeed(FeedByte(v, byte), byte) == v
    ensures FeedByte(Unfeed(v, byte), byte) == v
  {
    hide Xor, Wide, BitSteps, UndoSteps, FeedByte;
    FeedIsSteps(v, byte);
    UndoesSteps(Xor(v, Wide(byte)), 8);
    XorTwice(v, Wide(byte));
    FeedIsSteps(Unfeed(v, byte), byte);
    XorTwice(UndoSteps(v, 8), Wide(byte));
    StepsUndone(v, 8);
  }

  lemma XorCancels(v: bv32, x: bv8, y: bv8)
    requires Xor(v, Wide(x)) == Xor(v, Wide(y))
    ensures x == y
  {}

  lemma StepSeparatesBytes(v: bv32, x: bv8, y: bv8)
    requires x != y
    ensures FeedByte(v, x) != FeedByte(v, y)
  {
    hide Xor, Wide, BitSteps, UndoSteps, FeedByte;
    FeedIsSteps(v, x);
    FeedIsSteps(v, y);
    UndoesSteps(Xor(v, Wide(x)), 8);
    UndoesSteps(Xor(v, Wide(y)), 8);
    if Xor(v, Wide(x)) == Xor(v, Wide(y)) { XorCancels(v, x, y); }
  }

  /** Different registers stay different over the same bytes. */
  lemma {:induction false} FeedSeparates(v: bv32, w: bv32, bytes: seq<bv8>)
    requires v != w
    ensures Feed(v, bytes) != Feed(w, bytes)
  {
    hide FeedByte, Unfeed;
    if bytes != [] {
      var front, last := bytes[..|bytes| - 1], bytes[|bytes| - 1];
      FeedSeparates(v, w, front);
      ByteStepIsBijection(Feed(v, front), last);
      ByteStepIsBijection(Feed(w, front), last);
    }
  }

  lemma {:induction false} FeedAppend(v: bv32, a: seq<bv8>, b: seq<bv8>)
    ensures Feed(v, a + b) == Feed(Feed(v, a), b)
  {
    hide FeedByte;
    if b == [] {
      assert a + b == a;
    } else {
      FeedAppend(v, a, b[..|b| - 1]);
      assert (a + b)[..|a + b| - 1] == a + b[..|b| - 1];
    }
  }

  /** Replacing one byte always changes the checksum. */
  lemma OneChangedByteIsDetected(before: seq<bv8>, x: bv8, y: bv8, after: seq<bv8>)
    requires x != y
    ensures Checksum(before + [x] + after) != Checksum(before + [y] + after)
  {
    hide FeedByte, Xor;
    var v := Feed(ONES, before);
    FeedAppend(ONES, before, [x]);
    FeedAppend(ONES, before, [y]);
    FeedAppend(ONES, before + [x], after);
    FeedAppend(ONES, before + [y], after);
    assert [x][..0] == [] && [y][..0] == [];
    assert Feed(v, [x]) == FeedByte(v, x) && Feed(v, [y]) == FeedByte(v, y);
    StepSeparatesBytes(v, x, y);
    FeedSeparates(Feed(v, [x]), Feed(v, [y]), after);
    XorTwice(Feed(ONES, before + [x] + after), ONES);
    XorTwice(Feed(ONES, before + [y] + after), ONES);
  }

  /** The checksum as the number that the ZIP headers carry. */
  function Number(bytes: seq<bv8>): int {
    Checksum(bytes) as int
  }

  lemma NumberIsFaithful(a: seq<bv8>, b: seq<bv8>)
    ensures 0 <= Number(a) < 0x1_0000_0000
    ensures Number(a) == Number(b) <==> Checksum(a) == Checksum(b)
  {
    hide Checksum;
    WordRoundTrip(Checksum(a));
    WordRoundTrip(Checksum(b));
  }

  lemma WordRoundTrip(v: bv32)
    ensures 0 <= v as int < 0x1_0000_0000 && (v as int) as bv32 == v
  {}

  // ---------------------------------------------------------------- the numbers

  function LittleEndian(w: bv32): seq<bv8> {
    [(w & 0xff) as bv8, ((w >> 8) & 0xff) as bv8, ((w >> 16) & 0xff) as bv8, ((w >> 24) & 0xff) as bv8]
  }

  lemma LowOfXor(v: bv32, w: bv32)
    ensures Low(Xor(v, w)) == Low(Xor(v, Wide(Low(w)))) && Wide(0) == 0
  {}

  lemma Shr8OfXor(v: bv32, w: bv32)
    ensures Shr8(Xor(v, w)) == Xor(Shr8(v), Shr8(w))
  {}

  /** Mixing a word into the register stands for feeding its lowest byte; the rest of the word moves down. */
  lemma MixedWord(v: bv32, w: bv32)
    ensures FeedByte(Xor(v, w), 0) == Xor(FeedByte(v, Low(w)), Shr8(w))
  {
    hide Xor, Shr8, Low, Wide, Entry, FeedByte;
    TableStepIsSerial(Xor(v, w), 0);
    TableStepIsSerial(v, Low(w));
    LowOfXor(v, w);
    XorZero(Xor(v, w));
    Shr8OfXor(v, w);
    XorAssoc(Entry(Low(Xor(v, w))), Shr8(v), Shr8(w));
  }

  lemma BytesOfWord(w: bv32)
    ensures LittleEndian(w) == [Low(w), Low(Shr8(w)), Low(Shr8(Shr8(w))), Low(Shr8(Shr8(Shr8(w))))]
    ensures Shr8(Shr8(Shr8(Shr8(w)))) == 0
  {}

  lemma FeedNext(start: bv32, bytes: seq<bv8>, v: bv32, byte: bv8, all: seq<bv8>)
    requires Feed(start, bytes) == v && all == bytes + [byte]
    ensures Feed(start, all) == FeedByte(v, byte)
  {
    assert all[..|all| - 1] == bytes;
    hide FeedByte;
  }

  lemma FeedFour(v: bv32, a: bv8, b: bv8, c: bv8, d: bv8)
    ensures Feed(v, [a, b, c, d]) == FeedByte(FeedByte(FeedByte(FeedByte(v, a), b), c), d)
  {
    assert Feed(v, []) == v;
    hide Feed, FeedByte;
    FeedNext(v, [], v, a, [a]);
    FeedNext(v, [a], FeedByte(v, a), b, [a, b]);
    FeedNext(v, [a, b], FeedByte(FeedByte(v, a), b), c, [a, b, c]);
    FeedNext(v, [a, b, c], FeedByte(FeedByte(FeedByte(v, a), b), c), d, [a, b, c, d]);
  }

  /** Four bytes count only together with the register: as the word they make, mixed into it. */
  lemma FourBytesMix(v: bv32, w: bv32)
    ensures Feed(v, LittleEndian(w)) == Feed(v ^ w, [0, 0, 0, 0])
  {
    assert Xor(v, w) == v ^ w;
    hide Xor, Shr8, Low, FeedByte, LittleEndian;
    BytesOfWord(w);
    var w1, w2, w3 := Shr8(w), Shr8(Shr8(w)), Shr8(Shr8(Shr8(w)));
    var v1 := FeedByte(v, Low(w));
    var v2 := FeedByte(v1, Low(w1));
    var v3 := FeedByte(v2, Low(w2));
    MixedWord(v, w);
    MixedWord(v1, w1);
    MixedWord(v2, w2);
    MixedWord(v3, w3);
    XorZero(FeedByte(v3, Low(w3)));
    FeedFour(v, Low(w), Low(w1), Low(w2), Low(w3));
    FeedFour(v ^ w, 0, 0, 0, 0);
  }

  lemma ByteByBits(v: bv32, byte: bv8)
    ensures FeedByte(v, byte) == BitStep(BitStep(BitStep(BitStep(BitStep(BitStep(BitStep(BitStep(Xor(v, Wide(byte))))))))))
  {
    FeedIsSteps(v, byte);
    hide Xor, Wide, BitStep, FeedByte;
    var x := Xor(v, Wide(byte));
    assert BitSteps(x, 1) == BitStep(x) && BitSteps(x, 2) == BitStep(BitStep(x));
    assert BitSteps(x, 4) == BitStep(BitStep(BitStep(BitStep(x))));
    assert BitSteps(x, 6) == BitStep(BitStep(BitSteps(x, 4)));
  }

  lemma ZeroBytes()
    ensures FeedByte(0xffff_ffff, 0) == 0x2dfd_1072
    ensures FeedByte(0x2dfd_1072, 0) == 0xbe26_ed00
    ensures FeedByte(0xbe26_ed00, 0) == 0x00be_26ed
    ensures FeedByte(0x00be_26ed, 0) == 0xdebb_20e3
  {
    ByteByBits(0xffff_ffff, 0);
    ByteByBits(0x2dfd_1072, 0);
    ByteByBits(0xbe26_ed00, 0);
    ByteByBits(0x00be_26ed, 0);
    hide FeedByte;
  }

  /** Whatever comes before, four bytes that make the register all ones leave the same register. */
  lemma OnesRunOut()
    ensures Feed(0xffff_ffff, [0, 0, 0, 0]) == 0xdebb_20e3
  {
    ZeroBytes();
    hide FeedByte;
    FeedFour(0xffff_ffff, 0, 0, 0, 0);
  }

  /** The residue of CRC-32: any bytes followed by their own checksum, lowest byte first, have one and the same checksum. */
  lemma ChecksumOfChecked(bytes: seq<bv8>)
    ensures Checksum(bytes + LittleEndian(Checksum(bytes))) == 0x2144_df1c
  {
    var v, w := Feed(ONES, bytes), Checksum(bytes);
    assert v ^ w == 0xffff_ffff;
    hide Feed, LittleEndian;
    FeedAppend(ONES, bytes, LittleEndian(w));
    FourBytesMix(v, w);
    OnesRunOut();
  }

  lemma SameMix(v: bv32, w: bv32, v': bv32, w': bv32, rest: seq<bv8>)
    requires v ^ w == v' ^ w'
    ensures Feed(v, LittleEndian(w) + rest) == Feed(v', LittleEndian(w') + rest)
  {
    hide Feed, LittleEndian;
    FeedAppend(v, LittleEndian(w), rest);
    FeedAppend(v', LittleEndian(w'), rest);
    FourBytesMix(v, w);
    FourBytesMix(v', w');
  }

  lemma FlippedTwice(w: bv32)
    ensures ONES ^ (w ^ 0xffff_ffff) == 0 ^ w
  {}

  lemma Complemented(v: bv32)
    ensures Xor(v, ONES) == v ^ 0xffff_ffff
  {}

  lemma FlippedRun(w: bv32, flipped: bv32, rest: seq<bv8>)
    requires ONES ^ flipped == 0 ^ w
    ensures Checksum(LittleEndian(flipped) + rest) == Xor(Feed(0, LittleEndian(w) + rest), ONES)
  {
    hide Feed, LittleEndian, Xor;
    SameMix(ONES, flipped, 0, w, rest);
  }

  /** The start value: flipping all bits of the first four bytes gives the complemented register of a run that starts from zero. */
  lemma FirstBytesFlipped(w: bv32, rest: seq<bv8>)
    ensures Checksum(LittleEndian(w ^ 0xffff_ffff) + rest) == Feed(0, LittleEndian(w) + rest) ^ 0xffff_ffff
  {
    hide Feed, LittleEndian, Checksum;
    FlippedTwice(w);
    FlippedRun(w, w ^ 0xffff_ffff, rest);
    Complemented(Feed(0, LittleEndian(w) + rest));
    hide *;
  }

  lemma Next(bytes: seq<bv8>, v: bv32, byte: bv8, w: bv32, all: seq<bv8>)
    requires Feed(0xffff_ffff, bytes) == v && FeedByte(v, byte) == w && all == bytes + [byte]
    ensures Feed(0xffff_ffff, all) == w
  {
    hide Feed, FeedByte;
    FeedNext(0xffff_ffff, bytes, v, byte, all);
  }

  lemma Digits1()
    ensures FeedByte(0xffff_ffff, 0x31) == 0x7c23_1048
    ensures FeedByte(0x7c23_1048, 0x32) == 0xb0ac_bb32
    ensures FeedByte(0xb0ac_bb32, 0x33) == 0x77b7_9c2d
  {
    ByteByBits(0xffff_ffff, 0x31);
    ByteByBits(0x7c23_1048, 0x32);
    ByteByBits(0xb0ac_bb32, 0x33);
    hide FeedByte;
  }

  lemma Digits2()
    ensures FeedByte(0x77b7_9c2d, 0x34) == 0x641c_1f5c
    ensures FeedByte(0x641c_1f5c, 0x35) == 0x340a_c5e3
    ensures FeedByte(0x340a_c5e3, 0x36) == 0xf68d_2c9e
  {
    ByteByBits(0x77b7_9c2d, 0x34);
    ByteByBits(0x641c_1f5c, 0x35);
    ByteByBits(0x340a_c5e3, 0x36);
    hide FeedByte;
  }

  lemma Digits3()
    ensures FeedByte(0xf68d_2c9e, 0x37) == 0xaffc_9660
    ensures FeedByte(0xaffc_9660, 0x38) == 0x651f_2550
    ensures FeedByte(0x651f_2550, 0x39) == 0x340b_c6d9
  {
    ByteByBits(0xf68d_2c9e, 0x37);
    ByteByBits(0xaffc_9660, 0x38);
    ByteByBits(0x651f_2550, 0x39);
    hide FeedByte;
  }

  lemma RegisterAfterThree()
    ensures Feed(0xffff_ffff, [0x31, 0x32, 0x33]) == 0x77b7_9c2d
  {
    assert Feed(0xffff_ffff, []) == 0xffff_ffff;
    hide Feed, FeedByte;
    Digits1();
    Next([], 0xffff_ffff, 0x31, 0x7c23_1048, [0x31]);
    Next([0x31], 0x7c23_1048, 0x32, 0xb0ac_bb32, [0x31, 0x32]);
    Next([0x31, 0x32], 0xb0ac_bb32, 0x33, 0x77b7_9c2d, [0x31, 0x32, 0x33]);
  }

  lemma RegisterAfterSix()
    ensures Feed(0xffff_ffff, [0x31, 0x32, 0x33, 0x34, 0x35, 0x36]) == 0xf68d_2c9e
  {
    hide Feed, FeedByte;
    RegisterAfterThree();
    Digits2();
    Next([0x31, 0x32, 0x33], 0x77b7_9c2d, 0x34, 0x641c_1f5c, [0x31, 0x32, 0x33, 0x34]);
    Next([0x31, 0x32, 0x33, 0x34], 0x641c_1f5c, 0x35, 0x340a_c5e3, [0x31, 0x32, 0x33, 0x34, 0x35]);
    Next([0x31, 0x32, 0x33, 0x34, 0x35], 0x340a_c5e3, 0x36, 0xf68d_2c9e, [0x31, 0x32, 0x33, 0x34, 0x35, 0x36]);
  }

  lemma RegisterAfterNine()
    ensures Feed(0xffff_ffff, [0x31, 0x32, 0x33, 0x34, 0x35, 0x36, 0x37, 0x38, 0x39]) == 0x340b_c6d9
  {
    hide Feed, FeedByte;
    RegisterAfterSix();
    Digits3();
    Next([0x31, 0x32, 0x33, 0x34, 0x35, 0x36], 0xf68d_2c9e, 0x37, 0xaffc_9660, [0x31, 0x32, 0x33, 0x34, 0x35, 0x36, 0x37]);
    Next([0x31, 0x32, 0x33, 0x34, 0x35, 0x36, 0x37], 0xaffc_9660, 0x38, 0x651f_2550, [0x31, 0x32, 0x33, 0x34, 0x35, 0x36, 0x37, 0x38]);
    Next([0x31, 0x32, 0x33, 0x34, 0x35, 0x36, 0x37, 0x38], 0x651f_2550, 0x39, 0x340b_c6d9,
         [0x31, 0x32, 0x33, 0x34, 0x35, 0x36, 0x37, 0x38, 0x39]);
  }

  /** The check value of CRC-32: the checksum of the ASCII digits 1 to 9. */
  lemma CheckValue()
    ensures Checksum([0x31, 0x32, 0x33, 0x34, 0x35, 0x36, 0x37, 0x38, 0x39]) == 0xcbf4_3926
  {
    RegisterAfterNine();
    hide Feed;
  }
}
