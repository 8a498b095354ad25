/**
  The little-endian fields and the records of the ZIP32 files that
  scripts/release/deterministic-zip.js writes (PKWARE APPNOTE, sections 4.3.7, 4.3.12
  and 4.3.16).
*/
module ZipFormat {
  import opened Common

  type Octets = seq<bv8>

  datatype Field = F16(value: int) | F32(value: int)

  predicate Fits(f: Field) {
    0 <= f.value < (if f.F16? then 0x1_0000 else 0x1_0000_0000)
  }

  function Width(f: Field): nat { if f.F16? then 2 else 4 }

  /** The octet with value n. */
  function ToByte(n: int): (b: bv8)
    requires 0 <= n < 256
    ensures b as int == n
  {
    if n == 0 then 0
    else
      var half := ToByte(n / 2);
      SmallByte(half);
      Doubled(half);
      if n % 2 == 1 then (half << 1) | 1 else half << 1
  }

  lemma SmallByte(x: bv8)
    ensures x as int < 128 ==> x < 128
  {}

  lemma Doubled(x: bv8)
    requires x < 128
    ensures (x << 1) as int == 2 * (x as int) && ((x << 1) | 1) as int == 2 * (x as int) + 1
  {
    DoubledPlusOne(x << 1);
  }

  lemma DoubledPlusOne(x: bv8)
    ensures x & 1 == 0 ==> (x | 1) as int == (x as int) + 1
  {}

  function Byte(n: int, k: nat): bv8
    requires 0 <= n
  {
    if k == 0 then ToByte(n % 256) else Byte(n / 256, k - 1)
  }

  function Print(f: Field): Octets
    requires Fits(f)
  {
    if f.F16? then [Byte(f.value, 0), Byte(f.value, 1)]
    else [Byte(f.value, 0), Byte(f.value, 1), Byte(f.value, 2), Byte(f.value, 3)]
  }

  /** readUInt16LE and readUInt32LE; callers stay in bounds. */
  function U16(b: Octets, at: nat): nat
    requires at + 2 <= |b|
  {
    (b[at] as int) + 256 * (b[at + 1] as int)
  }

  function U32(b: Octets, at: nat): nat
    requires at + 4 <= |b|
  {
    (b[at] as int) + 256 * ((b[at + 1] as int) + 256 * ((b[at + 2] as int) + 256 * (b[at + 3] as int)))
  }

  function Read(f: Field, b: Octets, at: nat): nat
    requires at + Width(f) <= |b|
  {
    if f.F16? then U16(b, at) else U32(b, at)
  }

  lemma BytesOf(n: int)
    requires 0 <= n
    ensures (Byte(n, 0) as int) == n % 256 && (Byte(n, 1) as int) == n / 256 % 256
    ensures (Byte(n, 2) as int) == n / 256 / 256 % 256 && (Byte(n, 3) as int) == n / 256 / 256 / 256 % 256
  {
    assert Byte(n, 1) == Byte(n / 256, 0);
    assert Byte(n, 2) == Byte(n / 256, 1) == Byte(n / 256 / 256, 0);
    assert Byte(n, 3) == Byte(n / 256, 2) == Byte(n / 256 / 256, 1) == Byte(n / 256 / 256 / 256, 0);
  }

  lemma Recombine(n: int)
    requires 0 <= n < 0x1_0000_0000
    ensures n == n % 256 + 256 * (n / 256 % 256 + 256 * (n / 256 / 256 % 256 + 256 * (n / 256 / 256 / 256 % 256)))
    ensures n < 0x1_0000 ==> n == n % 256 + 256 * (n / 256 % 256)
  {
    var a := n / 256;
    var b := a / 256;
    assert n == n % 256 + 256 * a && a == a % 256 + 256 * b && b == b % 256 + 256 * (b / 256);
  }

  lemma PrintThenRead(f: Field, before: Octets, after: Octets)
    requires Fits(f)
    ensures Read(f, before + Print(f) + after, |before|) == f.value
  {
    var b, n, k := before + Print(f) + after, f.value, |before|;
    BytesOf(n);
    Recombine(n);
    hide Byte;
    assert b[k] == Byte(n, 0) && b[k + 1] == Byte(n, 1);
    if f.F32? { assert b[k + 2] == Byte(n, 2) && b[k + 3] == Byte(n, 3); }
  }

  // ---------------------------------------------------------------- sequences of fields

  predicate AllFit(fs: seq<Field>) {
    forall f | f in fs :: Fits(f)
  }

  function Size(fs: seq<Field>): nat {
    if fs == [] then 0 else Size(fs[..|fs| - 1]) + Width(fs[|fs| - 1])
  }

  function Pack(fs: seq<Field>): (r: Octets)
    requires AllFit(fs)
    ensures |r| == Size(fs)
  {
    if fs == [] then [] else Pack(fs[..|fs| - 1]) + Print(fs[|fs| - 1])
  }

  lemma PackSnoc(fs: seq<Field>, f: Field)
    requires AllFit(fs) && Fits(f)
    ensures AllFit(fs + [f]) && Pack(fs + [f]) == Pack(fs) + Print(f) && Size(fs + [f]) == Size(fs) + Width(f)
  {
    assert (fs + [f])[..|fs|] == fs;
  }

  /** Every field of a packed record can be read back where it was written. */
  lemma {:induction false} PackThenRead(fs: seq<Field>, i: nat, before: Octets, after: Octets)
    requires AllFit(fs) && i < |fs|
    ensures Size(fs[..i]) + Width(fs[i]) <= Size(fs)
    ensures Read(fs[i], before + Pack(fs) + after, |before| + Size(fs[..i])) == fs[i].value
    decreases |fs|
  {
    hide Read, Print, Fits;
    var front, last := fs[..|fs| - 1], fs[|fs| - 1];
    if i == |front| {
      PrintThenRead(last, before + Pack(front), after);
      assert before + Pack(fs) + after == (before + Pack(front)) + Print(last) + after;
    } else {
      PackThenRead(front, i, before, Print(last) + after);
      assert front[..i] == fs[..i];
      assert before + Pack(fs) + after == before + Pack(front) + (Print(last) + after);
    }
  }

  // ---------------------------------------------------------------- writing in place

  method WriteUInt16LE(a: array<bv8>, value: int, at: nat)
    requires at + 2 <= a.Length && Fits(F16(value))
    modifies a
    ensures a[..at + 2] == old(a[..at]) + Print(F16(value))
  {
    a[at] := ToByte(value % 256);
    a[at + 1] := ToByte(value / 256 % 256);
    assert Byte(value, 1) == Byte(value / 256, 0);
  }

  method WriteUInt32LE(a: array<bv8>, value: int, at: nat)
    requires at + 4 <= a.Length && Fits(F32(value))
    modifies a
    ensures a[..at + 4] == old(a[..at]) + Print(F32(value))
  {
    hide ToByte;
    a[at] := ToByte(value % 256);
    a[at + 1] := ToByte(value / 256 % 256);
    a[at + 2] := ToByte(value / 256 / 256 % 256);
    a[at + 3] := ToByte(value / 256 / 256 / 256 % 256);
    assert Byte(value, 1) == Byte(value / 256, 0);
    assert Byte(value, 2) == Byte(value / 256, 1) == Byte(value / 256 / 256, 0);
    assert Byte(value, 3) == Byte(value / 256, 2) == Byte(value / 256 / 256, 1) == Byte(value / 256 / 256 / 256, 0);
  }
}
