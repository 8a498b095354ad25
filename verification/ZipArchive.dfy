/**
  The canonical ZIP writer of scripts/release/deterministic-zip.js and the
  independent reader of scripts/release/verify-release-artifact.js.
*/
module ZipArchive {
  import opened Common
  import opened ZipFormat
  import Crc32

  // A JavaScript string: UTF-16 code units.
  type Unit = x: int | 0 <= x < 0x1_0000
  type Name = seq<Unit>

  // What the platform provides: UTF-8 in both directions, raw DEFLATE in both directions.
  datatype Codec = Codec(
    encode: Name -> Octets,
    text: Octets -> Name,
    deflate: Octets -> Octets,
    inflate: Octets -> Option<Octets>)

  const UTF8_FLAG := 0x0800
  const DEFLATE_METHOD := 8
  const DOS_DATE := 10273           // 2000-01-01
  const FILE_ATTRIBUTES := 33188 * 0x1_0000
  const LOCAL_SIGNATURE := 0x04034b50
  const CENTRAL_SIGNATURE := 0x02014b50
  const END_SIGNATURE := 0x06054b50

  datatype SourceFile = SourceFile(name: Name, bytes: Octets)

  datatype Entry = Entry(name: Octets, bytes: Octets, compressed: Octets, crc: int, offset: nat)

  // ---------------------------------------------------------------- entry names

  const SLASH: Unit := 47
  const DOT: Unit := 46

  function Segments(n: Name): seq<Name> {
    if n == [] then [[]]
    else
      var rest := Segments(n[1..]);
      if n[0] == SLASH then [[]] + rest else [[n[0]] + rest[0]] + rest[1..]
  }

  predicate IsLetter(u: Unit) { 65 <= u <= 90 || 97 <= u <= 122 }

  /** validateEntryNames for one name; normalisation changes no name that passes the other tests. */
  predicate SafeName(n: Name) {
    && n != [] && 0 !in n && 92 !in n && n[0] != SLASH && n[|n| - 1] != SLASH
    && !(|n| >= 2 && IsLetter(n[0]) && n[1] == 58)
    && (forall s | s in Segments(n) :: s != [] && s != [DOT] && s != [DOT, DOT])
  }

  predicate Distinct(names: seq<Name>) {
    forall i, j | 0 <= i < j < |names| :: names[i] != names[j]
  }

  // ---------------------------------------------------------------- writer

  function LocalFields(e: Entry): seq<Field> {
    [F32(LOCAL_SIGNATURE), F16(20), F16(UTF8_FLAG), F16(DEFLATE_METHOD), F16(0), F16(DOS_DATE),
     F32(e.crc), F32(|e.compressed|), F32(|e.bytes|), F16(|e.name|), F16(0)]
  }

  function CentralFields(e: Entry): seq<Field> {
    [F32(CENTRAL_SIGNATURE), F16(3 * 256 + 20), F16(20), F16(UTF8_FLAG), F16(DEFLATE_METHOD), F16(0), F16(DOS_DATE),
     F32(e.crc), F32(|e.compressed|), F32(|e.bytes|), F16(|e.name|), F16(0), F16(0), F16(0), F16(0),
     F32(FILE_ATTRIBUTES), F32(e.offset)]
  }

  function EndFields(count: int, size: int, offset: int): seq<Field> {
    [F32(END_SIGNATURE), F16(0), F16(0), F16(count), F16(count), F32(size), F32(offset), F16(0)]
  }

  /** The numbers of an entry fit their ZIP32 fields. */
  predicate EntryFits(e: Entry) {
    && |e.bytes| < 0xffff_ffff && |e.compressed| < 0xffff_ffff && |e.name| < 0x1_0000
    && 0 <= e.crc < 0x1_0000_0000 && e.offset < 0xffff_ffff
  }

  function LocalHeader(e: Entry): Octets
    requires EntryFits(e)
  {
    Pack(LocalFields(e)) + e.name
  }

  function CentralHeader(e: Entry): Octets
    requires EntryFits(e)
  {
    Pack(CentralFields(e)) + e.name
  }

  predicate AllEntriesFit(es: seq<Entry>) {
    forall e | e in es :: EntryFits(e)
  }

  function Locals(es: seq<Entry>): Octets
    requires AllEntriesFit(es)
  {
    if es == [] then []
    else Locals(es[..|es| - 1]) + LocalHeader(es[|es| - 1]) + es[|es| - 1].compressed
  }

  function Centrals(es: seq<Entry>): Octets
    requires AllEntriesFit(es)
  {
    if es == [] then [] else Centrals(es[..|es| - 1]) + CentralHeader(es[|es| - 1])
  }

  /** Each entry starts where the entries before it end. */
  predicate Placed(es: seq<Entry>)
    requires AllEntriesFit(es)
  {
    forall i | 0 <= i < |es| :: es[i].offset == |Locals(es[..i])|
  }

  /** The entries can be laid out as ZIP32. */
  predicate Fitting(es: seq<Entry>) {
    && |es| < 0xffff && AllEntriesFit(es) && Placed(es)
    && |Locals(es)| < 0xffff_ffff && |Centrals(es)| < 0xffff_ffff
  }

  function Archive(es: seq<Entry>): Octets
    requires Fitting(es)
  {
    Locals(es) + Centrals(es) + Pack(EndFields(|es|, |Centrals(es)|, |Locals(es)|))
  }

  // ---------------------------------------------------------------- reader

  datatype Central = Central(
    name: Name, flags: int, method_: int, crc: int, compressedSize: int, uncompressedSize: int,
    localOffset: nat, unixMode: int)

  datatype ZipError =
    | EndMissing | Zip64 | BadCentral | NotUtf8 | UnsafeEntry | Encrypted | BadMethod | Symlink | BadMode
    | BadCentralSize | DuplicateEntry | BadLocal | Contradiction | CannotInflate | BadChecksum

  /** Buffer.subarray clamps its bounds. */
  function Sub(b: Octets, from: nat, to: nat): Octets
    requires from <= to
  {
    if from > |b| then [] else b[from..if to <= |b| then to else |b|]
  }

  function ScanEnd(b: Octets, at: int, minimum: nat): (r: Result<nat, ZipError>)
    requires at + 22 <= |b|
    ensures r.Ok? ==> minimum <= r.value <= at && U32(b, r.value) == END_SIGNATURE
                      && forall k | r.value < k <= at :: U32(b, k) != END_SIGNATURE
    decreases at + 1
  {
    if at < minimum then Err(EndMissing)
    else if U32(b, at) == END_SIGNATURE then Ok(at)
    else ScanEnd(b, at - 1, minimum)
  }

  function FindEnd(b: Octets): (r: Result<nat, ZipError>)
    ensures r.Ok? ==> r.value + 22 <= |b| && U32(b, r.value) == END_SIGNATURE
  {
    ScanEnd(b, |b| - 22, if |b| < 65557 then 0 else |b| - 65557)
  }

  predicate EncryptedFlag(flags: nat) { flags % 2 == 1 }

  predicate LinkMode(mode: nat) { mode / 4096 % 16 == 10 }

  predicate ReleaseMode(mode: nat) { mode % 512 == 420 }

  function HighHalf(n: nat): nat { n / 0x1_0000 }

  /** One central header, and where it ends. */
  function ReadCentral(b: Octets, at: nat, codec: Codec): Result<(Central, nat), ZipError> {
    hide U16, U32, HighHalf, LinkMode, ReleaseMode, EncryptedFlag, SafeName;
    if at + 46 > |b| || U32(b, at) != CENTRAL_SIGNATURE then Err(BadCentral)
    else
      var flags, mode, nameEnd := U16(b, at + 8), HighHalf(U32(b, at + 38)), at + 46 + U16(b, at + 28);
      var nameBytes := Sub(b, at + 46, nameEnd);
      var name := codec.text(nameBytes);
      if codec.encode(name) != nameBytes then Err(NotUtf8)
      else if !SafeName(name) then Err(UnsafeEntry)
      else if EncryptedFlag(flags) then Err(Encrypted)
      else if U16(b, at + 10) != 0 && U16(b, at + 10) != 8 then Err(BadMethod)
      else if LinkMode(mode) then Err(Symlink)
      else if !ReleaseMode(mode) then Err(BadMode)
      else
        Ok((Central(name, flags, U16(b, at + 10), U32(b, at + 16), U32(b, at + 20), U32(b, at + 24),
                    U32(b, at + 42), mode),
            nameEnd + U16(b, at + 30) + U16(b, at + 32)))
  }

  function ReadCentrals(b: Octets, at: nat, count: nat, codec: Codec): Result<(seq<Central>, nat), ZipError>
    decreases count
  {
    if count == 0 then Ok(([], at))
    else match ReadCentral(b, at, codec)
      case Err(e) => Err(e)
      case Ok((c, next)) =>
        match ReadCentrals(b, next, count - 1, codec)
        case Err(e) => Err(e)
        case Ok((cs, end)) => Ok(([c] + cs, end))
  }

  function Names(cs: seq<Central>): seq<Name> {
    seq(|cs|, i requires 0 <= i < |cs| => cs[i].name)
  }

  function CentralDirectory(b: Octets, codec: Codec): Result<seq<Central>, ZipError> {
    match FindEnd(b)
    case Err(e) => Err(e)
    case Ok(end) =>
      var count, size, offset := U16(b, end + 10), U32(b, end + 12), U32(b, end + 16);
      if count == 0xffff || size == 0xffff_ffff || offset == 0xffff_ffff then Err(Zip64)
      else match ReadCentrals(b, offset, count, codec)
        case Err(e) => Err(e)
        case Ok((cs, at)) =>
          if at != offset + size then Err(BadCentralSize)
          else if !Distinct(Names(cs)) then Err(DuplicateEntry)
          else Ok(cs)
  }

  function DecodeOne(b: Octets, c: Central, codec: Codec): Result<Octets, ZipError>
  {
    var at := c.localOffset;
    if at + 30 > |b| || U32(b, at) != LOCAL_SIGNATURE then Err(BadLocal)
    else
      var nameEnd := at + 30 + U16(b, at + 26);
      var dataStart := nameEnd + U16(b, at + 28);
      var dataEnd := dataStart + U32(b, at + 18);
      if || U16(b, at + 6) != c.flags || U16(b, at + 8) != c.method_ || U32(b, at + 14) != c.crc
         || U32(b, at + 18) != c.compressedSize || U32(b, at + 22) != c.uncompressedSize
         || dataEnd > |b| || codec.text(Sub(b, at + 30, nameEnd)) != c.name
      then Err(Contradiction)
      else
        var data := Sub(b, dataStart, dataEnd);
        var bytes := if c.method_ == 0 then Some(data) else if c.method_ == 8 then codec.inflate(data) else None;
        if bytes.None? then Err(CannotInflate)
        else if |bytes.value| != c.uncompressedSize || Crc32.Number(bytes.value) != c.crc then Err(BadChecksum)
        else Ok(bytes.value)
  }

  function DecodeAll(b: Octets, cs: seq<Central>, codec: Codec): Result<map<Name, Octets>, ZipError> {
    if cs == [] then Ok(map[])
    else match DecodeAll(b, cs[..|cs| - 1], codec)
      case Err(e) => Err(e)
      case Ok(files) =>
        match DecodeOne(b, cs[|cs| - 1], codec)
        case Err(e) => Err(e)
        case Ok(bytes) => Ok(files[cs[|cs| - 1].name := bytes])
  }
}
