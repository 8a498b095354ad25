/**
  JSON over runtime Dynamic values (runtime/hxrt/src/json.rs): the direct printer and
  parser, the tree-building printer and parser they replace, and the replacer that
  still goes through the tree.

  Text is a stream of JSON tokens: a serializer call of any integer width is one token,
  since each prints the same digits.  Object graphs are finite trees.  A finite
  f64 is an abstract code; the rounding of an integer to f64 is a parameter.
*/
module JsonDynamic {
  import opened Common

  type I32 = x: int | -0x8000_0000 <= x < 0x8000_0000
  // The integers a JSON number can hold: i64 below zero, u64 from zero on.
  type Whole = x: int | -0x8000_0000_0000_0000 <= x < 0x1_0000_0000_0000_0000
  type Code = int
  type ToF64 = int -> Code

  datatype F64 = Finite(code: Code) | NonFinite

  // The carriers a runtime Dynamic may box.
  datatype Dyn =
    | DNull
    | Boxed(inner: Dyn)
    | HxStr(hx: Option<string>)
    | RustStr(s: string)
    | Int(n: I32)
    | Float(f: F64)
    | DBool(b: bool)
    | OptInt(oi: Option<I32>)
    | OptFloat(of: Option<F64>)
    | OptBool(ob: Option<bool>)
    | OptStr(os: Option<string>)
    | OptHxStr(oh: Option<Option<string>>)
    | DynObject(object_: Record)
    | AnonObject(object_: Record)
    | DynArray(items: seq<Dyn>)
    | IntArray(ints: seq<I32>)
    | FloatArray(floats: seq<F64>)
    | BoolArray(bools: seq<bool>)
    | StrArray(strs: seq<string>)
    | HxStrArray(hxs: seq<Option<string>>)
    | AnonArray(anons: seq<Record>)
    | ObjectArray(objs: seq<Record>)
    | Other(text: string)

  // The BTreeMap behind a DynObject or an Anon.
  datatype Record = Record(fields: map<string, Dyn>)

  // serde_json::Value; a float in it is always finite.
  datatype Value =
    | Null
    | Bool(b: bool)
    | WholeNumber(n: Whole)
    | FloatNumber(code: Code)
    | Str(s: string)
    | Arr(items: seq<Value>)
    | Obj(fields: map<string, Value>)

  datatype Event =
    | EUnit | EBool(b: bool) | EInt(n: int) | EFloat(code: Code) | EStr(s: string)
    | SeqStart(len: nat) | SeqEnd | MapStart(len: nat) | Key(key: string) | MapEnd

  // ---------------------------------------------------------------- key order of a BTreeMap

  predicate Before(a: string, b: string) {
    b != [] && (a == [] || a[0] < b[0] || (a[0] == b[0] && Before(a[1..], b[1..])))
  }

  lemma {:induction false} BeforeIsTotal(a: string, b: string)
    ensures Before(a, b) || a == b || Before(b, a)
  {
    if a != [] && b != [] && a[0] == b[0] {
      BeforeIsTotal(a[1..], b[1..]);
      if a[1..] == b[1..] { assert a == [a[0]] + a[1..] == b; }
    }
  }

  /** The order, position by position: a proper prefix comes first, and otherwise the smaller character at the first difference. */
  lemma {:induction false} BeforeIff(a: string, b: string)
    ensures Before(a, b) <==>
      exists n | 0 <= n <= |a| && n < |b| :: a[..n] == b[..n] && (n == |a| || a[n] < b[n])
  {
    if a != [] && b != [] && a[0] == b[0] {
      BeforeIff(a[1..], b[1..]);
      if Before(a, b) {
        var m :| 0 <= m <= |a[1..]| && m < |b[1..]| && a[1..][..m] == b[1..][..m] && (m == |a[1..]| || a[1..][m] < b[1..][m]);
        assert a[..m + 1] == [a[0]] + a[1..][..m] && b[..m + 1] == [b[0]] + b[1..][..m];
      }
      if n :| 0 <= n <= |a| && n < |b| && a[..n] == b[..n] && (n == |a| || a[n] < b[n]) {
        assert n > 0;
        assert a[1..][..n - 1] == a[..n][1..] && b[1..][..n - 1] == b[..n][1..];
      }
    } else {
      assert a[..0] == b[..0];
      if a != [] && b != [] {
        forall n | 0 < n <= |a| && n <= |b| ensures a[..n] != b[..n] { assert a[..n][0] != b[..n][0]; }
      }
    }
  }

  lemma {:induction false} BeforeIsTransitive(a: string, b: string, c: string)
    requires Before(a, b) && Before(b, c)
    ensures Before(a, c)
  {
    if a != [] && a[0] == b[0] && b[0] == c[0] { BeforeIsTransitive(a[1..], b[1..], c[1..]); }
  }

  lemma {:induction false} HasFirst(keys: set<string>) returns (k: string)
    requires keys != {}
    ensures k in keys && forall j | j in keys :: j == k || Before(k, j)
    decreases |keys|
  {
    k :| k in keys;
    if keys != {k} {
      var m := HasFirst(keys - {k});
      BeforeIsTotal(k, m);
      if !Before(k, m) {
        k := m;
      } else {
        forall j | j in keys ensures j == k || Before(k, j) {
          if j != k && j != m { BeforeIsTransitive(k, m, j); }
        }
      }
    }
  }

  /** The keys in the order a BTreeMap yields them. */
  ghost function Keys(keys: set<string>): (r: seq<string>)
    ensures |r| == |keys| && forall k :: k in r <==> k in keys
    decreases |keys|
  {
    if keys == {} then [] else [First(keys)] + Keys(keys - {First(keys)})
  }

  predicate IsFirst(k: string, keys: set<string>) {
    k in keys && forall j | j in keys :: j == k || Before(k, j)
  }

  ghost function First(keys: set<string>): (k: string)
    requires keys != {}
    ensures IsFirst(k, keys)
  {
    assert exists k :: IsFirst(k, keys) by { var k := HasFirst(keys); assert IsFirst(k, keys); }
    var k :| IsFirst(k, keys);
    k
  }

  lemma KeysFrom(keys: set<string>)
    requires keys != {}
    ensures First(keys) in keys && Keys(keys) == [First(keys)] + Keys(keys - {First(keys)})
    ensures forall k | k in keys - {First(keys)} :: Before(First(keys), k)
  {
    hide Before;
  }

  lemma {:induction false} KeysAreOrdered(keys: set<string>, i: nat, j: nat)
    requires i < j < |keys|
    ensures Before(Keys(keys)[i], Keys(keys)[j])
    decreases |keys|
  {
    hide *;
    var first := First(keys);
    var rest := keys - {first};
    KeysFrom(keys);
    if i == 0 {
      assert Keys(rest)[j - 1] in rest;
    } else {
      KeysAreOrdered(rest, i - 1, j - 1);
    }
  }

  // ---------------------------------------------------------------- printers

  function EFloatOrUnit(f: F64): seq<Event> {
    if f.Finite? then [EFloat(f.code)] else [EUnit]
  }

  function EStrOrUnit(s: Option<string>): seq<Event> {
    if s.Some? then [EStr(s.value)] else [EUnit]
  }

  ghost function Flatten(parts: seq<seq<Event>>): seq<Event> {
    if parts == [] then [] else parts[0] + Flatten(parts[1..])
  }

  /** DynamicJson: events straight from the runtime value. */
  ghost function Direct(d: Dyn): seq<Event>
    decreases d
  {
    match d
    case DNull => [EUnit]
    case Boxed(inner) => Direct(inner)
    case HxStr(hx) => EStrOrUnit(hx)
    case RustStr(s) => [EStr(s)]
    case Int(n) => [EInt(n)]
    case Float(f) => EFloatOrUnit(f)
    case DBool(b) => [EBool(b)]
    case OptInt(oi) => if oi.Some? then [EInt(oi.value)] else [EUnit]
    case OptFloat(of) => if of.Some? then EFloatOrUnit(of.value) else [EUnit]
    case OptBool(ob) => if ob.Some? then [EBool(ob.value)] else [EUnit]
    case OptStr(os) => EStrOrUnit(os)
    case OptHxStr(oh) => if oh.Some? then EStrOrUnit(oh.value) else [EUnit]
    case DynObject(r) => DirectRecord(r)
    case AnonObject(r) => DirectRecord(r)
    case DynArray(items) => [SeqStart(|items|)] + DirectItems(items) + [SeqEnd]
    case IntArray(ints) => [SeqStart(|ints|)] + Flatten(seq(|ints|, i requires 0 <= i < |ints| => [EInt(ints[i])])) + [SeqEnd]
    case FloatArray(floats) =>
      [SeqStart(|floats|)] + Flatten(seq(|floats|, i requires 0 <= i < |floats| => EFloatOrUnit(floats[i]))) + [SeqEnd]
    case BoolArray(bools) =>
      [SeqStart(|bools|)] + Flatten(seq(|bools|, i requires 0 <= i < |bools| => [EBool(bools[i])])) + [SeqEnd]
    case StrArray(strs) => [SeqStart(|strs|)] + Flatten(seq(|strs|, i requires 0 <= i < |strs| => [EStr(strs[i])])) + [SeqEnd]
    case HxStrArray(hxs) =>
      [SeqStart(|hxs|)] + Flatten(seq(|hxs|, i requires 0 <= i < |hxs| => EStrOrUnit(hxs[i]))) + [SeqEnd]
    case AnonArray(anons) => [SeqStart(|anons|)] + DirectRecords(anons) + [SeqEnd]
    case ObjectArray(objs) => [SeqStart(|objs|)] + DirectRecords(objs) + [SeqEnd]
    case Other(text) => [EStr(text)]
  }

  ghost function DirectItems(items: seq<Dyn>): seq<Event>
    decreases items
  {
    if items == [] then [] else Direct(items[0]) + DirectItems(items[1..])
  }

  ghost function DirectFields(r: Record, keys: seq<string>): seq<Event>
    requires forall k | k in keys :: k in r.fields
    decreases r, 0, |keys|
  {
    if keys == [] then []
    else [Key(keys[0])] + Direct(r.fields[keys[0]]) + DirectFields(r, keys[1..])
  }

  ghost function DirectRecord(r: Record): seq<Event>
    decreases r, 1
  {
    [MapStart(|r.fields|)] + DirectFields(r, Keys(r.fields.Keys)) + [MapEnd]
  }

  ghost function DirectRecords(rs: seq<Record>): seq<Event>
    decreases rs
  {
    if rs == [] then [] else DirectRecord(rs[0]) + DirectRecords(rs[1..])
  }

  /** serde_json's own serialization of a tree. */
  ghost function PrintValue(v: Value): seq<Event>
    decreases v
  {
    match v
    case Null => [EUnit]
    case Bool(b) => [EBool(b)]
    case WholeNumber(n) => [EInt(n)]
    case FloatNumber(code) => [EFloat(code)]
    case Str(s) => [EStr(s)]
    case Arr(items) => [SeqStart(|items|)] + PrintItems(items) + [SeqEnd]
    case Obj(fields) => [MapStart(|fields|)] + PrintFields(v, Keys(fields.Keys)) + [MapEnd]
  }

  ghost function PrintItems(items: seq<Value>): seq<Event>
    decreases items
  {
    if items == [] then [] else PrintValue(items[0]) + PrintItems(items[1..])
  }

  ghost function PrintFields(v: Value, keys: seq<string>): seq<Event>
    requires v.Obj? && forall k | k in keys :: k in v.fields
    decreases v, 0, |keys|
  {
    if keys == [] then []
    else [Key(keys[0])] + PrintValue(v.fields[keys[0]]) + PrintFields(v, keys[1..])
  }

  // ---------------------------------------------------------------- tree building

  function FloatValue(f: F64): Value {
    if f.Finite? then FloatNumber(f.code) else Null
  }

  function StrValue(s: Option<string>): Value {
    if s.Some? then Str(s.value) else Null
  }

  /** dynamic_to_json_value. */
  function ToValue(d: Dyn): Value
    decreases d
  {
    match d
    case DNull => Null
    case Boxed(inner) => ToValue(inner)
    case HxStr(hx) => StrValue(hx)
    case RustStr(s) => Str(s)
    case Int(n) => WholeNumber(n)
    case Float(f) => FloatValue(f)
    case DBool(b) => Bool(b)
    case OptInt(oi) => if oi.Some? then WholeNumber(oi.value) else Null
    case OptFloat(of) => if of.Some? then FloatValue(of.value) else Null
    case OptBool(ob) => if ob.Some? then Bool(ob.value) else Null
    case OptStr(os) => StrValue(os)
    case OptHxStr(oh) => if oh.Some? then StrValue(oh.value) else Null
    case DynObject(r) => RecordValue(r)
    case AnonObject(r) => RecordValue(r)
    case DynArray(items) => Arr(seq(|items|, i requires 0 <= i < |items| => ToValue(items[i])))
    case IntArray(ints) => Arr(seq(|ints|, i requires 0 <= i < |ints| => WholeNumber(ints[i])))
    case FloatArray(floats) => Arr(seq(|floats|, i requires 0 <= i < |floats| => FloatValue(floats[i])))
    case BoolArray(bools) => Arr(seq(|bools|, i requires 0 <= i < |bools| => Bool(bools[i])))
    case StrArray(strs) => Arr(seq(|strs|, i requires 0 <= i < |strs| => Str(strs[i])))
    case HxStrArray(hxs) => Arr(seq(|hxs|, i requires 0 <= i < |hxs| => StrValue(hxs[i])))
    case AnonArray(anons) => Arr(seq(|anons|, i requires 0 <= i < |anons| => RecordValue(anons[i])))
    case ObjectArray(objs) => Arr(seq(|objs|, i requires 0 <= i < |objs| => RecordValue(objs[i])))
    case Other(text) => Str(text)
  }

  function RecordValue(r: Record): Value
    decreases r
  {
    Obj(map k | k in r.fields :: ToValue(r.fields[k]))
  }

  // ---------------------------------------------------------------- direct printing refines the tree path

  lemma {:induction false} FlatItems(parts: seq<seq<Event>>, vs: seq<Value>)
    requires |parts| == |vs| && forall i | 0 <= i < |vs| :: parts[i] == PrintValue(vs[i])
    ensures Flatten(parts) == PrintItems(vs)
  {
    hide PrintValue;
    if vs != [] { FlatItems(parts[1..], vs[1..]); }
  }

  lemma {:induction false} SameItems(items: seq<Dyn>, vs: seq<Value>)
    requires |items| == |vs| && forall i | 0 <= i < |vs| :: Direct(items[i]) == PrintValue(vs[i])
    ensures DirectItems(items) == PrintItems(vs)
  {
    hide PrintValue, Direct;
    if vs != [] { SameItems(items[1..], vs[1..]); }
  }

  lemma {:induction false} SameRecords(rs: seq<Record>, vs: seq<Value>)
    requires |rs| == |vs| && forall i | 0 <= i < |vs| :: DirectRecord(rs[i]) == PrintValue(vs[i])
    ensures DirectRecords(rs) == PrintItems(vs)
  {
    hide PrintValue, DirectRecord;
    if vs != [] { SameRecords(rs[1..], vs[1..]); }
  }

  lemma {:induction false} SameFields(r: Record, v: Value, keys: seq<string>)
    requires v.Obj? && v.fields.Keys == r.fields.Keys
    requires forall k | k in r.fields :: Direct(r.fields[k]) == PrintValue(v.fields[k])
    requires forall k | k in keys :: k in r.fields
    ensures DirectFields(r, keys) == PrintFields(v, keys)
  {
    hide PrintValue, Direct;
    if keys != [] { SameFields(r, v, keys[1..]); }
  }

  lemma {:induction false} DirectRecordIsTree(r: Record)
    ensures DirectRecord(r) == PrintValue(RecordValue(r))
    decreases r
  {
    var v := RecordValue(r);
    assert v.fields.Keys == r.fields.Keys;
    forall k | k in r.fields ensures Direct(r.fields[k]) == PrintValue(v.fields[k]) { DirectIsTree(r.fields[k]); }
    SameFields(r, v, Keys(r.fields.Keys));
    assert |v.fields| == |v.fields.Keys| == |r.fields.Keys| == |r.fields|;
  }

  /**
    Direct serialization prints exactly the text that printing the rebuilt tree prints,
    for every value: null strings, non-finite floats, each optional and
    array carrier, nested Dynamic and the fallback for unknown values.
  */
  lemma {:induction false} DirectIsTree(d: Dyn)
    ensures Direct(d) == PrintValue(ToValue(d))
    decreases d
  {
    hide Direct, PrintValue, ToValue;
    match d
    case Boxed(inner) => DirectIsTree(inner); BoxIsTree(d);
    case DynObject(r) => DirectRecordIsTree(r); ObjectIsTree(d, r);
    case AnonObject(r) => DirectRecordIsTree(r); ObjectIsTree(d, r);
    case DynArray(items) => ItemsAreTrees(d);
    case AnonArray(rs) => RecordsAreTrees(d, rs); RecordArrayIsTree(d, rs);
    case ObjectArray(rs) => RecordsAreTrees(d, rs); RecordArrayIsTree(d, rs);
    case _ => if IsFlatArray(d) { FlatArrayIsTree(d); } else { ScalarIsTree(d); }
  }

  lemma BoxIsTree(d: Dyn)
    requires d.Boxed? && Direct(d.inner) == PrintValue(ToValue(d.inner))
    ensures Direct(d) == PrintValue(ToValue(d))
  { }

  lemma ObjectIsTree(d: Dyn, r: Record)
    requires d == DynObject(r) || d == AnonObject(r)
    requires DirectRecord(r) == PrintValue(RecordValue(r))
    ensures Direct(d) == PrintValue(ToValue(d))
  {
    hide DirectRecord, RecordValue, PrintValue;
  }

  lemma RecordArrayIsTree(d: Dyn, rs: seq<Record>)
    requires d == AnonArray(rs) || d == ObjectArray(rs)
    requires DirectRecords(rs) == PrintItems(ToValue(d).items) && |ToValue(d).items| == |rs|
    ensures Direct(d) == PrintValue(ToValue(d))
  {
    hide DirectRecords, PrintItems;
  }

  lemma ScalarIsTree(d: Dyn)
    requires !IsFlatArray(d) && !d.Boxed? && !d.DynObject? && !d.AnonObject? && !d.DynArray? && !d.AnonArray? && !d.ObjectArray?
    ensures Direct(d) == PrintValue(ToValue(d))
  { }

  predicate IsFlatArray(d: Dyn) {
    d.IntArray? || d.FloatArray? || d.BoolArray? || d.StrArray? || d.HxStrArray?
  }

  lemma FlatArrayIsTree(d: Dyn)
    requires IsFlatArray(d)
    ensures Direct(d) == PrintValue(ToValue(d))
  {
    match d
    case IntArray(ints) => FlatItems(seq(|ints|, i requires 0 <= i < |ints| => [EInt(ints[i])]), ToValue(d).items);
    case FloatArray(floats) =>
      FlatItems(seq(|floats|, i requires 0 <= i < |floats| => EFloatOrUnit(floats[i])), ToValue(d).items);
    case BoolArray(bools) => FlatItems(seq(|bools|, i requires 0 <= i < |bools| => [EBool(bools[i])]), ToValue(d).items);
    case StrArray(strs) => FlatItems(seq(|strs|, i requires 0 <= i < |strs| => [EStr(strs[i])]), ToValue(d).items);
    case HxStrArray(hxs) => FlatItems(seq(|hxs|, i requires 0 <= i < |hxs| => EStrOrUnit(hxs[i])), ToValue(d).items);
  }

  lemma {:induction false} ItemsAreTrees(d: Dyn)
    requires d.DynArray?
    ensures Direct(d) == PrintValue(ToValue(d))
    decreases d, 0
  {
    var items := d.items;
    forall i | 0 <= i < |items| ensures Direct(items[i]) == PrintValue(ToValue(items[i])) { DirectIsTree(items[i]); }
    SameItems(items, ToValue(d).items);
  }

  lemma {:induction false} RecordsAreTrees(d: Dyn, rs: seq<Record>)
    requires (d.AnonArray? && d.anons == rs) || (d.ObjectArray? && d.objs == rs)
    ensures DirectRecords(rs) == PrintItems(ToValue(d).items) && |ToValue(d).items| == |rs|
    decreases d, 0
  {
    forall i | 0 <= i < |rs| ensures DirectRecord(rs[i]) == PrintValue(RecordValue(rs[i])) { DirectRecordIsTree(rs[i]); }
    SameRecords(rs, ToValue(d).items);
  }

  // ---------------------------------------------------------------- parsers

  // What serde_json's deserializer presents: integers split by sign, members in document order.
  datatype Json =
    | JUnit | JBool(b: bool)
    | JI64(i: Whole)      // visit_i64
    | JU64(u: Whole)      // visit_u64
    | JF64(code: Code)
    | JStr(s: string)
    | JSeq(items: seq<Json>)
    | JMap(members: seq<Member>)

  datatype Member = Member(key: string, value: Json)

  predicate FitsI32(n: int) { -0x8000_0000 <= n < 0x8000_0000 }

  predicate FitsI64(n: int) { -0x8000_0000_0000_0000 <= n < 0x8000_0000_0000_0000 }

  function NumberFromI64(n: int, toF64: ToF64): Dyn {
    if n >= -0x8000_0000 && n <= 0x7fff_ffff then Int(n) else Float(Finite(toF64(n)))
  }

  function NumberFromU64(n: int, toF64: ToF64): Dyn {
    if 0 <= n <= 0x7fff_ffff then Int(n) else Float(Finite(toF64(n)))
  }

  /** ParsedDynamicVisitor: runtime shapes straight from the text. */
  function Parse(j: Json, toF64: ToF64): Dyn
    decreases j
  {
    match j
    case JUnit => DNull
    case JBool(b) => DBool(b)
    case JI64(i) => NumberFromI64(i, toF64)
    case JU64(u) => NumberFromU64(u, toF64)
    case JF64(code) => Float(Finite(code))
    case JStr(s) => RustStr(s)
    case JSeq(items) => DynArray(seq(|items|, i requires 0 <= i < |items| => Parse(items[i], toF64)))
    case JMap(members) => DynObject(Record(ParseMembers(members, toF64)))
  }

  /** Each member is set in turn: the last one of a key stays. */
  function ParseMembers(members: seq<Member>, toF64: ToF64): map<string, Dyn>
    decreases members
  {
    if members == [] then map[]
    else
      var last := members[|members| - 1];
      ParseMembers(members[..|members| - 1], toF64)[last.key := Parse(last.value, toF64)]
  }

  /** serde_json's Value from the same text. */
  function ParseTree(j: Json): Value
    decreases j
  {
    match j
    case JUnit => Null
    case JBool(b) => Bool(b)
    case JI64(i) => WholeNumber(i)
    case JU64(u) => WholeNumber(u)
    case JF64(code) => FloatNumber(code)
    case JStr(s) => Str(s)
    case JSeq(items) => Arr(seq(|items|, i requires 0 <= i < |items| => ParseTree(items[i])))
    case JMap(members) => Obj(TreeMembers(members))
  }

  function TreeMembers(members: seq<Member>): map<string, Value>
    decreases members
  {
    if members == [] then map[]
    else
      var last := members[|members| - 1];
      TreeMembers(members[..|members| - 1])[last.key := ParseTree(last.value)]
  }

  /** json_value_to_dynamic: as_i64 first, then as_u64, then as_f64. */
  function ToDyn(v: Value, toF64: ToF64): Dyn
    decreases v
  {
    match v
    case Null => DNull
    case Bool(b) => DBool(b)
    case WholeNumber(n) =>
      if FitsI64(n) then (if FitsI32(n) then Int(n) else Float(Finite(toF64(n))))
      else if n <= 0x7fff_ffff then Int(n) else Float(Finite(toF64(n)))
    case FloatNumber(code) => Float(Finite(code))
    case Str(s) => RustStr(s)
    case Arr(items) => DynArray(seq(|items|, i requires 0 <= i < |items| => ToDyn(items[i], toF64)))
    case Obj(fields) => DynObject(Record(map k | k in fields :: ToDyn(fields[k], toF64)))
  }

  /** The deserializer calls visit_i64 below zero and visit_u64 from zero on. */
  predicate Signs(j: Json)
    decreases j
  {
    match j
    case JI64(i) => i < 0
    case JU64(u) => u >= 0
    case JSeq(items) => forall x | x in items :: Signs(x)
    case JMap(members) => forall m | m in members :: Signs(m.value)
    case _ => true
  }

  /** Direct parsing builds exactly the value that the tree path builds: the i32/f64 split, and the last of equal keys. */
  lemma {:induction false} ParseIsTree(j: Json, toF64: ToF64)
    requires Signs(j)
    ensures Parse(j, toF64) == ToDyn(ParseTree(j), toF64)
    decreases j
  {
    match j
    case JSeq(items) =>
      forall i | 0 <= i < |items| ensures Parse(items[i], toF64) == ToDyn(ParseTree(items[i]), toF64) {
        ParseIsTree(items[i], toF64);
      }
    case JMap(members) => MembersAreTree(members, toF64);
    case _ =>
  }

  lemma {:induction false} MembersAreTree(members: seq<Member>, toF64: ToF64)
    requires forall m | m in members :: Signs(m.value)
    ensures var t := TreeMembers(members); ParseMembers(members, toF64) == map k | k in t :: ToDyn(t[k], toF64)
    decreases members
  {
    if members != [] {
      MembersAreTree(members[..|members| - 1], toF64);
      ParseIsTree(members[|members| - 1].value, toF64);
    }
  }

  // ---------------------------------------------------------------- normalisation

  /** Every whole number in the tree fits an i32. */
  predicate SmallWholes(v: Value)
    decreases v
  {
    match v
    case WholeNumber(n) => FitsI32(n)
    case Arr(items) => forall x | x in items :: SmallWholes(x)
    case Obj(fields) => forall k | k in fields :: SmallWholes(fields[k])
    case _ => true
  }

  /** Printing back what was parsed restores a tree exactly when its whole numbers fit an i32; a larger one comes back as a float. */
  lemma {:induction false} TreeSurvivesIff(v: Value, toF64: ToF64)
    ensures ToValue(ToDyn(v, toF64)) == v <==> SmallWholes(v)
    decreases v
  {
    match v
    case Arr(items) =>
      var back := ToValue(ToDyn(v, toF64)).items;
      forall i | 0 <= i < |items| ensures back[i] == items[i] <==> SmallWholes(items[i]) { TreeSurvivesIff(items[i], toF64); }
      if Arr(back) == v { assert forall i | 0 <= i < |items| :: back[i] == items[i]; }
    case Obj(fields) =>
      var r := ToDyn(v, toF64).object_;
      assert ToValue(ToDyn(v, toF64)) == RecordValue(r);
      var back := RecordValue(r).fields;
      assert back.Keys == fields.Keys;
      forall k | k in fields ensures back[k] == fields[k] <==> SmallWholes(fields[k]) { TreeSurvivesIff(fields[k], toF64); }
      if Obj(back) == v { assert forall k | k in fields :: back[k] == fields[k]; }
    case _ =>
  }

  lemma {:induction false} TreesAreSmall(d: Dyn)
    ensures SmallWholes(ToValue(d))
    decreases d
  {
    match d
    case Boxed(inner) => TreesAreSmall(inner);
    case DynObject(r) => RecordsAreSmall(r);
    case AnonObject(r) => RecordsAreSmall(r);
    case DynArray(items) => forall x | x in items { TreesAreSmall(x); }
    case AnonArray(rs) => forall r | r in rs { RecordsAreSmall(r); }
    case ObjectArray(rs) => forall r | r in rs { RecordsAreSmall(r); }
    case _ =>
  }

  lemma {:induction false} RecordsAreSmall(r: Record)
    ensures SmallWholes(RecordValue(r))
    decreases r
  {
    forall k | k in r.fields { TreesAreSmall(r.fields[k]); }
  }

  /** The reflection-friendly shape stringify_with_replacer starts from. */
  function Normalized(d: Dyn, toF64: ToF64): Dyn {
    ToDyn(ToValue(d), toF64)
  }

  /** Normalising changes nothing that is printed, and normalising again changes nothing at all. */
  lemma NormalisingIsIdempotent(d: Dyn, toF64: ToF64)
    ensures ToValue(Normalized(d, toF64)) == ToValue(d)
    ensures Normalized(Normalized(d, toF64), toF64) == Normalized(d, toF64)
    ensures Direct(Normalized(d, toF64)) == Direct(d)
  {
    TreesAreSmall(d);
    TreeSurvivesIff(ToValue(d), toF64);
    DirectIsTree(d);
    DirectIsTree(Normalized(d, toF64));
  }

  // ---------------------------------------------------------------- replacer

  type Replacer = (string, Dyn) -> Dyn

  predicate HasChildren(d: Dyn) {
    d.Boxed? || d.DynObject? || d.AnonObject? || d.DynArray?
  }

  function Decimal(n: nat): string {
    if n < 10 then [('0' as int + n) as char] else Decimal(n / 10) + [('0' as int + n % 10) as char]
  }

  /** The values that are replaced next below an answer, each with its key. */
  ghost function Parts(key: string, answer: Dyn): set<(string, Dyn)> {
    match answer
    case Boxed(inner) => {(key, inner)}
    case DynObject(r) => set k | k in r.fields :: (k, r.fields[k])
    case AnonObject(r) => set k | k in r.fields :: (k, r.fields[k])
    case DynArray(items) => set i | 0 <= i < |items| :: (Decimal(i), items[i])
    case _ => {}
  }

  /** The replacer's calls on this value nest less than n deep. */
  ghost predicate EndsWithin(n: nat, key: string, d: Dyn, replacer: Replacer) {
    n > 0 && forall p | p in Parts(key, replacer(key, d)) :: EndsWithin(n - 1, p.0, p.1, replacer)
  }

  /** The replacer may put larger values in the place of smaller ones; all that is asked is that the recursion ends. */
  ghost predicate Ends(key: string, d: Dyn, replacer: Replacer) {
    exists n: nat :: EndsWithin(n, key, d, replacer)
  }

  ghost function Depth(key: string, d: Dyn, replacer: Replacer): (n: nat)
    requires Ends(key, d, replacer)
    ensures EndsWithin(n, key, d, replacer) && forall m: nat | EndsWithin(m, key, d, replacer) :: n <= m
  {
    var bound: nat :| EndsWithin(bound, key, d, replacer);
    DepthUpTo(bound, key, d, replacer)
  }

  ghost function DepthUpTo(bound: nat, key: string, d: Dyn, replacer: Replacer): (n: nat)
    requires EndsWithin(bound, key, d, replacer)
    ensures EndsWithin(n, key, d, replacer) && forall m: nat | EndsWithin(m, key, d, replacer) :: n <= m
  {
    if exists m: nat :: m < bound && EndsWithin(m, key, d, replacer) then
      var m: nat :| m < bound && EndsWithin(m, key, d, replacer);
      DepthUpTo(m, key, d, replacer)
    else bound
  }

  lemma {:induction false} EndsWithinMore(n: nat, m: nat, key: string, d: Dyn, replacer: Replacer)
    requires n <= m && EndsWithin(n, key, d, replacer)
    ensures EndsWithin(m, key, d, replacer)
  {
    forall p | p in Parts(key, replacer(key, d)) ensures EndsWithin(m - 1, p.0, p.1, replacer) {
      EndsWithinMore(n - 1, m - 1, p.0, p.1, replacer);
    }
  }

  /** Finitely many values that each end have one bound. */
  lemma {:induction false} CommonBound(parts: set<(string, Dyn)>, replacer: Replacer) returns (n: nat)
    requires forall p | p in parts :: Ends(p.0, p.1, replacer)
    ensures forall p | p in parts :: EndsWithin(n, p.0, p.1, replacer)
  {
    n := 0;
    if parts != {} {
      var p :| p in parts;
      var most := CommonBound(parts - {p}, replacer);
      var here: nat :| EndsWithin(here, p.0, p.1, replacer);
      n := if here <= most then most else here;
      forall q | q in parts ensures EndsWithin(n, q.0, q.1, replacer) {
        EndsWithinMore(if q == p then here else most, n, q.0, q.1, replacer);
      }
    }
  }

  /** Replacing a value ends exactly when it ends for every field and item of the answer. */
  lemma EndsIff(key: string, d: Dyn, replacer: Replacer)
    ensures Ends(key, d, replacer) <==> forall p | p in Parts(key, replacer(key, d)) :: Ends(p.0, p.1, replacer)
  {
    var parts := Parts(key, replacer(key, d));
    if forall p | p in parts :: Ends(p.0, p.1, replacer) {
      var n := CommonBound(parts, replacer);
      assert EndsWithin(n + 1, key, d, replacer);
    }
    if n: nat :| EndsWithin(n, key, d, replacer) {
      forall p | p in parts ensures Ends(p.0, p.1, replacer) { assert EndsWithin(n - 1, p.0, p.1, replacer); }
    }
  }

  lemma PartEnds(key: string, d: Dyn, replacer: Replacer, p: (string, Dyn))
    requires Ends(key, d, replacer) && p in Parts(key, replacer(key, d))
    ensures Ends(p.0, p.1, replacer) && Depth(p.0, p.1, replacer) < Depth(key, d, replacer)
  {
    assert EndsWithin(Depth(key, d, replacer) - 1, p.0, p.1, replacer);
  }

  ghost predicate Below(key: string, d: Dyn, replacer: Replacer, depth: nat) {
    Ends(key, d, replacer) && Depth(key, d, replacer) < depth
  }

  lemma PartsEnd(key: string, d: Dyn, replacer: Replacer)
    requires Ends(key, d, replacer)
    ensures var r, n := replacer(key, d), Depth(key, d, replacer);
      && (r.Boxed? ==> Below(key, r.inner, replacer, n))
      && (r.DynObject? || r.AnonObject? ==> forall k | k in r.object_.fields :: Below(k, r.object_.fields[k], replacer, n))
      && (r.DynArray? ==> forall i | 0 <= i < |r.items| :: Below(Decimal(i), r.items[i], replacer, n))
  {
    hide Depth, Ends;
    var r := replacer(key, d);
    if r.Boxed? {
      PartEnds(key, d, replacer, (key, r.inner));
    } else if r.DynObject? || r.AnonObject? {
      forall k | k in r.object_.fields { PartEnds(key, d, replacer, (k, r.object_.fields[k])); }
    } else if r.DynArray? {
      forall i | 0 <= i < |r.items| { PartEnds(key, d, replacer, (Decimal(i), r.items[i])); }
    }
  }

  /** apply_json_replacer: replace first, then descend into what came back. */
  function Apply(key: string, d: Dyn, replacer: Replacer): Dyn
    requires Ends(key, d, replacer)
    decreases Depth(key, d, replacer)
  {
    PartsEnd(key, d, replacer);
    match replacer(key, d)
    case Boxed(inner) => Apply(key, inner, replacer)
    case DynObject(r) => DynObject(Record(map k | k in r.fields :: Apply(k, r.fields[k], replacer)))
    case AnonObject(r) => AnonObject(Record(map k | k in r.fields :: Apply(k, r.fields[k], replacer)))
    case DynArray(items) => DynArray(seq(|items|, i requires 0 <= i < |items| => Apply(Decimal(i), items[i], replacer)))
    case answer => answer
  }

  /** The replacer keeps a value, picks a part of it, or puts a leaf in its place. */
  ghost predicate Tame(replacer: Replacer) {
    forall key, d :: replacer(key, d) == d || replacer(key, d) < d || !HasChildren(replacer(key, d))
  }

  /** Such a replacer ends on every value. */
  lemma {:induction false} TameEnds(key: string, d: Dyn, replacer: Replacer)
    requires Tame(replacer)
    ensures Ends(key, d, replacer)
    decreases d
  {
    EndsIff(key, d, replacer);
    var r := replacer(key, d);
    assert r == d || r < d || !HasChildren(r);
    hide Ends;
    match r
    case Boxed(inner) => TameEnds(key, inner, replacer);
    case DynObject(o) => TameEndsFields(o, replacer);
    case AnonObject(o) => TameEndsFields(o, replacer);
    case DynArray(items) =>
      forall i | 0 <= i < |items| { TameEnds(Decimal(i), items[i], replacer); }
    case _ =>
  }

  lemma {:induction false} TameEndsFields(r: Record, replacer: Replacer)
    requires Tame(replacer)
    ensures forall k | k in r.fields :: Ends(k, r.fields[k], replacer)
    decreases r
  {
    forall k | k in r.fields { TameEnds(k, r.fields[k], replacer); }
  }

  /** Values without end: each is a part of the answer for the one before. */
  ghost predicate EndlessFrom(chain: nat -> (string, Dyn), key: string, d: Dyn, replacer: Replacer) {
    && chain(0) == (key, d)
    && forall i: nat :: chain(i + 1) in Parts(chain(i).0, replacer(chain(i).0, chain(i).1))
  }

  ghost function Chain(i: nat, key: string, d: Dyn, replacer: Replacer): (p: (string, Dyn))
    requires !Ends(key, d, replacer)
    ensures !Ends(p.0, p.1, replacer)
  {
    if i == 0 then (key, d)
    else
      var before := Chain(i - 1, key, d, replacer);
      EndsIff(before.0, before.1, replacer);
      var p :| p in Parts(before.0, replacer(before.0, before.1)) && !Ends(p.0, p.1, replacer);
      p
  }

  lemma {:induction false} ChainIsEndless(n: nat, i: nat, chain: nat -> (string, Dyn), key: string, d: Dyn, replacer: Replacer)
    requires EndlessFrom(chain, key, d, replacer)
    ensures !EndsWithin(n, chain(i).0, chain(i).1, replacer)
  {
    if n > 0 { ChainIsEndless(n - 1, i + 1, chain, key, d, replacer); }
  }

  /** Replacing a value ends exactly when no answer has a part whose answer has a part, and so on without end. */
  lemma EndsIffNoChain(key: string, d: Dyn, replacer: Replacer)
    ensures Ends(key, d, replacer) <==> !exists chain :: EndlessFrom(chain, key, d, replacer)
  {
    if !Ends(key, d, replacer) {
      var chain := (i: nat) => Chain(i, key, d, replacer);
      assert EndlessFrom(chain, key, d, replacer);
    }
    forall chain | EndlessFrom(chain, key, d, replacer) ensures !Ends(key, d, replacer) {
      forall n: nat { ChainIsEndless(n, 0, chain, key, d, replacer); }
    }
  }

  function Wrap(): Replacer { (_, d) => DynArray([d]) }

  /** A replacer that wraps every value in an array ends on none. */
  lemma WrappingNeverEnds(key: string, d: Dyn)
    ensures !Ends(key, d, Wrap())
  {
    var chain := (i: nat) => (if i == 0 then key else "0", d);
    assert Decimal(0) == "0";
    forall i: nat ensures chain(i + 1) in Parts(chain(i).0, Wrap()(chain(i).0, chain(i).1)) {
      assert DynArray([d]).items[0] == d;
    }
    assert EndlessFrom(chain, key, d, Wrap());
    EndsIffNoChain(key, d, Wrap());
  }

  ghost predicate IsIdentity(replacer: Replacer) {
    forall key, d :: replacer(key, d) == d
  }

  /** No boxed value below the JSON containers. */
  predicate Plain(d: Dyn)
    decreases d
  {
    match d
    case Boxed(_) => false
    case DynObject(r) => forall k | k in r.fields :: Plain(r.fields[k])
    case AnonObject(r) => forall k | k in r.fields :: Plain(r.fields[k])
    case DynArray(items) => forall x | x in items :: Plain(x)
    case _ => true
  }

  lemma {:induction false} IdentityKeepsPlain(key: string, d: Dyn, replacer: Replacer)
    requires IsIdentity(replacer) && Plain(d)
    ensures Ends(key, d, replacer) && Apply(key, d, replacer) == d
    decreases d
  {
    TameEnds(key, d, replacer);
    AnswerIsTaken(key, d, replacer);
    var a := Apply(key, d, replacer);
    hide Apply, Ends;
    match d
    case DynObject(r) => IdentityKeepsFields(r, replacer); assert a.object_.fields == r.fields;
    case AnonObject(r) => IdentityKeepsFields(r, replacer); assert a.object_.fields == r.fields;
    case DynArray(items) =>
      forall i | 0 <= i < |items| ensures a.items[i] == items[i] { IdentityKeepsPlain(Decimal(i), items[i], replacer); }
    case _ =>
  }

  lemma {:induction false} IdentityKeepsFields(r: Record, replacer: Replacer)
    requires IsIdentity(replacer) && forall k | k in r.fields :: Plain(r.fields[k])
    ensures forall k | k in r.fields :: Ends(k, r.fields[k], replacer) && Apply(k, r.fields[k], replacer) == r.fields[k]
    decreases r
  {
    hide Apply, Ends;
    forall k | k in r.fields { IdentityKeepsPlain(k, r.fields[k], replacer); }
  }

  lemma {:induction false} ParsedIsPlain(v: Value, toF64: ToF64)
    ensures Plain(ToDyn(v, toF64))
    decreases v
  {
    match v
    case Arr(items) => forall x | x in items { ParsedIsPlain(x, toF64); }
    case Obj(fields) => forall k | k in fields { ParsedIsPlain(fields[k], toF64); }
    case _ =>
  }

  /** stringify_with_replacer, up to the tokens printed. */
  ghost function StringifyWith(d: Dyn, replacer: Replacer, toF64: ToF64): seq<Event>
    requires Ends("", Normalized(d, toF64), replacer)
  {
    Direct(Apply("", Normalized(d, toF64), replacer))
  }

  /** With a replacer that changes nothing, the slow path through trees prints what the direct path prints. */
  lemma IdentityReplacerPrintsTheSame(d: Dyn, replacer: Replacer, toF64: ToF64)
    requires IsIdentity(replacer)
    ensures Ends("", Normalized(d, toF64), replacer)
    ensures StringifyWith(d, replacer, toF64) == Direct(d)
  {
    ParsedIsPlain(ToValue(d), toF64);
    IdentityKeepsPlain("", Normalized(d, toF64), replacer);
    NormalisingIsIdempotent(d, toF64);
  }

  // ---------------------------------------------------------------- replacers that change something

  /** The number a decimal text stands for. */
  function ReadDecimal(t: string): nat {
    if t == [] then 0
    else 10 * ReadDecimal(t[..|t| - 1]) + if '0' <= t[|t| - 1] <= '9' then t[|t| - 1] as int - '0' as int else 0
  }

  /** An index as a key: its decimal digits, which read back as the index, with no zero in front. */
  lemma {:induction false} DecimalReadsBack(n: nat)
    ensures var t := Decimal(n);
      && ReadDecimal(t) == n && t != [] && (forall c | c in t :: '0' <= c <= '9') && (t[0] == '0' ==> n == 0)
  {
    if n >= 10 {
      DecimalReadsBack(n / 10);
      var t := Decimal(n);
      assert t[..|t| - 1] == Decimal(n / 10);
    } else {
      assert Decimal(n)[..0] == [];
    }
  }

  /**
    One call on one value.  The replacer's answer is taken: without children it is the result,
    and otherwise the result has its fields or items, each replaced under its own name or index.
  */
  lemma AnswerIsTaken(key: string, d: Dyn, replacer: Replacer)
    requires Ends(key, d, replacer)
    ensures var r, a := replacer(key, d), Apply(key, d, replacer);
      && (!HasChildren(r) ==> a == r)
      && (r.DynObject? ==> a.DynObject?) && (r.AnonObject? ==> a.AnonObject?) && (r.DynArray? ==> a.DynArray?)
      && (r.DynObject? || r.AnonObject? ==>
            && a.object_.fields.Keys == r.object_.fields.Keys
            && forall k | k in r.object_.fields ::
                 Ends(k, r.object_.fields[k], replacer) && a.object_.fields[k] == Apply(k, r.object_.fields[k], replacer))
      && (r.DynArray? ==>
            && |a.items| == |r.items|
            && forall i | 0 <= i < |r.items| ::
                 Ends(Decimal(i), r.items[i], replacer) && a.items[i] == Apply(Decimal(i), r.items[i], replacer))
      && (r.Boxed? ==> Ends(key, r.inner, replacer) && a == Apply(key, r.inner, replacer))
  {
    PartsEnd(key, d, replacer);
    hide Ends, Depth, Decimal;
  }

  /** A replacer that keeps objects and arrays, and puts leaf(key, d) in the place of every other value. */
  ghost predicate ReplacesLeaves(replacer: Replacer, leaf: Replacer) {
    forall key, d :: replacer(key, d) == (if HasChildren(d) then d else leaf(key, d)) && !HasChildren(leaf(key, d))
  }

  /** The tree with every leaf replaced: a field goes by its name, an item by its index, the root by "". */
  function WithLeaves(key: string, v: Value, leaf: Replacer, toF64: ToF64): Value
    decreases v
  {
    match v
    case Arr(items) => Arr(seq(|items|, i requires 0 <= i < |items| => WithLeaves(Decimal(i), items[i], leaf, toF64)))
    case Obj(fields) => Obj(map k | k in fields :: WithLeaves(k, fields[k], leaf, toF64))
    case _ => ToValue(leaf(key, ToDyn(v, toF64)))
  }

  lemma ScalarHasNoChildren(v: Value, toF64: ToF64)
    requires !v.Arr? && !v.Obj?
    ensures !HasChildren(ToDyn(v, toF64))
  { }

  lemma {:induction false} LeavesOfArray(key: string, v: Value, replacer: Replacer, leaf: Replacer, toF64: ToF64)
    requires ReplacesLeaves(replacer, leaf) && v.Arr?
    ensures Ends(key, ToDyn(v, toF64), replacer)
    ensures ToValue(Apply(key, ToDyn(v, toF64), replacer)) == WithLeaves(key, v, leaf, toF64)
    decreases v, 0
  {
    var d := ToDyn(v, toF64);
    TameEnds(key, d, replacer);
    AnswerIsTaken(key, d, replacer);
    var a := Apply(key, d, replacer);
    assert replacer(key, d) == d;
    hide Apply, Ends, ReplacesLeaves, Decimal;
    forall i | 0 <= i < |v.items| ensures ToValue(a.items[i]) == WithLeaves(Decimal(i), v.items[i], leaf, toF64) {
      LeavesAreReplaced(Decimal(i), v.items[i], replacer, leaf, toF64);
    }
  }

  lemma {:induction false} LeavesOfObject(key: string, v: Value, replacer: Replacer, leaf: Replacer, toF64: ToF64)
    requires ReplacesLeaves(replacer, leaf) && v.Obj?
    ensures Ends(key, ToDyn(v, toF64), replacer)
    ensures ToValue(Apply(key, ToDyn(v, toF64), replacer)) == WithLeaves(key, v, leaf, toF64)
    decreases v, 0
  {
    FieldsOfAnswer(key, v, replacer, leaf, toF64);
    hide Apply, Ends, ReplacesLeaves, ToValue, WithLeaves, ToDyn;
    var a := Apply(key, ToDyn(v, toF64), replacer);
    FieldsWithLeaves(key, v, leaf, toF64);
    var w := WithLeaves(key, v, leaf, toF64);
    ObjectValue(a);
    forall k | k in v.fields ensures ToValue(a.object_.fields[k]) == w.fields[k] {
      LeavesAreReplaced(k, v.fields[k], replacer, leaf, toF64);
    }
    assert ToValue(a).fields == w.fields;
  }

  lemma FieldsOfAnswer(key: string, v: Value, replacer: Replacer, leaf: Replacer, toF64: ToF64)
    requires ReplacesLeaves(replacer, leaf) && v.Obj?
    ensures Ends(key, ToDyn(v, toF64), replacer)
    ensures var a := Apply(key, ToDyn(v, toF64), replacer);
      && a.DynObject? && a.object_.fields.Keys == v.fields.Keys
      && forall k | k in v.fields ::
           Ends(k, ToDyn(v.fields[k], toF64), replacer) && a.object_.fields[k] == Apply(k, ToDyn(v.fields[k], toF64), replacer)
  {
    var d := ToDyn(v, toF64);
    TameEnds(key, d, replacer);
    AnswerIsTaken(key, d, replacer);
    assert replacer(key, d) == d;
    hide Apply, Ends, ReplacesLeaves;
  }

  lemma ObjectValue(a: Dyn)
    requires a.DynObject?
    ensures var v := ToValue(a);
      v.Obj? && v.fields.Keys == a.object_.fields.Keys && forall k | k in v.fields :: v.fields[k] == ToValue(a.object_.fields[k])
  {
    assert ToValue(a) == RecordValue(a.object_);
  }

  lemma {:induction false} LeavesAreReplaced(key: string, v: Value, replacer: Replacer, leaf: Replacer, toF64: ToF64)
    requires ReplacesLeaves(replacer, leaf)
    ensures Ends(key, ToDyn(v, toF64), replacer)
    ensures ToValue(Apply(key, ToDyn(v, toF64), replacer)) == WithLeaves(key, v, leaf, toF64)
    decreases v, 1
  {
    if v.Arr? {
      LeavesOfArray(key, v, replacer, leaf, toF64);
    } else if v.Obj? {
      LeavesOfObject(key, v, replacer, leaf, toF64);
    } else {
      ScalarHasNoChildren(v, toF64);
      TameEnds(key, ToDyn(v, toF64), replacer);
      AnswerIsTaken(key, ToDyn(v, toF64), replacer);
    }
  }

  /** With a replacer of leaves, what is printed is the tree with its leaves replaced. */
  lemma LeafReplacerPrints(d: Dyn, replacer: Replacer, leaf: Replacer, toF64: ToF64)
    requires ReplacesLeaves(replacer, leaf)
    ensures Ends("", Normalized(d, toF64), replacer)
    ensures StringifyWith(d, replacer, toF64) == PrintValue(WithLeaves("", ToValue(d), leaf, toF64))
  {
    LeavesAreReplaced("", ToValue(d), replacer, leaf, toF64);
    DirectIsTree(Apply("", Normalized(d, toF64), replacer));
    hide Direct, PrintValue, Apply, WithLeaves;
  }

  /** A replacer whose answer for the root has no children prints that answer alone. */
  lemma RootAnswerPrints(d: Dyn, replacer: Replacer, toF64: ToF64)
    requires !HasChildren(replacer("", Normalized(d, toF64)))
    ensures Ends("", Normalized(d, toF64), replacer)
    ensures StringifyWith(d, replacer, toF64) == Direct(replacer("", Normalized(d, toF64)))
  {
    EndsIff("", Normalized(d, toF64), replacer);
    AnswerIsTaken("", Normalized(d, toF64), replacer);
    hide Direct, Apply, Ends;
  }

  lemma KeysOfTwo()
    ensures Keys({"a", "b"}) == ["a", "b"]
  {
    var ks := {"a", "b"};
    KeysFrom(ks);
    KeysFrom({"b"});
    assert Before("a", "b") && !Before("b", "a");
    assert First(ks) == "a" && ks - {"a"} == {"b"} && First({"b"}) == "b" && {"b"} - {"b"} == {};
    assert Keys({}) == [];
  }

  lemma TwoFieldsPrint(p: string, q: string)
    ensures PrintValue(Obj(map["a" := Str(p), "b" := Str(q)])) == [MapStart(2), Key("a"), EStr(p), Key("b"), EStr(q), MapEnd]
  {
    var v := Obj(map["a" := Str(p), "b" := Str(q)]);
    assert v.fields.Keys == {"a", "b"};
    KeysOfTwo();
    hide Keys;
    var ks, last := ["a", "b"], ["b"];
    assert ks[1..] == last && last[1..] == [];
    assert PrintFields(v, last) == [Key("b"), EStr(q)];
    assert PrintFields(v, ks) == [Key("a"), EStr(p)] + [Key("b"), EStr(q)];
    assert |v.fields| == |v.fields.Keys| == 2;
  }

  function KeyOf(): Replacer { (key, _) => RustStr(key) }

  /** The replacer that puts its key in the place of every leaf. */
  function KeysForLeaves(): Replacer { (key, d) => if HasChildren(d) then d else RustStr(key) }

  lemma KeysReplaceLeaves()
    ensures ReplacesLeaves(KeysForLeaves(), KeyOf())
  { }

  /** It prints the name beside each field. */
  lemma NamesArePrinted(d: Dyn, toF64: ToF64)
    requires ToValue(d).Obj? && ToValue(d).fields.Keys == {"a", "b"}
    requires forall v | v in ToValue(d).fields.Values :: !v.Arr? && !v.Obj?
    ensures Ends("", Normalized(d, toF64), KeysForLeaves())
    ensures StringifyWith(d, KeysForLeaves(), toF64) == [MapStart(2), Key("a"), EStr("a"), Key("b"), EStr("b"), MapEnd]
  {
    KeysReplaceLeaves();
    LeafReplacerPrints(d, KeysForLeaves(), KeyOf(), toF64);
    hide StringifyWith, Ends, ReplacesLeaves, PrintValue, KeysForLeaves;
    var v := ToValue(d);
    assert v.fields["a"] in v.fields.Values && v.fields["b"] in v.fields.Values;
    hide ToValue;
    NamesForLeaves(v, toF64);
    TwoFieldsPrint("a", "b");
  }

  lemma NamesForLeaves(v: Value, toF64: ToF64)
    requires v.Obj? && v.fields.Keys == {"a", "b"}
    requires forall k | k in v.fields :: !v.fields[k].Arr? && !v.fields[k].Obj?
    ensures WithLeaves("", v, KeyOf(), toF64) == Obj(map["a" := Str("a"), "b" := Str("b")])
  {
    FieldsWithLeaves("", v, KeyOf(), toF64);
    LeafIsKey("a", v.fields["a"], toF64);
    LeafIsKey("b", v.fields["b"], toF64);
    hide WithLeaves;
    assert WithLeaves("", v, KeyOf(), toF64).fields == map["a" := Str("a"), "b" := Str("b")];
  }

  lemma FieldsWithLeaves(key: string, v: Value, leaf: Replacer, toF64: ToF64)
    requires v.Obj?
    ensures var w := WithLeaves(key, v, leaf, toF64);
      w.Obj? && w.fields.Keys == v.fields.Keys && forall k | k in v.fields :: w.fields[k] == WithLeaves(k, v.fields[k], leaf, toF64)
  { }

  lemma LeafIsKey(key: string, v: Value, toF64: ToF64)
    requires !v.Arr? && !v.Obj?
    ensures WithLeaves(key, v, KeyOf(), toF64) == Str(key)
  { }

  /** And the index in the place of each item. */
  lemma IndicesArePrinted(d: Dyn, toF64: ToF64)
    requires ToValue(d).Arr? && |ToValue(d).items| == 2 && forall v | v in ToValue(d).items :: !v.Arr? && !v.Obj?
    ensures Ends("", Normalized(d, toF64), KeysForLeaves())
    ensures StringifyWith(d, KeysForLeaves(), toF64) == [SeqStart(2), EStr("0"), EStr("1"), SeqEnd]
  {
    KeysReplaceLeaves();
    LeafReplacerPrints(d, KeysForLeaves(), KeyOf(), toF64);
    hide StringifyWith, Ends, ReplacesLeaves, PrintValue, KeysForLeaves;
    var v := ToValue(d);
    assert v.items[0] in v.items && v.items[1] in v.items;
    hide ToValue;
    IndicesForLeaves(v, toF64);
    TwoItemsPrint();
  }

  lemma IndicesForLeaves(v: Value, toF64: ToF64)
    requires v.Arr? && |v.items| == 2
    requires !v.items[0].Arr? && !v.items[0].Obj? && !v.items[1].Arr? && !v.items[1].Obj?
    ensures WithLeaves("", v, KeyOf(), toF64) == Arr([Str("0"), Str("1")])
  {
    LeafIsKey("0", v.items[0], toF64);
    LeafIsKey("1", v.items[1], toF64);
    assert Decimal(0) == "0" && Decimal(1) == "1";
    assert WithLeaves("", v, KeyOf(), toF64).items == [Str("0"), Str("1")];
  }

  lemma TwoItemsPrint()
    ensures PrintValue(Arr([Str("0"), Str("1")])) == [SeqStart(2), EStr("0"), EStr("1"), SeqEnd]
  {
    var both, one := [Str("0"), Str("1")], [Str("1")];
    assert both[1..] == one && one[1..] == [];
    assert PrintItems(one) == [EStr("1")];
    assert PrintItems(both) == [EStr("0"), EStr("1")];
  }

  // ---------------------------------------------------------------- the loops of the parsers

  method VisitSeq(items: seq<Json>, toF64: ToF64) returns (out: seq<Dyn>)
    ensures DynArray(out) == Parse(JSeq(items), toF64)
  {
    out := [];
    var i := 0;
    while i < |items|
      invariant 0 <= i <= |items| && |out| == i
      invariant forall k | 0 <= k < i :: out[k] == Parse(items[k], toF64)
    {
      out := out + [Parse(items[i], toF64)];
      i := i + 1;
    }
  }

  method VisitMap(members: seq<Member>, toF64: ToF64) returns (out: map<string, Dyn>)
    ensures DynObject(Record(out)) == Parse(JMap(members), toF64)
  {
    out := map[];
    var i := 0;
    while i < |members|
      invariant 0 <= i <= |members|
      invariant out == ParseMembers(members[..i], toF64)
    {
      assert members[..i + 1][..i] == members[..i];
      out := out[members[i].key := Parse(members[i].value, toF64)];
      i := i + 1;
    }
    assert members[..i] == members;
  }

  method JsonValueToDynamic(v: Value, toF64: ToF64) returns (d: Dyn)
    ensures d == ToDyn(v, toF64)
    decreases v
  {
    match v
    case Arr(items) => d := ItemsToDynamic(items, toF64);
    case Obj(_) => d := MembersToDynamic(v, toF64);
    case _ => d := ToDyn(v, toF64);
  }

  method ItemsToDynamic(items: seq<Value>, toF64: ToF64) returns (d: Dyn)
    ensures d == ToDyn(Arr(items), toF64)
    decreases items
  {
    hide ToDyn;
    var out: seq<Dyn> := [];
    var i := 0;
    while i < |items|
      invariant 0 <= i <= |items| && |out| == i
      invariant forall k | 0 <= k < i :: out[k] == ToDyn(items[k], toF64)
    {
      var item := JsonValueToDynamic(items[i], toF64);
      out := out + [item];
      i := i + 1;
    }
    d := DynArray(out);
    ItemsOf(items, out, toF64);
  }

  lemma ItemsOf(items: seq<Value>, out: seq<Dyn>, toF64: ToF64)
    requires |out| == |items| && forall k | 0 <= k < |items| :: out[k] == ToDyn(items[k], toF64)
    ensures ToDyn(Arr(items), toF64) == DynArray(out)
  {}

  method MembersToDynamic(v: Value, toF64: ToF64) returns (d: Dyn)
    requires v.Obj?
    ensures d == ToDyn(v, toF64)
    decreases v, 0
  {
    hide ToDyn;
    var out: map<string, Dyn> := map[];
    var left := v.fields.Keys;
    while left != {}
      invariant left <= v.fields.Keys && out.Keys == v.fields.Keys - left
      invariant forall k | k in out :: out[k] == ToDyn(v.fields[k], toF64)
      decreases |left|
    {
      var k :| k in left;
      var field := JsonValueToDynamic(v.fields[k], toF64);
      out, left := out[k := field], left - {k};
    }
    d := DynObject(Record(out));
    MembersOf(v, out, toF64);
  }

  lemma MembersOf(v: Value, out: map<string, Dyn>, toF64: ToF64)
    requires v.Obj? && out.Keys == v.fields.Keys && forall k | k in out :: out[k] == ToDyn(v.fields[k], toF64)
    ensures ToDyn(v, toF64) == DynObject(Record(out))
  {
    assert (map k | k in v.fields :: ToDyn(v.fields[k], toF64)) == out;
  }
}
