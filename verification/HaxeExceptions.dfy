/**
  Haxe exceptions over Rust panics (runtime/hxrt/src/exception.rs): a thread-local
  id, payload slot and nesting counter implement throw, catch and rethrow.

  `Runtime` runs a small language of nested catches on those thread-locals; `Eval`
  is its meaning with ordinary structured exceptions.
*/
module HaxeExceptions {
  import opened Common

  const ID_LIMIT: int := 0x1_0000_0000_0000_0000
  const MAX_DEPTH: int := 0xffff_ffff

  type U64 = x: int | 0 <= x < ID_LIMIT
  type U32 = x: int | 0 <= x <= MAX_DEPTH
  type Dynamic = int

  // What std::panic carries.  A Haxe throw carries its id; a foreign panic may carry any u64 as well.
  datatype Payload = Number(id: U64) | Text(s: string)

  datatype Expr =
    | Val(v: Dynamic)
    | Caught(k: nat)                                             // the value bound by the k-th enclosing handler
    | Both(first: Expr, second: Expr)
    | IfEqual(test: Expr, v: Dynamic, yes: Expr, no: Expr)
    | Throw(value: Expr)
    | Rethrow(k: nat)
    | TryCatch(body: Expr, handler: Expr)
    | ForeignPanic(payload: Payload)

  function Lookup(env: seq<Dynamic>, k: nat): Dynamic {
    if k < |env| then env[k] else 0
  }

  // ---------------------------------------------------------------- structured exceptions

  datatype Result = Value(v: Dynamic) | Thrown(v: Dynamic) | Panicked(payload: Payload)

  // A panic that was raised: by a Haxe throw or not, and inside how many catches.
  datatype Raised = Raised(haxe: bool, level: nat)

  // The result, the values that handlers received, the panics raised, and how deep catches were nested.
  datatype Meaning = Meaning(result: Result, received: seq<Dynamic>, raised: seq<Raised>, nesting: nat)

  function Max(a: nat, b: nat): nat { if a < b then b else a }

  /** `m` happened first, `n` after it. */
  function After(m: Meaning, n: Meaning): Meaning {
    Meaning(n.result, m.received + n.received, m.raised + n.raised, Max(m.nesting, n.nesting))
  }

  /** The meaning of `e` below `level` catches. */
  function Eval(e: Expr, env: seq<Dynamic>, level: nat): Meaning
    decreases e
  {
    match e
    case Val(v) => Meaning(Value(v), [], [], 0)
    case Caught(k) => Meaning(Value(Lookup(env, k)), [], [], 0)
    case Both(a, b) =>
      var m := Eval(a, env, level);
      if m.result.Value? then After(m, Eval(b, env, level)) else m
    case IfEqual(test, v, yes, no) =>
      var m := Eval(test, env, level);
      if m.result.Value? then After(m, if m.result.v == v then Eval(yes, env, level) else Eval(no, env, level)) else m
    case Throw(value) =>
      var m := Eval(value, env, level);
      if m.result.Value? then After(m, Meaning(Thrown(m.result.v), [], [Raised(true, level)], 0)) else m
    case Rethrow(k) => Meaning(Thrown(Lookup(env, k)), [], [Raised(true, level)], 0)
    case ForeignPanic(p) => Meaning(Panicked(p), [], [Raised(false, level)], 0)
    case TryCatch(body, handler) =>
      var m := Eval(body, env, level + 1);
      var tried := m.(nesting := m.nesting + 1);
      if m.result.Thrown? then
        After(tried.(received := m.received + [m.result.v]), Eval(handler, [m.result.v] + env, level))
      else tried
  }

  // ---------------------------------------------------------------- the thread-local machine

  // `printed` and `received` record what the panic hook and the handlers were given.
  datatype Locals = Locals(
    nextId: U64,
    activeId: U64,
    payload: Option<Dynamic>,
    depth: U32,
    printed: seq<bool>,
    received: seq<Dynamic>)

  datatype Outcome = Normal(v: Dynamic) | Panic(payload: Payload)

  /** The panic hook: silent for the active Haxe id inside a catch. */
  predicate Suppressed(s: Locals, p: Payload) {
    s.depth > 0 && p.Number? && p.id == s.activeId && s.activeId != 0
  }

  function Raise(s: Locals, p: Payload): Locals {
    s.(printed := s.printed + [!Suppressed(s, p)])
  }

  function ThrowStep(s: Locals, v: Dynamic): (Locals, Outcome) {
    var id := s.nextId;
    var s' := s.(nextId := (id + 1) % ID_LIMIT, activeId := id, payload := Some(v));
    (Raise(s', Number(id)), Panic(Number(id)))
  }

  function EnterCatch(s: Locals): Locals {
    s.(depth := if s.depth == MAX_DEPTH then MAX_DEPTH else s.depth + 1)
  }

  function LeaveCatch(s: Locals): Locals {
    s.(depth := if s.depth > 0 then s.depth - 1 else 0)
  }

  /** What catch_unwind does with a panic: the caught value, or None to resume unwinding. */
  function Examine(s: Locals, p: Payload): (Locals, Option<Dynamic>) {
    if p.Number? && p.id == s.activeId then (s.(payload := None, activeId := 0), s.payload) else (s, None)
  }

  function Exec(e: Expr, env: seq<Dynamic>, s: Locals): (Locals, Outcome)
    decreases e
  {
    match e
    case Val(v) => (s, Normal(v))
    case Caught(k) => (s, Normal(Lookup(env, k)))
    case Both(a, b) =>
      var (s1, o) := Exec(a, env, s);
      if o.Normal? then Exec(b, env, s1) else (s1, o)
    case IfEqual(test, v, yes, no) =>
      var (s1, o) := Exec(test, env, s);
      if o.Panic? then (s1, o) else if o.v == v then Exec(yes, env, s1) else Exec(no, env, s1)
    case Throw(value) =>
      var (s1, o) := Exec(value, env, s);
      if o.Normal? then ThrowStep(s1, o.v) else (s1, o)
    case Rethrow(k) => ThrowStep(s, Lookup(env, k))
    case ForeignPanic(p) => (Raise(s, p), Panic(p))
    case TryCatch(body, handler) =>
      var (s1, o) := Exec(body, env, EnterCatch(s));
      if o.Normal? then (LeaveCatch(s1), o)
      else
        var (s2, found) := Examine(s1, o.payload);
        if found.Some? then
          var s3 := LeaveCatch(s2);
          Exec(handler, [found.value] + env, s3.(received := s3.received + [found.value]))
        else (LeaveCatch(s2), o)
  }

  /** The thread-locals themselves, changed in place. */
  class Runtime {
    var nextId: U64
    var activeId: U64
    var payload: Option<Dynamic>
    var depth: U32
    ghost var printed: seq<bool>
    ghost var received: seq<Dynamic>

    constructor ()
      ensures State() == Locals(1, 0, None, 0, [], [])
    {
      nextId, activeId, payload, depth, printed, received := 1, 0, None, 0, [], [];
    }

    ghost function State(): Locals
      reads this
    {
      Locals(nextId, activeId, payload, depth, printed, received)
    }

    method PanicHook(p: Payload)
      modifies this`printed
      ensures State() == Raise(old(State()), p)
    {
      var silent := depth > 0 && p.Number? && p.id == activeId && activeId != 0;
      printed := printed + [!silent];
    }

    method ThrowValue(v: Dynamic) returns (o: Outcome)
      modifies this
      ensures (State(), o) == ThrowStep(old(State()), v)
    {
      var id := nextId;
      nextId := (id + 1) % ID_LIMIT;
      activeId := id;
      payload := Some(v);
      PanicHook(Number(id));
      return Panic(Number(id));
    }

    method Run(e: Expr, env: seq<Dynamic>) returns (o: Outcome)
      modifies this
      ensures (State(), o) == Exec(e, env, old(State()))
      decreases e
    {
      match e
      case Val(v) => return Normal(v);
      case Caught(k) => return Normal(Lookup(env, k));
      case Both(a, b) =>
        o := Run(a, env);
        if o.Normal? { o := Run(b, env); }
      case IfEqual(test, v, yes, no) =>
        o := Run(test, env);
        if o.Normal? {
          if o.v == v { o := Run(yes, env); } else { o := Run(no, env); }
        }
      case Throw(value) =>
        o := Run(value, env);
        if o.Normal? { o := ThrowValue(o.v); }
      case Rethrow(k) => o := ThrowValue(Lookup(env, k));
      case ForeignPanic(p) =>
        PanicHook(p);
        return Panic(p);
      case TryCatch(body, handler) =>
        depth := if depth == MAX_DEPTH then MAX_DEPTH else depth + 1;
        o := Run(body, env);
        var caught: Option<Dynamic> := None;
        if o.Panic? && o.payload.Number? && o.payload.id == activeId {
          caught := payload;
          payload := None;
          activeId := 0;
        }
        depth := if depth > 0 then depth - 1 else 0;
        if caught.Some? {
          received := received + [caught.value];
          o := Run(handler, [caught.value] + env);
        }
    }
  }

  // ---------------------------------------------------------------- refinement

  /** No Haxe exception is on its way. */
  predicate Idle(s: Locals) { s.activeId == 0 && s.payload == None }

  /** The machine's outcome stands for the structured result. */
  predicate Represents(s: Locals, o: Outcome, r: Result) {
    match r
    case Value(v) => o == Normal(v) && Idle(s)
    case Thrown(v) => o == Panic(Number(s.activeId)) && s.payload == Some(v)
    case Panicked(p) => o == Panic(p) && Idle(s)
  }

  /** How many of the panics are Haxe throws. */
  function Throws(raised: seq<Raised>): nat {
    if raised == [] then 0 else Throws(raised[..|raised| - 1]) + if raised[|raised| - 1].haxe then 1 else 0
  }

  lemma {:induction false} ThrowsAppend(a: seq<Raised>, b: seq<Raised>)
    ensures Throws(a + b) == Throws(a) + Throws(b)
  {
    if b == [] {
      assert a + b == a;
    } else {
      ThrowsAppend(a, b[..|b| - 1]);
      assert (a + b)[..|a + b| - 1] == a + b[..|b| - 1];
    }
  }

  /** The next id after some throws, with wrap-around. */
  function IdAfter(id: U64, throws: nat): U64 { (id + throws) % ID_LIMIT }

  lemma WrapAgain(id: U64, a: nat, b: nat)
    ensures IdAfter(IdAfter(id, a), b) == IdAfter(id, a + b)
  {}

  /** From `s`, the machine ended in `s'` with `o`, as the meaning `m` demands. */
  ghost predicate Refines(s: Locals, s': Locals, o: Outcome, m: Meaning) {
    && Represents(s', o, m.result)
    && s'.received == s.received + m.received
    && s'.nextId == IdAfter(s.nextId, Throws(m.raised))
    && |s'.printed| == |s.printed| + |m.raised|
  }

  lemma RefinesAfter(s: Locals, s1: Locals, o1: Outcome, m1: Meaning, s2: Locals, o2: Outcome, m2: Meaning)
    requires Refines(s, s1, o1, m1) && Refines(s1, s2, o2, m2)
    ensures Refines(s, s2, o2, After(m1, m2))
  {
    ThrowsAppend(m1.raised, m2.raised);
    WrapAgain(s.nextId, Throws(m1.raised), Throws(m2.raised));
  }

  /**
    Delivery.  Started outside any unwinding, the machine gives every program its
    structured meaning: same result, same values handed to handlers, no leftover id or
    payload.  Ids may wrap around and the depth counter may saturate.
  */
  lemma {:induction false} MachineRefinesExceptions(e: Expr, env: seq<Dynamic>, s: Locals, level: nat)
    requires Idle(s)
    ensures Refines(s, Exec(e, env, s).0, Exec(e, env, s).1, Eval(e, env, level))
    decreases e
  {
    match e
    case Val(_) =>
    case Caught(_) =>
    case Both(a, b) =>
      MachineRefinesExceptions(a, env, s, level);
      var (s1, o) := Exec(a, env, s);
      if o.Normal? {
        MachineRefinesExceptions(b, env, s1, level);
        RefinesAfter(s, s1, o, Eval(a, env, level), Exec(b, env, s1).0, Exec(b, env, s1).1, Eval(b, env, level));
      }
    case IfEqual(test, v, yes, no) =>
      MachineRefinesExceptions(test, env, s, level);
      var (s1, o) := Exec(test, env, s);
      if o.Normal? {
        var next := if o.v == v then yes else no;
        MachineRefinesExceptions(next, env, s1, level);
        RefinesAfter(s, s1, o, Eval(test, env, level), Exec(next, env, s1).0, Exec(next, env, s1).1, Eval(next, env, level));
      }
    case Throw(value) =>
      MachineRefinesExceptions(value, env, s, level);
      var (s1, o) := Exec(value, env, s);
      if o.Normal? {
        var thrown := Meaning(Thrown(o.v), [], [Raised(true, level)], 0);
        ThrowRefines(s1, o.v, level);
        RefinesAfter(s, s1, o, Eval(value, env, level), ThrowStep(s1, o.v).0, ThrowStep(s1, o.v).1, thrown);
      }
    case Rethrow(k) => ThrowRefines(s, Lookup(env, k), level);
    case ForeignPanic(_) => assert Throws([Raised(false, level)]) == 0;
    case TryCatch(body, handler) =>
      MachineRefinesExceptions(body, env, EnterCatch(s), level + 1);
      var m := Eval(body, env, level + 1);
      var (s1, o) := Exec(body, env, EnterCatch(s));
      if m.result.Thrown? {
        CatchRefines(s, s1, o, m);
        MachineRefinesExceptions(handler, [m.result.v] + env, Deliver(s1, o.payload, m.result.v), level);
      }
      HandledRefines(body, handler, env, s, level);
  }

  /** A catch whose body and handler refine their meaning refines its own. */
  lemma HandledRefines(body: Expr, handler: Expr, env: seq<Dynamic>, s: Locals, level: nat)
    requires Idle(s) && Refines(EnterCatch(s), Exec(body, env, EnterCatch(s)).0, Exec(body, env, EnterCatch(s)).1, Eval(body, env, level + 1))
    requires var m := Eval(body, env, level + 1); var (s1, o) := Exec(body, env, EnterCatch(s));
      m.result.Thrown? && o.Panic? ==>
        var s4 := Deliver(s1, o.payload, m.result.v);
        Refines(s4, Exec(handler, [m.result.v] + env, s4).0, Exec(handler, [m.result.v] + env, s4).1,
                Eval(handler, [m.result.v] + env, level))
    ensures Refines(s, Exec(TryCatch(body, handler), env, s).0, Exec(TryCatch(body, handler), env, s).1,
                    Eval(TryCatch(body, handler), env, level))
  {
    hide Exec, Eval, Examine, Deliver, Refines, LeaveCatch, EnterCatch, Idle, After;
    TryCatchExec(body, handler, env, s);
    TryCatchEval(body, handler, env, level);
    var m := Eval(body, env, level + 1);
    var (s1, o) := Exec(body, env, EnterCatch(s));
    CatchRefines(s, s1, o, m);
    if m.result.Thrown? {
      var s4 := Deliver(s1, o.payload, m.result.v);
      var (s5, o5) := Exec(handler, [m.result.v] + env, s4);
      HandlerStep(s, s1, o, m, s5, o5, Eval(handler, [m.result.v] + env, level));
    } else {
      NestingIsFree(s, LeaveCatch(if o.Normal? then s1 else Examine(s1, o.payload).0), o, m);
    }
  }

  lemma NestingIsFree(s: Locals, s': Locals, o: Outcome, m: Meaning)
    requires Refines(s, s', o, m)
    ensures Refines(s, s', o, m.(nesting := m.nesting + 1))
  { }

  lemma TryCatchExec(body: Expr, handler: Expr, env: seq<Dynamic>, s: Locals)
    ensures var (s1, o) := Exec(body, env, EnterCatch(s));
      Exec(TryCatch(body, handler), env, s) ==
        if o.Normal? then (LeaveCatch(s1), o)
        else
          var (s2, found) := Examine(s1, o.payload);
          if found.Some? then Exec(handler, [found.value] + env, Deliver(s1, o.payload, found.value)) else (LeaveCatch(s2), o)
  {
    hide Examine;
  }

  lemma TryCatchEval(body: Expr, handler: Expr, env: seq<Dynamic>, level: nat)
    ensures var m := Eval(body, env, level + 1);
      Eval(TryCatch(body, handler), env, level) ==
        if m.result.Thrown? then
          After(m.(nesting := m.nesting + 1, received := m.received + [m.result.v]), Eval(handler, [m.result.v] + env, level))
        else m.(nesting := m.nesting + 1)
  {
    hide After;
  }

  lemma HandlerStep(s: Locals, s1: Locals, o: Outcome, m: Meaning, s5: Locals, o5: Outcome, m5: Meaning)
    requires Refines(EnterCatch(s), s1, o, m) && m.result.Thrown? && o.Panic?
    requires Refines(Deliver(s1, o.payload, m.result.v), s5, o5, m5)
    ensures Refines(s, s5, o5, After(m.(nesting := m.nesting + 1, received := m.received + [m.result.v]), m5))
  {
    CatchRefines(s, s1, o, m);
    ThrowsAppend(m.raised, m5.raised);
    WrapAgain(s.nextId, Throws(m.raised), Throws(m5.raised));
    hide Throws;
  }

  lemma ThrowRefines(s: Locals, v: Dynamic, level: nat)
    ensures Refines(s, ThrowStep(s, v).0, ThrowStep(s, v).1, Meaning(Thrown(v), [], [Raised(true, level)], 0))
  {
    assert Throws([Raised(true, level)]) == 1;
  }

  function Deliver(s: Locals, p: Payload, v: Dynamic): Locals {
    var s' := LeaveCatch(Examine(s, p).0);
    s'.(received := s'.received + [v])
  }

  /** A catch takes exactly a Haxe throw; a foreign panic, whatever number it carries, passes. */
  lemma CatchRefines(s: Locals, s1: Locals, o: Outcome, m: Meaning)
    requires Refines(EnterCatch(s), s1, o, m)
    ensures m.result.Value? ==> o.Normal? && Refines(s, LeaveCatch(s1), o, m)
    ensures o.Panic? ==> (Examine(s1, o.payload).1.Some? <==> m.result.Thrown?)
    ensures m.result.Panicked? ==> o.Panic? && Refines(s, LeaveCatch(Examine(s1, o.payload).0), o, m)
    ensures m.result.Thrown? ==> o.Panic? && Examine(s1, o.payload).1 == Some(m.result.v)
                                 && Idle(Deliver(s1, o.payload, m.result.v))
  {}

  /** Ids count up in 64 bits and wrap to zero; the thrown value waits in the payload slot under its id. */
  lemma IdsCountUp(s: Locals, v: Dynamic)
    ensures var (s', o) := ThrowStep(s, v);
      && s'.nextId == (if s.nextId == 0xffff_ffff_ffff_ffff then 0 else s.nextId + 1)
      && s'.activeId == s.nextId && s'.payload == Some(v) && o == Panic(Number(s.nextId))
      && s'.depth == s.depth && s'.received == s.received
  { }

  // ---------------------------------------------------------------- the depth counter

  /** What is left of a saturating counter after n nested catches have been entered and left. */
  function Left(counter: nat, n: nat): nat {
    var room := if n <= MAX_DEPTH then MAX_DEPTH - n else 0;
    if counter < room then counter else room
  }

  /** What the later proofs take from the refinement. */
  lemma RefinesMeans(s: Locals, s': Locals, o: Outcome, m: Meaning)
    requires Refines(s, s', o, m)
    ensures (o.Normal? <==> m.result.Value?) && (o.Normal? ==> m.result.v == o.v && Idle(s'))
    ensures s'.nextId == IdAfter(s.nextId, Throws(m.raised))
  {
    hide Throws, IdAfter;
  }

  lemma DeliverKeeps(s: Locals, p: Payload, v: Dynamic)
    ensures var d := Deliver(s, p, v);
      d.printed == s.printed && d.nextId == s.nextId && d.depth == if s.depth > 0 then s.depth - 1 else 0
  { }

  /** One level less of room around the catch. */
  lemma LeftOfCatch(counter: U32, n: nat)
    ensures var inner := Left(if counter == MAX_DEPTH then MAX_DEPTH else counter + 1, n);
      Left(counter, n + 1) == if inner > 0 then inner - 1 else 0
  { }

  lemma LeftTwice(counter: nat, a: nat, b: nat)
    ensures Left(Left(counter, a), b) == Left(counter, Max(a, b))
  { }

  lemma {:induction false} DepthAfterCatch(body: Expr, handler: Expr, env: seq<Dynamic>, s: Locals, level: nat)
    requires Idle(s)
    ensures Exec(TryCatch(body, handler), env, s).0.depth == Left(s.depth, Eval(TryCatch(body, handler), env, level).nesting)
    decreases TryCatch(body, handler), 0
  {
    hide Exec, Eval, Refines, Left, Examine, Deliver;
    var m := Eval(body, env, level + 1);
    var (s1, o) := Exec(body, env, EnterCatch(s));
    DepthAfter(body, env, EnterCatch(s), level + 1);
    MachineRefinesExceptions(body, env, EnterCatch(s), level + 1);
    CatchRefines(s, s1, o, m);
    TryCatchExec(body, handler, env, s);
    TryCatchEval(body, handler, env, level);
    LeftOfCatch(s.depth, m.nesting);
    if m.result.Thrown? {
      var s4 := Deliver(s1, o.payload, m.result.v);
      DeliverKeeps(s1, o.payload, m.result.v);
      DepthAfter(handler, [m.result.v] + env, s4, level);
      LeftTwice(s.depth, m.nesting + 1, Eval(handler, [m.result.v] + env, level).nesting);
    } else if o.Panic? {
      ExamineKeepsDepth(s1, o.payload);
    }
  }

  lemma ExamineKeepsDepth(s: Locals, p: Payload)
    ensures Examine(s, p).0.depth == s.depth && Examine(s, p).0.printed == s.printed
  { }

  /** The counter on every exit, in closed form: the deepest nesting alone decides how much is lost. */
  lemma {:induction false} DepthAfter(e: Expr, env: seq<Dynamic>, s: Locals, level: nat)
    requires Idle(s)
    ensures Exec(e, env, s).0.depth == Left(s.depth, Eval(e, env, level).nesting)
    decreases e, 1
  {
    match e
    case Val(_) =>
    case Caught(_) =>
    case Both(a, b) =>
      hide Refines;
      var (s1, o) := Exec(a, env, s);
      var m := Eval(a, env, level);
      DepthAfter(a, env, s, level);
      MachineRefinesExceptions(a, env, s, level);
      RefinesMeans(s, s1, o, m);
      if o.Normal? {
        DepthAfter(b, env, s1, level);
        LeftTwice(s.depth, m.nesting, Eval(b, env, level).nesting);
      }
    case IfEqual(test, v, yes, no) =>
      hide Refines;
      var (s1, o) := Exec(test, env, s);
      var m := Eval(test, env, level);
      DepthAfter(test, env, s, level);
      MachineRefinesExceptions(test, env, s, level);
      RefinesMeans(s, s1, o, m);
      if o.Normal? {
        var next := if o.v == v then yes else no;
        DepthAfter(next, env, s1, level);
        LeftTwice(s.depth, m.nesting, Eval(next, env, level).nesting);
      }
    case Throw(value) =>
      hide Refines;
      DepthAfter(value, env, s, level);
      MachineRefinesExceptions(value, env, s, level);
      RefinesMeans(s, Exec(value, env, s).0, Exec(value, env, s).1, Eval(value, env, level));
    case Rethrow(_) =>
    case ForeignPanic(_) =>
    case TryCatch(body, handler) => DepthAfterCatch(body, handler, env, s, level);
  }

  /**
    The counter returns to its entry value on every exit exactly when the catches
    below it fit, or when it was zero; otherwise it comes back smaller.
  */
  lemma DepthReturnsIff(e: Expr, env: seq<Dynamic>, s: Locals, level: nat)
    requires Idle(s)
    ensures var d := Exec(e, env, s).0.depth;
            && d <= s.depth
            && (d == s.depth <==> s.depth + Eval(e, env, level).nesting <= 0xffff_ffff || s.depth == 0)
  {
    DepthAfter(e, env, s, level);
    hide Exec, Eval;
  }

  // ---------------------------------------------------------------- the panic hook

  /** The saturating counter at each panic raised, from its value at the start. */
  function Counters(e: Expr, env: seq<Dynamic>, level: nat, counter: nat): seq<nat>
    decreases e
  {
    match e
    case Val(_) => []
    case Caught(_) => []
    case Both(a, b) =>
      var m := Eval(a, env, level);
      Counters(a, env, level, counter)
      + (if m.result.Value? then Counters(b, env, level, Left(counter, m.nesting)) else [])
    case IfEqual(test, v, yes, no) =>
      var m := Eval(test, env, level);
      Counters(test, env, level, counter)
      + (if !m.result.Value? then []
         else if m.result.v == v then Counters(yes, env, level, Left(counter, m.nesting))
         else Counters(no, env, level, Left(counter, m.nesting)))
    case Throw(value) =>
      var m := Eval(value, env, level);
      Counters(value, env, level, counter) + (if m.result.Value? then [Left(counter, m.nesting)] else [])
    case Rethrow(_) => [counter]
    case ForeignPanic(_) => [counter]
    case TryCatch(body, handler) =>
      var m := Eval(body, env, level + 1);
      Counters(body, env, level + 1, if counter < MAX_DEPTH then counter + 1 else MAX_DEPTH)
      + (if m.result.Thrown? then Counters(handler, [m.result.v] + env, level, Left(counter, m.nesting + 1)) else [])
  }

  /** Which panics the hook prints: all but a Haxe throw whose id is not zero and which sees a positive counter. */
  function PrintsAt(first: U64, raised: seq<Raised>, counters: seq<nat>): seq<bool>
    requires |counters| == |raised|
  {
    if raised == [] then []
    else
      var n := |raised| - 1;
      PrintsAt(first, raised[..n], counters[..n])
      + [!(raised[n].haxe && counters[n] > 0 && IdAfter(first, Throws(raised[..n])) != 0)]
  }

  lemma PrintsAtSnoc(first: U64, before: seq<Raised>, last: Raised, counters: seq<nat>, counter: nat)
    requires |counters| == |before|
    ensures PrintsAt(first, before + [last], counters + [counter])
      == PrintsAt(first, before, counters) + [!(last.haxe && counter > 0 && IdAfter(first, Throws(before)) != 0)]
  {
    assert (before + [last])[..|before|] == before && (counters + [counter])[..|before|] == counters;
  }

  lemma PrintsAtLonger(first: U64, a: seq<Raised>, ka: seq<nat>, b: seq<Raised>, kb: seq<nat>, last: Raised, counter: nat)
    requires |a| == |ka| && |b| == |kb|
    requires PrintsAt(first, a + b, ka + kb) == PrintsAt(first, a, ka) + PrintsAt(IdAfter(first, Throws(a)), b, kb)
    ensures PrintsAt(first, (a + b) + [last], (ka + kb) + [counter])
      == PrintsAt(first, a, ka) + PrintsAt(IdAfter(first, Throws(a)), b + [last], kb + [counter])
  {
    hide PrintsAt, Throws, IdAfter;
    ThrowsAppend(a, b);
    WrapAgain(first, Throws(a), Throws(b));
    var id := IdAfter(first, Throws(a));
    PrintsAtSnoc(first, a + b, last, ka + kb, counter);
    PrintsAtSnoc(id, b, last, kb, counter);
    Reassociate(PrintsAt(first, a, ka), PrintsAt(id, b, kb), [!(last.haxe && counter > 0 && IdAfter(first, Throws(a + b)) != 0)]);
  }

  lemma {:induction false} PrintsAtAppend(first: U64, a: seq<Raised>, ka: seq<nat>, b: seq<Raised>, kb: seq<nat>)
    requires |a| == |ka| && |b| == |kb|
    ensures PrintsAt(first, a + b, ka + kb) == PrintsAt(first, a, ka) + PrintsAt(IdAfter(first, Throws(a)), b, kb)
    decreases |b|
  {
    if b == [] {
      assert a + b == a && ka + kb == ka;
      assert PrintsAt(IdAfter(first, Throws(a)), b, kb) == [];
    } else {
      hide PrintsAt, Throws, IdAfter;
      var n := |b| - 1;
      PrintsAtAppend(first, a, ka, b[..n], kb[..n]);
      PrintsAtLonger(first, a, ka, b[..n], kb[..n], b[n], kb[n]);
      Regroup(a, b);
      Regroup(ka, kb);
    }
  }

  lemma Regroup<T>(xs: seq<T>, ys: seq<T>)
    requires ys != []
    ensures var n := |ys| - 1; ys == ys[..n] + [ys[n]] && xs + ys == (xs + ys[..n]) + [ys[n]]
  { }

  lemma Reassociate<T>(xs: seq<T>, ys: seq<T>, zs: seq<T>)
    ensures (xs + ys) + zs == xs + (ys + zs)
  { }

  lemma PrintsAtOne(first: U64, r: Raised, counter: nat)
    ensures PrintsAt(first, [r], [counter]) == [!(r.haxe && counter > 0 && first != 0)]
  {
    assert [r][..0] == [] && [counter][..0] == [];
    assert Throws([]) == 0 && PrintsAt(first, [], []) == [];
  }

  /** The hook printed just what the counters at the raised panics say. */
  ghost predicate PrintedAt(s: Locals, s': Locals, raised: seq<Raised>, counters: seq<nat>) {
    |counters| == |raised| && s'.printed == s.printed + PrintsAt(s.nextId, raised, counters)
  }

  /** Two parts that print as they should print so together. */
  lemma PrintsTogether(s: Locals, s1: Locals, m1: Meaning, k1: seq<nat>, s2: Locals, m2: Meaning, k2: seq<nat>)
    requires s1.nextId == IdAfter(s.nextId, Throws(m1.raised))
    requires PrintedAt(s, s1, m1.raised, k1) && PrintedAt(s1, s2, m2.raised, k2)
    ensures PrintedAt(s, s2, m1.raised + m2.raised, k1 + k2)
  {
    PrintsAtAppend(s.nextId, m1.raised, k1, m2.raised, k2);
    hide PrintsAt, IdAfter, Throws;
  }

  /**
    Exactly what the hook prints, for every program, at any depth, fitting or not: every
    panic but a Haxe throw whose id is not zero while the saturating counter is positive.
  */
  lemma {:induction false} HookPrintsExactly(e: Expr, env: seq<Dynamic>, s: Locals, level: nat)
    requires Idle(s)
    ensures PrintedAt(s, Exec(e, env, s).0, Eval(e, env, level).raised, Counters(e, env, level, s.depth))
    decreases e, 1
  {
    hide PrintedAt;
    match e
    case Val(_) => NothingPrinted(s);
    case Caught(_) => NothingPrinted(s);
    case Both(a, b) =>
      MachineRefinesExceptions(a, env, s, level);
      DepthAfter(a, env, s, level);
      HookPrintsExactly(a, env, s, level);
      var (s1, o) := Exec(a, env, s);
      if o.Normal? {
        HookPrintsExactly(b, env, s1, level);
        PrintsTogether(s, s1, Eval(a, env, level), Counters(a, env, level, s.depth),
                       Exec(b, env, s1).0, Eval(b, env, level), Counters(b, env, level, s1.depth));
      } else {
        assert Counters(e, env, level, s.depth) == Counters(a, env, level, s.depth);
      }
    case IfEqual(test, v, yes, no) =>
      MachineRefinesExceptions(test, env, s, level);
      DepthAfter(test, env, s, level);
      HookPrintsExactly(test, env, s, level);
      var (s1, o) := Exec(test, env, s);
      if o.Normal? {
        var next := if o.v == v then yes else no;
        HookPrintsExactly(next, env, s1, level);
        PrintsTogether(s, s1, Eval(test, env, level), Counters(test, env, level, s.depth),
                       Exec(next, env, s1).0, Eval(next, env, level), Counters(next, env, level, s1.depth));
      } else {
        assert Counters(e, env, level, s.depth) == Counters(test, env, level, s.depth);
      }
    case Throw(value) =>
      MachineRefinesExceptions(value, env, s, level);
      DepthAfter(value, env, s, level);
      HookPrintsExactly(value, env, s, level);
      var (s1, o) := Exec(value, env, s);
      if o.Normal? {
        ThrowPrints(s1, o.v, level);
        PrintsTogether(s, s1, Eval(value, env, level), Counters(value, env, level, s.depth),
                       ThrowStep(s1, o.v).0, Meaning(Thrown(o.v), [], [Raised(true, level)], 0), [s1.depth]);
      } else {
        assert Counters(e, env, level, s.depth) == Counters(value, env, level, s.depth);
      }
    case Rethrow(k) => ThrowPrints(s, Lookup(env, k), level);
    case ForeignPanic(p) => ForeignPrints(s, p, level);
    case TryCatch(body, handler) => CatchPrints(body, handler, env, s, level);
  }

  lemma NothingPrinted(s: Locals)
    ensures PrintedAt(s, s, [], [])
  { }

  lemma ThrowPrints(s: Locals, v: Dynamic, level: nat)
    ensures PrintedAt(s, ThrowStep(s, v).0, [Raised(true, level)], [s.depth])
  {
    PrintsAtOne(s.nextId, Raised(true, level), s.depth);
  }

  lemma ForeignPrints(s: Locals, p: Payload, level: nat)
    requires Idle(s)
    ensures PrintedAt(s, Raise(s, p), [Raised(false, level)], [s.depth])
  {
    PrintsAtOne(s.nextId, Raised(false, level), s.depth);
  }

  lemma SamePrints(s: Locals, s': Locals, t: Locals, t': Locals, raised: seq<Raised>, counters: seq<nat>)
    requires PrintedAt(s, s', raised, counters) && t.printed == s.printed && t.nextId == s.nextId && t'.printed == s'.printed
    ensures PrintedAt(t, t', raised, counters)
  { }

  lemma TryCatchCounters(body: Expr, handler: Expr, env: seq<Dynamic>, level: nat, counter: nat)
    ensures var m := Eval(body, env, level + 1);
      Counters(TryCatch(body, handler), env, level, counter) ==
        Counters(body, env, level + 1, if counter < MAX_DEPTH then counter + 1 else MAX_DEPTH)
        + if m.result.Thrown? then Counters(handler, [m.result.v] + env, level, Left(counter, m.nesting + 1)) else []
  {
    hide Eval, Left;
  }

  lemma {:induction false} CatchPrints(body: Expr, handler: Expr, env: seq<Dynamic>, s: Locals, level: nat)
    requires Idle(s)
    ensures var e := TryCatch(body, handler);
      PrintedAt(s, Exec(e, env, s).0, Eval(e, env, level).raised, Counters(e, env, level, s.depth))
    decreases TryCatch(body, handler), 0
  {
    hide PrintedAt, Exec, Eval, Counters, Refines, Left, Examine, Deliver, Throws, IdAfter;
    var inner, m := EnterCatch(s), Eval(body, env, level + 1);
    var (s1, o) := Exec(body, env, inner);
    var kb := Counters(body, env, level + 1, inner.depth);
    MachineRefinesExceptions(body, env, inner, level + 1);
    RefinesMeans(inner, s1, o, m);
    CatchRefines(s, s1, o, m);
    HookPrintsExactly(body, env, inner, level + 1);
    TryCatchExec(body, handler, env, s);
    TryCatchEval(body, handler, env, level);
    TryCatchCounters(body, handler, env, level, s.depth);
    if m.result.Thrown? {
      var s4, env' := Deliver(s1, o.payload, m.result.v), [m.result.v] + env;
      DeliverKeeps(s1, o.payload, m.result.v);
      SamePrints(inner, s1, s, s4, m.raised, kb);
      HookPrintsExactly(handler, env', s4, level);
      PrintsTogether(s, s4, m, kb, Exec(handler, env', s4).0, Eval(handler, env', level), Counters(handler, env', level, s4.depth));
      DepthAfter(body, env, inner, level + 1);
      LeftOfCatch(s.depth, m.nesting);
    } else {
      if o.Panic? { ExamineKeepsDepth(s1, o.payload); }
      SamePrints(inner, s1, s, Exec(TryCatch(body, handler), env, s).0, m.raised, kb);
      assert kb + [] == kb;
    }
  }

  // ---------------------------------------------------------------- silent catches

  /** The promise: silent exactly the Haxe throws inside some catch whose id is not zero. */
  function Prints(first: U64, raised: seq<Raised>): seq<bool> {
    PrintsAt(first, raised, seq(|raised|, i requires 0 <= i < |raised| => raised[i].level))
  }

  /** Some caught throw that should be silent sees a counter that saturation has drained to zero. */
  predicate Drained(first: U64, raised: seq<Raised>, counters: seq<nat>)
    requires |counters| == |raised|
  {
    exists i | 0 <= i < |raised| ::
      counters[i] == 0 && raised[i].haxe && raised[i].level > 0 && IdAfter(first, Throws(raised[..i])) != 0
  }

  lemma {:induction false} PrintsAtEach(first: U64, raised: seq<Raised>, counters: seq<nat>)
    requires |counters| == |raised|
    ensures |PrintsAt(first, raised, counters)| == |raised|
    ensures forall i | 0 <= i < |raised| ::
      PrintsAt(first, raised, counters)[i] == !(raised[i].haxe && counters[i] > 0 && IdAfter(first, Throws(raised[..i])) != 0)
    decreases |raised|
  {
    if raised != [] {
      var n := |raised| - 1;
      PrintsAtEach(first, raised[..n], counters[..n]);
      hide Throws, IdAfter;
      assert forall i | 0 <= i < n :: raised[..n][..i] == raised[..i];
    }
  }

  /** No counter exceeds the number of catches around. */
  ghost predicate WithinLevels(counters: seq<nat>, raised: seq<Raised>) {
    |counters| == |raised| && forall i | 0 <= i < |raised| :: counters[i] <= raised[i].level
  }

  lemma WithinJoins(ka: seq<nat>, a: seq<Raised>, kb: seq<nat>, b: seq<Raised>)
    requires WithinLevels(ka, a) && WithinLevels(kb, b)
    ensures WithinLevels(ka + kb, a + b)
  { }

  lemma {:induction false} CatchCountersBelow(body: Expr, handler: Expr, env: seq<Dynamic>, level: nat, counter: nat)
    requires counter <= level
    ensures WithinLevels(Counters(TryCatch(body, handler), env, level, counter), Eval(TryCatch(body, handler), env, level).raised)
    decreases TryCatch(body, handler), 0
  {
    hide WithinLevels, Counters, Eval;
    var m, up := Eval(body, env, level + 1), if counter < MAX_DEPTH then counter + 1 else MAX_DEPTH;
    CountersBelow(body, env, level + 1, up);
    TryCatchEval(body, handler, env, level);
    TryCatchCounters(body, handler, env, level, counter);
    var kb := Counters(body, env, level + 1, up);
    if m.result.Thrown? {
      var env', left := [m.result.v] + env, Left(counter, m.nesting + 1);
      CountersBelow(handler, env', level, left);
      WithinJoins(kb, m.raised, Counters(handler, env', level, left), Eval(handler, env', level).raised);
    } else {
      assert kb + [] == kb;
    }
  }

  lemma {:induction false} CountersBelow(e: Expr, env: seq<Dynamic>, level: nat, counter: nat)
    requires counter <= level
    ensures WithinLevels(Counters(e, env, level, counter), Eval(e, env, level).raised)
    decreases e, 1
  {
    match e
    case Val(_) =>
    case Caught(_) =>
    case Both(a, b) =>
      hide WithinLevels;
      var left := Left(counter, Eval(a, env, level).nesting);
      CountersBelow(a, env, level, counter);
      CountersBelow(b, env, level, left);
      WithinJoins(Counters(a, env, level, counter), Eval(a, env, level).raised,
                  Counters(b, env, level, left), Eval(b, env, level).raised);
      assert Counters(a, env, level, counter) + [] == Counters(a, env, level, counter);
    case IfEqual(test, v, yes, no) =>
      hide WithinLevels;
      var m, kt := Eval(test, env, level), Counters(test, env, level, counter);
      CountersBelow(test, env, level, counter);
      assert kt + [] == kt;
      if m.result.Value? {
        var next, left := if m.result.v == v then yes else no, Left(counter, m.nesting);
        CountersBelow(next, env, level, left);
        WithinJoins(kt, m.raised, Counters(next, env, level, left), Eval(next, env, level).raised);
      }
    case Throw(value) =>
      hide WithinLevels;
      var m, kv := Eval(value, env, level), Counters(value, env, level, counter);
      CountersBelow(value, env, level, counter);
      assert kv + [] == kv;
      OneWithin(Left(counter, m.nesting), level);
      WithinJoins(kv, m.raised, [Left(counter, m.nesting)], [Raised(true, level)]);
    case Rethrow(_) =>
    case ForeignPanic(_) =>
    case TryCatch(body, handler) => CatchCountersBelow(body, handler, env, level, counter);
  }

  lemma OneWithin(counter: nat, level: nat)
    requires counter <= level
    ensures WithinLevels([counter], [Raised(true, level)])
  { }

  /** Counters within the levels print what the levels promise exactly when none is drained. */
  lemma SilentIff(first: U64, raised: seq<Raised>, counters: seq<nat>)
    requires WithinLevels(counters, raised)
    ensures PrintsAt(first, raised, counters) == Prints(first, raised) <==> !Drained(first, raised, counters)
  {
    var levels := seq(|raised|, i requires 0 <= i < |raised| => raised[i].level);
    PrintsAtEach(first, raised, counters);
    PrintsAtEach(first, raised, levels);
    var actual, promised := PrintsAt(first, raised, counters), PrintsAt(first, raised, levels);
    hide PrintsAt, Throws, IdAfter;
    if Drained(first, raised, counters) {
      var i :| 0 <= i < |raised| && counters[i] == 0 && raised[i].haxe && raised[i].level > 0
               && IdAfter(first, Throws(raised[..i])) != 0;
      assert actual[i] != promised[i];
    } else {
      assert forall i | 0 <= i < |raised| :: actual[i] == promised[i];
      assert actual == promised;
    }
  }

  lemma SameAfterPrefix<T>(prefix: seq<T>, a: seq<T>, b: seq<T>)
    ensures prefix + a == prefix + b <==> a == b
  {
    assert (prefix + a)[|prefix|..] == a && (prefix + b)[|prefix|..] == b;
  }

  /**
    Caught Haxe exceptions are silent and nothing else is - the hook prints every foreign
    panic, every throw outside all catches, and the throw whose wrapped id is zero - exactly
    when no caught throw with a non-zero id sees a counter drained to zero.
  */
  lemma OnlyCaughtThrowsAreSilentIff(e: Expr, env: seq<Dynamic>, s: Locals)
    requires Idle(s)
    ensures |Counters(e, env, s.depth, s.depth)| == |Eval(e, env, s.depth).raised|
    ensures Exec(e, env, s).0.printed == s.printed + Prints(s.nextId, Eval(e, env, s.depth).raised)
      <==> !Drained(s.nextId, Eval(e, env, s.depth).raised, Counters(e, env, s.depth, s.depth))
  {
    hide Exec, Eval, Counters, PrintsAt, Prints, Drained;
    var raised, counters := Eval(e, env, s.depth).raised, Counters(e, env, s.depth, s.depth);
    HookPrintsExactly(e, env, s, s.depth);
    CountersBelow(e, env, s.depth, s.depth);
    SilentIff(s.nextId, raised, counters);
    SameAfterPrefix(s.printed, PrintsAt(s.nextId, raised, counters), Prints(s.nextId, raised));
  }

  /** Each counter is the number of catches around, and so nothing is drained. */
  ghost predicate AtLevels(counters: seq<nat>, raised: seq<Raised>) {
    |counters| == |raised| && forall i | 0 <= i < |raised| :: counters[i] == raised[i].level
  }

  lemma LevelsJoin(ka: seq<nat>, a: seq<Raised>, kb: seq<nat>, b: seq<Raised>)
    requires AtLevels(ka, a) && AtLevels(kb, b)
    ensures AtLevels(ka + kb, a + b)
  { }

  lemma {:induction false} CatchCountersFit(body: Expr, handler: Expr, env: seq<Dynamic>, level: nat)
    requires level + Eval(TryCatch(body, handler), env, level).nesting <= MAX_DEPTH
    ensures AtLevels(Counters(TryCatch(body, handler), env, level, level), Eval(TryCatch(body, handler), env, level).raised)
    decreases TryCatch(body, handler), 0
  {
    hide AtLevels, Counters, Eval;
    var m := Eval(body, env, level + 1);
    TryCatchEval(body, handler, env, level);
    TryCatchCounters(body, handler, env, level, level);
    CountersFit(body, env, level + 1);
    var kb := Counters(body, env, level + 1, level + 1);
    if m.result.Thrown? {
      var env' := [m.result.v] + env;
      CountersFit(handler, env', level);
      LevelsJoin(kb, m.raised, Counters(handler, env', level, level), Eval(handler, env', level).raised);
    } else {
      assert kb + [] == kb;
    }
  }

  lemma {:induction false} CountersFit(e: Expr, env: seq<Dynamic>, level: nat)
    requires level + Eval(e, env, level).nesting <= MAX_DEPTH
    ensures AtLevels(Counters(e, env, level, level), Eval(e, env, level).raised)
    decreases e, 1
  {
    match e
    case Val(_) =>
    case Caught(_) =>
    case Both(a, b) =>
      hide AtLevels;
      var m, ka := Eval(a, env, level), Counters(a, env, level, level);
      CountersFit(a, env, level);
      assert ka + [] == ka;
      if m.result.Value? {
        CountersFit(b, env, level);
        LevelsJoin(ka, m.raised, Counters(b, env, level, level), Eval(b, env, level).raised);
      }
    case IfEqual(test, v, yes, no) =>
      hide AtLevels;
      var m, kt := Eval(test, env, level), Counters(test, env, level, level);
      CountersFit(test, env, level);
      assert kt + [] == kt;
      if m.result.Value? {
        var next := if m.result.v == v then yes else no;
        CountersFit(next, env, level);
        LevelsJoin(kt, m.raised, Counters(next, env, level, level), Eval(next, env, level).raised);
      }
    case Throw(value) =>
      hide AtLevels;
      var m, kv := Eval(value, env, level), Counters(value, env, level, level);
      CountersFit(value, env, level);
      assert kv + [] == kv;
      OneAtLevel(level);
      LevelsJoin(kv, m.raised, [level], [Raised(true, level)]);
    case Rethrow(_) =>
    case ForeignPanic(_) =>
    case TryCatch(body, handler) => CatchCountersFit(body, handler, env, level);
  }

  lemma OneAtLevel(level: nat)
    ensures AtLevels([level], [Raised(true, level)])
  { }

  lemma OnlyCaughtThrowsAreSilent(e: Expr, env: seq<Dynamic>, s: Locals)
    requires Idle(s) && s.depth + Eval(e, env, s.depth).nesting <= 0xffff_ffff
    ensures Exec(e, env, s).0.printed == s.printed + Prints(s.nextId, Eval(e, env, s.depth).raised)
  {
    hide Exec, Eval, Counters, Prints;
    CountersFit(e, env, s.depth);
    OnlyCaughtThrowsAreSilentIff(e, env, s);
  }

  /** `n` nested catches around nothing. */
  function Nest(n: nat): Expr {
    if n == 0 then Val(0) else TryCatch(Nest(n - 1), Val(0))
  }

  lemma {:induction false} NestDrainsDepth(n: nat, env: seq<Dynamic>, s: Locals)
    requires Idle(s)
    ensures var (s', o) := Exec(Nest(n), env, s);
            && o == Normal(0)
            && s'.(depth := s.depth) == s
            && s'.depth == (if s.depth + n <= 0xffff_ffff then s.depth else if n <= 0xffff_ffff then 0xffff_ffff - n else 0)
    decreases n
  {
    if n > 0 { NestDrainsDepth(n - 1, env, EnterCatch(s)); }
  }

  /** The bound on nesting is sharp: one catch more, and a throw that is caught is printed. */
  lemma SaturatedDepthPrintsCaughtThrow(s: Locals, n: nat)
    requires Idle(s) && s.depth == 0 && n == 0xffff_ffff
    ensures var e := TryCatch(Both(Nest(n), Throw(Val(7))), Val(0));
            && Exec(e, [], s).1 == Normal(0)
            && Exec(e, [], s).0.received == s.received + [7]
            && Exec(e, [], s).0.printed == s.printed + [true]
  {
    hide Nest;
    NestDrainsDepth(n, [], EnterCatch(s));
    var s1 := Exec(Nest(n), [], EnterCatch(s)).0;
    assert Exec(Throw(Val(7)), [], s1) == ThrowStep(s1, 7);
    assert Exec(Both(Nest(n), Throw(Val(7))), [], EnterCatch(s)) == ThrowStep(s1, 7);
  }

  // ---------------------------------------------------------------- what handlers are given

  /** The value a handler is given: index 0 is its own, and one handler further out is one index further. */
  lemma LookupIs(v: Dynamic, env: seq<Dynamic>, k: nat)
    ensures Lookup([v] + env, 0) == v && Lookup([v] + env, k + 1) == Lookup(env, k)
  { }

  /** Every handler value of an expression, as it is written below one more handler at depth `depth`. */
  function Shift(e: Expr, depth: nat): Expr {
    match e
    case Val(_) => e
    case Caught(k) => Caught(if k < depth then k else k + 1)
    case Both(a, b) => Both(Shift(a, depth), Shift(b, depth))
    case IfEqual(test, v, yes, no) => IfEqual(Shift(test, depth), v, Shift(yes, depth), Shift(no, depth))
    case Throw(value) => Throw(Shift(value, depth))
    case Rethrow(k) => Rethrow(if k < depth then k else k + 1)
    case TryCatch(body, handler) => TryCatch(Shift(body, depth), Shift(handler, depth + 1))
    case ForeignPanic(_) => e
  }

  /** One more handler around an expression changes nothing for it: every handler value stays the one it was. */
  lemma {:induction false} ShiftMeansTheSame(e: Expr, inner: seq<Dynamic>, v: Dynamic, outer: seq<Dynamic>, level: nat)
    ensures Eval(Shift(e, |inner|), inner + [v] + outer, level) == Eval(e, inner + outer, level)
    decreases e
  {
    match e
    case Val(_) =>
    case Caught(_) =>
    case Both(a, b) =>
      ShiftMeansTheSame(a, inner, v, outer, level);
      ShiftMeansTheSame(b, inner, v, outer, level);
    case IfEqual(test, _, yes, no) =>
      ShiftMeansTheSame(test, inner, v, outer, level);
      ShiftMeansTheSame(yes, inner, v, outer, level);
      ShiftMeansTheSame(no, inner, v, outer, level);
    case Throw(value) => ShiftMeansTheSame(value, inner, v, outer, level);
    case Rethrow(_) =>
    case TryCatch(body, handler) =>
      ShiftMeansTheSame(body, inner, v, outer, level + 1);
      var m := Eval(body, inner + outer, level + 1);
      if m.result.Thrown? {
        var x := m.result.v;
        ShiftMeansTheSame(handler, [x] + inner, v, outer, level);
        assert [x] + inner + [v] + outer == [x] + (inner + [v] + outer) && [x] + inner + outer == [x] + (inner + outer);
      }
    case ForeignPanic(_) =>
  }

  /** A handler that rethrows what it was given passes the value on; one that yields it ends normally with it. */
  lemma HandlerIsGivenTheThrown(body: Expr, env: seq<Dynamic>, level: nat)
    requires Eval(body, env, level + 1).result.Thrown?
    ensures var m := Eval(body, env, level + 1);
      && Eval(TryCatch(body, Rethrow(0)), env, level).result == Thrown(m.result.v)
      && Eval(TryCatch(body, Caught(0)), env, level).result == Value(m.result.v)
      && Eval(TryCatch(body, Caught(0)), env, level).received == m.received + [m.result.v]
  { }

  lemma ThrowIs(v: Dynamic, env: seq<Dynamic>, level: nat)
    ensures Eval(Throw(Val(v)), env, level) == Meaning(Thrown(v), [], [Raised(true, level)], 0)
  { }

  /**
    A throw, caught, thrown again by the handler and caught further out: on the machine, from
    every idle state, both handlers are given the value thrown, and the whole yields it.
  */
  lemma RethrowReachesOuterCatch(v: Dynamic, env: seq<Dynamic>, s: Locals)
    requires Idle(s)
    ensures var e := TryCatch(TryCatch(Throw(Val(v)), Rethrow(0)), Caught(0)); var (s', o) := Exec(e, env, s);
      o == Normal(v) && s'.received == s.received + [v, v] && Idle(s')
  {
    var inner := TryCatch(Throw(Val(v)), Rethrow(0));
    ThrowIs(v, env, 2);
    LookupIs(v, env, 0);
    assert Eval(inner, env, 1).result == Thrown(v) && Eval(inner, env, 1).received == [v];
    HandlerIsGivenTheThrown(inner, env, 0);
    MachineRefinesExceptions(TryCatch(inner, Caught(0)), env, s, 0);
    hide Exec, Eval;
    assert s.received + ([v] + [v]) == s.received + [v, v];
  }
}
