/**
  The threads of LockCallbacks mean what LockHelpers says: a thread that nobody
  disturbs runs every operation, whatever it nests, to its structured meaning.
*/
module LockAlone {
  import opened Common
  import opened LockCallbacks
  import H = LockHelpers

  /** Nobody else holds a guard. */
  ghost predicate Undisturbed(s: State, t: Tid) {
    forall g | g in s.guards :: g.t == t
  }

  function Values(s: State): H.Values {
    map h | h in s.cells :: s.cells[h].value
  }

  /** n steps of t alone lead from s to e. */
  ghost predicate Steps(s: State, t: Tid, n: nat, e: State)
    decreases n
  {
    if n == 0 then e == s else Enabled(s, t, false) && Steps(Step(s, t), t, n - 1, e)
  }

  lemma {:induction false} StepsJoin(s: State, t: Tid, n: nat, mid: State, m: nat, e: State)
    requires Steps(s, t, n, mid) && Steps(mid, t, m, e)
    ensures Steps(s, t, n + m, e)
    decreases n
  {
    hide Step, Blocked, HeldBack, IsWaiting;
    if n > 0 { StepsJoin(Step(s, t), t, n - 1, mid, m, e); }
  }

  lemma OneStep(s: State, t: Tid)
    requires Enabled(s, t, false)
    ensures Steps(s, t, 1, Step(s, t))
  {
    assert Steps(Step(s, t), t, 0, Step(s, t));
  }

  /** Thread t is about to run `todo`. */
  ghost predicate Facing(s: State, t: Tid, todo: seq<Op>) {
    Inv(s) && Undisturbed(s, t) && Unfinished(s, t) && s.threads[t].status == Running && Top(s.threads[t]).todo == todo
  }

  lemma FacingMeans(s: State, t: Tid, todo: seq<Op>)
    requires t in s.threads && Facing(s, t, todo)
    ensures Unfinished(s, t) && s.threads[t].status == Running && Enabled(s, t, false) && Undisturbed(s, t)
  {
    hide Inv;
  }

  /** Back between the same scopes: only the innermost todo list, the status and the cells have changed. */
  ghost predicate Landed(s: State, e: State, t: Tid, more: seq<Op>, result: (H.Outcome, H.Values))
    requires t in s.threads
  {
    && Inv(e) && e.guards == s.guards && Values(e) == result.1
    && e.threads.Keys == s.threads.Keys && (forall u | u in s.threads && u != t :: e.threads[u] == s.threads[u])
    && s.threads[t].frames != [] && e.threads[t].frames != []
    && Top(e.threads[t]).kind == Top(s.threads[t]).kind && Rest(e.threads[t]) == Rest(s.threads[t])
    && e.threads[t].active == s.threads[t].active
    && if result.0 == H.Thrown then e.threads[t].status == Unwinding
       else e.threads[t].status == Running && Top(e.threads[t]).todo == more
  }

  /** The meaning of an operation where thread t stands. */
  function MeantOp(s: State, t: Tid, op: Op): (H.Outcome, H.Values)
    requires t in s.threads
  {
    H.MeaningOf(op, Elements(s.threads[t].active), Values(s), Mutable(s.threads[t].frames))
  }

  function Meant(s: State, t: Tid, ops: seq<Op>): (H.Outcome, H.Values)
    requires t in s.threads
  {
    H.Meaning(ops, Elements(s.threads[t].active), Values(s), Mutable(s.threads[t].frames))
  }

  lemma FreeHandle(s: State, t: Tid, h: Handle)
    requires Inv(s) && Undisturbed(s, t) && t in s.threads && h !in s.threads[t].active
    ensures forall g | g in s.guards :: g.h != h
  {
    assert ThreadOk(s, t);
    GuardsAreMarked(t, s.threads[t].frames);
  }

  /** The thread once the operation in front is taken off. */
  function Taken(th: Thread, more: seq<Op>): Thread
    requires th.frames != []
  {
    th.(frames := [Top(th).(todo := more)] + Rest(th))
  }

  lemma TakenIsNext(th: Thread, op: Op, more: seq<Op>)
    requires th.frames != [] && Top(th).todo == [op] + more
    ensures Top(th).todo[0] == op && Top(th).todo[1..] == more
    ensures th.(frames := [Top(th).(todo := Top(th).todo[1..])] + Rest(th)) == Taken(th, more)
    ensures Top(Taken(th, more)).kind == Top(th).kind && Rest(Taken(th, more)) == Rest(th)
  {
    assert ([op] + more)[1..] == more;
  }

  // ---------------------------------------------------------------- single steps

  lemma ThrowIs(s: State, t: Tid, op: Op, more: seq<Op>)
    requires Unfinished(s, t) && s.threads[t].status == Running && Top(s.threads[t]).todo == [op] + more
    requires op.Throw? || (UsesLock(op) && H.Refused(op, Elements(s.threads[t].active), Values(s)))
    ensures Step(s, t) == Set(s, t, Taken(s.threads[t], more).(status := Unwinding))
  {
    TakenIsNext(s.threads[t], op, more);
  }

  lemma PokeIs(s: State, t: Tid, f: Fun, more: seq<Op>)
    requires Unfinished(s, t) && s.threads[t].status == Running && Top(s.threads[t]).todo == [Poke(f)] + more
    ensures var target := Mutable(s.threads[t].frames);
      Step(s, t) == Set(if target.Some? && target.value in s.cells then Write(s, target.value, Apply(f)) else s,
                        t, Taken(s.threads[t], more))
  {
    TakenIsNext(s.threads[t], Poke(f), more);
    hide Mutable;
  }

  lemma WaitIs(s: State, t: Tid, op: Op, more: seq<Op>)
    requires Unfinished(s, t) && s.threads[t].status == Running && Top(s.threads[t]).todo == [op] + more
    requires UsesLock(op) && !H.Refused(op, Elements(s.threads[t].active), Values(s))
    ensures Step(s, t) == Set(s, t, Awaiting(Taken(s.threads[t], more), op))
  {
    TakenIsNext(s.threads[t], op, more);
  }

  lemma PlainAcquireIs(s: State, t: Tid)
    requires Unfinished(s, t) && s.threads[t].status.Waiting? && UsesLock(s.threads[t].status.op)
    requires s.threads[t].status.op.h in s.cells && !HasBody(s.threads[t].status.op)
    ensures var op, th := s.threads[t].status.op, s.threads[t].(status := Running);
      && (op.Peek? ==> Step(s, t) == Set(Observe(s, t, op.h), t, th))
      && (op.Put? ==> Step(s, t) == Set(Write(s, op.h, Assign(op.v)), t, th))
      && (op.Replace? ==> Step(s, t) == Set(Write(Observe(s, t, op.h), op.h, Assign(op.v)), t, th))
  { }

  // ---------------------------------------------------------------- operations without a callback

  lemma SameValues(s: State, s': State)
    requires s'.cells == s.cells
    ensures Values(s') == Values(s)
  { }

  lemma ChangedValues(s: State, h: Handle, v: Value, e: Effect)
    requires h in s.cells
    ensures Values(Change(s, h, v, e)) == Values(s)[h := v]
  { }

  /** How a thread lands: the cells have their new values and only its own record is replaced. */
  lemma Lands(s: State, cells: State, t: Tid, th: Thread, more: seq<Op>, result: (H.Outcome, H.Values))
    requires Unfinished(s, t) && cells.threads == s.threads && cells.guards == s.guards && Values(cells) == result.1
    requires Inv(Set(cells, t, th)) && th.frames == Taken(s.threads[t], more).frames && th.active == s.threads[t].active
    requires th.status == if result.0 == H.Thrown then Unwinding else Running
    ensures Landed(s, Set(cells, t, th), t, more, result)
  {
    hide Inv;
    SameValues(cells, Set(cells, t, th));
    hide Values;
    assert Top(th).kind == Top(s.threads[t]).kind && Rest(th) == Rest(s.threads[t]);
  }

  lemma ThrowStep(s: State, t: Tid, more: seq<Op>) returns (e: State)
    requires t in s.threads && Facing(s, t, [Op.Throw] + more)
    ensures Steps(s, t, 1, e) && Landed(s, e, t, more, MeantOp(s, t, Op.Throw))
  {
    hide Steps;
    StepKeepsInv(s, t, false);
    OneStep(s, t);
    e := Step(s, t);
    ThrowIs(s, t, Op.Throw, more);
    hide Step, Values, Landed, Mutable;
    Lands(s, s, t, Taken(s.threads[t], more).(status := Unwinding), more, (H.Thrown, Values(s)));
  }

  /** The state whose cells an in-place write leaves. */
  function Poked(s: State, t: Tid, f: Fun): State
    requires t in s.threads
  {
    var target := Mutable(s.threads[t].frames);
    if target.Some? && target.value in s.cells then Write(s, target.value, Apply(f)) else s
  }

  lemma PokeMeans(s: State, t: Tid, f: Fun)
    requires t in s.threads
    ensures MeantOp(s, t, Poke(f)) == (H.Done, Values(Poked(s, t, f)))
    ensures Poked(s, t, f).threads == s.threads && Poked(s, t, f).guards == s.guards
  {
    var target := Mutable(s.threads[t].frames);
    hide Mutable;
    if target.Some? && target.value in s.cells {
      var h := target.value;
      ChangedValues(s, h, LockCallbacks.Run(Apply(f), s.cells[h].value), Apply(f));
    }
  }

  lemma PokeStep(s: State, t: Tid, f: Fun, more: seq<Op>) returns (e: State)
    requires t in s.threads && Facing(s, t, [Poke(f)] + more)
    ensures Steps(s, t, 1, e) && Landed(s, e, t, more, MeantOp(s, t, Poke(f)))
  {
    hide Steps;
    StepKeepsInv(s, t, false);
    OneStep(s, t);
    e := Step(s, t);
    PokeIs(s, t, f, more);
    PokeMeans(s, t, f);
    assert e == Set(Poked(s, t, f), t, Taken(s.threads[t], more));
    hide Step, Values, Landed, Mutable, Poked, MeantOp;
    Lands(s, Poked(s, t, f), t, Taken(s.threads[t], more), more, MeantOp(s, t, Poke(f)));
  }

  lemma RefusedStep(s: State, t: Tid, op: Op, more: seq<Op>) returns (e: State)
    requires t in s.threads && Facing(s, t, [op] + more) && UsesLock(op) && H.Refused(op, Elements(s.threads[t].active), Values(s))
    ensures Steps(s, t, 1, e) && Landed(s, e, t, more, (H.Thrown, Values(s)))
  {
    hide Steps;
    StepKeepsInv(s, t, false);
    OneStep(s, t);
    e := Step(s, t);
    ThrowIs(s, t, op, more);
    hide Step, Values, Landed;
    Lands(s, s, t, Taken(s.threads[t], more).(status := Unwinding), more, (H.Thrown, Values(s)));
  }

  /** An access that is not refused waits, and nobody keeps it waiting. */
  lemma WaitStep(s: State, t: Tid, op: Op, more: seq<Op>) returns (e: State)
    requires t in s.threads && Facing(s, t, [op] + more) && UsesLock(op) && !H.Refused(op, Elements(s.threads[t].active), Values(s))
    ensures Steps(s, t, 1, e) && Inv(e) && Enabled(e, t, false) && IsWaiting(e, t)
    ensures e == Set(s, t, Awaiting(Taken(s.threads[t], more), op))
  {
    hide Steps;
    StepKeepsInv(s, t, false);
    OneStep(s, t);
    e := Step(s, t);
    WaitIs(s, t, op, more);
    FreeHandle(s, t, op.h);
    hide Step;
  }

  /** The state whose cells an access without a callback leaves. */
  function Accessed(s: State, t: Tid, op: Op): State
    requires UsesLock(op) && op.h in s.cells
  {
    match op
    case Peek(h, _) => Observe(s, t, h)
    case Put(h, v) => Write(s, h, Assign(v))
    case Replace(h, v) => Write(Observe(s, t, h), h, Assign(v))
    case _ => s
  }

  lemma AccessMeans(s: State, t: Tid, op: Op)
    requires t in s.threads && UsesLock(op) && !HasBody(op) && !H.Refused(op, Elements(s.threads[t].active), Values(s))
    ensures op.h in s.cells && MeantOp(s, t, op) == (H.Done, Values(Accessed(s, t, op)))
    ensures Accessed(s, t, op).threads == s.threads && Accessed(s, t, op).guards == s.guards
  {
    hide Mutable;
    match op
    case Peek(h, _) => SameValues(s, Observe(s, t, h));
    case Put(h, v) => ChangedValues(s, h, v, Assign(v));
    case Replace(h, v) => ChangedValues(Observe(s, t, h), h, v, Assign(v)); SameValues(s, Observe(s, t, h));
  }

  lemma AccessIs(s: State, t: Tid, op: Op, more: seq<Op>)
    requires Unfinished(s, t) && s.threads[t].status == Running && UsesLock(op) && !HasBody(op) && op.h in s.cells
    ensures var w := Set(s, t, Awaiting(Taken(s.threads[t], more), op));
      Unfinished(w, t) && Step(w, t) == Set(Accessed(s, t, op), t, Taken(s.threads[t], more))
  {
    var w, th := Set(s, t, Awaiting(Taken(s.threads[t], more), op)), Taken(s.threads[t], more);
    PlainAcquireIs(w, t);
    hide Step;
    assert w.threads[t].(status := Running) == th;
    assert w.threads[t := th] == s.threads[t := th];
  }

  lemma RefusedAccess(s: State, t: Tid, op: Op)
    requires t in s.threads && UsesLock(op) && H.Refused(op, Elements(s.threads[t].active), Values(s))
    ensures MeantOp(s, t, op) == (H.Thrown, Values(s))
  { }

  lemma GrantedAccess(s: State, t: Tid, op: Op, more: seq<Op>) returns (e: State)
    requires t in s.threads && Facing(s, t, [op] + more) && UsesLock(op) && !HasBody(op)
    requires !H.Refused(op, Elements(s.threads[t].active), Values(s))
    ensures Steps(s, t, 2, e) && Landed(s, e, t, more, MeantOp(s, t, op))
  {
    AccessMeans(s, t, op);
    AccessIs(s, t, op, more);
    var w := WaitStep(s, t, op, more);
    hide Step, Landed, MeantOp, Values, Accessed, Awaiting;
    StepKeepsInv(w, t, false);
    OneStep(w, t);
    e := Step(w, t);
    StepsJoin(s, t, 1, w, 1, e);
    hide Inv, Steps, Enabled;
    Lands(s, Accessed(s, t, op), t, Taken(s.threads[t], more), more, MeantOp(s, t, op));
  }

  lemma PlainAccess(s: State, t: Tid, op: Op, more: seq<Op>) returns (n: nat, e: State)
    requires t in s.threads && Facing(s, t, [op] + more) && UsesLock(op) && !HasBody(op)
    ensures Steps(s, t, n, e) && Landed(s, e, t, more, MeantOp(s, t, op))
  {
    hide Landed, Steps, Values, MeantOp, Inv;
    if H.Refused(op, Elements(s.threads[t].active), Values(s)) {
      RefusedAccess(s, t, op);
      e := RefusedStep(s, t, op, more);
      n := 1;
    } else {
      e := GrantedAccess(s, t, op, more);
      n := 2;
    }
  }

  // ---------------------------------------------------------------- catches

  lemma MutableIgnoresTodo(kind: Kind, todo: seq<Op>, more: seq<Op>, rest: seq<Frame>)
    ensures Mutable([Frame(kind, todo)] + rest) == Mutable([Frame(kind, more)] + rest)
  {
    assert ([Frame(kind, todo)] + rest)[1..] == rest == ([Frame(kind, more)] + rest)[1..];
  }

  /** The thread inside a catch. */
  function Trying(th: Thread, body: seq<Op>, more: seq<Op>): Thread
    requires th.frames != []
  {
    th.(frames := [Frame(Try, body)] + Taken(th, more).frames)
  }

  lemma TryIs(s: State, t: Tid, body: seq<Op>, more: seq<Op>)
    requires t in s.threads && Facing(s, t, [Catch(body)] + more)
    ensures Step(s, t) == Set(s, t, Trying(s.threads[t], body, more))
    ensures t in Step(s, t).threads && Facing(Step(s, t), t, body)
    ensures MeantOp(s, t, Catch(body)) == (H.Done, Meant(Step(s, t), t, body).1)
  {
    FacingMeans(s, t, [Catch(body)] + more);
    StepKeepsInv(s, t, false);
    TryStepIs(s, t, body, more);
    hide Step;
    TryMeans(s, t, body, more);
    hide Inv, Values, Mutable, MeantOp, Meant;
  }

  lemma TryStepIs(s: State, t: Tid, body: seq<Op>, more: seq<Op>)
    requires Unfinished(s, t) && s.threads[t].status == Running && Top(s.threads[t]).todo == [Catch(body)] + more
    ensures Step(s, t) == Set(s, t, Trying(s.threads[t], body, more))
  {
    TakenIsNext(s.threads[t], Catch(body), more);
  }

  lemma TryMeans(s: State, t: Tid, body: seq<Op>, more: seq<Op>)
    requires Unfinished(s, t)
    ensures var inner := Set(s, t, Trying(s.threads[t], body, more));
      t in inner.threads && MeantOp(s, t, Catch(body)) == (H.Done, Meant(inner, t, body).1)
  {
    var th := s.threads[t];
    SameValues(s, Set(s, t, Trying(th, body, more)));
    MutableIgnoresTodo(Top(th).kind, Top(th).todo, more, Rest(th));
    assert th.frames == [Top(th)] + Rest(th);
    assert Trying(th, body, more).frames[1..] == Taken(th, more).frames;
    hide Values;
  }

  /** A catch about to be left, by its end or with an exception. */
  ghost predicate AtTryEnd(s: State, t: Tid) {
    && Inv(s) && Unfinished(s, t) && Top(s.threads[t]).kind == Try
    && (s.threads[t].status == Unwinding || (s.threads[t].status == Running && Top(s.threads[t]).todo == []))
  }

  function AfterTry(s: State, t: Tid): State
    requires Unfinished(s, t)
  {
    Set(s, t, s.threads[t].(frames := Rest(s.threads[t]), status := Running))
  }

  lemma TryEnds(s: State, t: Tid)
    requires AtTryEnd(s, t)
    ensures Unfinished(s, t) && Steps(s, t, 1, AfterTry(s, t)) && Inv(AfterTry(s, t))
  {
    OneStep(s, t);
    StepKeepsInv(s, t, false);
    hide Inv, Steps;
    assert Step(s, t) == AfterTry(s, t);
  }

  lemma CatchLands(s: State, t: Tid, body: seq<Op>, more: seq<Op>, inner: State, landed: State, result: (H.Outcome, H.Values))
    requires Unfinished(s, t) && s.threads[t].status == Running
    requires inner == Set(s, t, Trying(s.threads[t], body, more)) && t in inner.threads
    requires Landed(inner, landed, t, [], result)
    ensures AtTryEnd(landed, t) && Unfinished(landed, t)
    ensures Inv(AfterTry(landed, t)) ==> Landed(s, AfterTry(landed, t), t, more, (H.Done, result.1))
  {
    hide Inv;
    var th := landed.threads[t];
    assert Trying(s.threads[t], body, more).frames[1..] == Taken(s.threads[t], more).frames;
    SameValues(landed, AfterTry(landed, t));
    hide Values;
    assert Rest(th) == Taken(s.threads[t], more).frames;
    assert Taken(s.threads[t], more).frames[1..] == Rest(s.threads[t]);
  }

  lemma {:induction false} CatchRuns(s: State, t: Tid, body: seq<Op>, more: seq<Op>) returns (n: nat, e: State)
    requires t in s.threads && Facing(s, t, [Catch(body)] + more)
    ensures Steps(s, t, n, e) && Landed(s, e, t, more, MeantOp(s, t, Catch(body)))
    decreases body, |body| + 1
  {
    hide *;
    FacingMeans(s, t, [Catch(body)] + more);
    TryIs(s, t, body, more);
    OneStep(s, t);
    var inner := Step(s, t);
    var k, landed := OpsRun(inner, t, body);
    CatchLands(s, t, body, more, inner, landed, Meant(inner, t, body));
    TryEnds(landed, t);
    e := AfterTry(landed, t);
    StepsJoin(s, t, 1, inner, k, landed);
    StepsJoin(s, t, 1 + k, landed, 1, e);
    n := 1 + k + 1;
  }

  // ---------------------------------------------------------------- callbacks

  /** The frame of a helper that runs a callback. */
  function KindOf(s: State, op: Op): Kind
    requires HasBody(op) && op.h in s.cells
  {
    Callback(op.h, ModeOf(op), match op case Update(h, f, _) => Updating(f, s.cells[h].value) case Borrow(_, _, _) => Reading case Mutate(_, _) => Mutating)
  }

  /** The thread inside a callback. */
  function Inside(s: State, t: Tid, op: Op, more: seq<Op>): Thread
    requires Unfinished(s, t) && HasBody(op) && op.h in s.cells && op.body.Body?
  {
    var th := Taken(s.threads[t], more);
    th.(frames := [Frame(KindOf(s, op), op.body.ops)] + th.frames, active := th.active + [op.h])
  }

  function Entered(s: State, t: Tid, op: Op, more: seq<Op>): State
    requires Unfinished(s, t) && HasBody(op) && op.h in s.cells && op.body.Body?
  {
    Set(s.(guards := s.guards + {Guard(t, op.h, ModeOf(op))}), t, Inside(s, t, op, more))
  }

  lemma EnterIs(s: State, t: Tid, op: Op, more: seq<Op>)
    requires Unfinished(s, t) && s.threads[t].status == Running && HasBody(op) && op.h in s.cells && op.body.Body?
    ensures var w := Set(s, t, Awaiting(Taken(s.threads[t], more), op));
      Unfinished(w, t) && Step(w, t) == Entered(s, t, op, more)
  {
    var w, inside := Set(s, t, Awaiting(Taken(s.threads[t], more), op)), Inside(s, t, op, more);
    assert w.threads[t := inside] == s.threads[t := inside];
  }

  /** What the body of a granted callback means, and what the helper makes of it. */
  lemma CallbackMeans(s: State, t: Tid, op: Op, more: seq<Op>)
    requires Unfinished(s, t) && HasBody(op) && !H.Refused(op, Elements(s.threads[t].active), Values(s))
    ensures op.h in s.cells && op.body.Body?
    ensures t in Entered(s, t, op, more).threads
    ensures MeantOp(s, t, op) == Outcome(s, op, Meant(Entered(s, t, op, more), t, op.body.ops))
  {
    var inside := Entered(s, t, op, more);
    SameValues(s, inside);
    H.ElementsPush(s.threads[t].active, op.h);
    assert Mutable(inside.threads[t].frames) == if op.Mutate? then Some(op.h) else None;
    hide Mutable;
  }

  lemma GrantedHasBody(s: State, t: Tid, op: Op)
    requires t in s.threads && HasBody(op) && !H.Refused(op, Elements(s.threads[t].active), Values(s))
    ensures UsesLock(op) && (op.Update? || op.Borrow? || op.Mutate?) && op.h in s.cells && op.body.Body?
    ensures op.h !in s.threads[t].active
  { }

  lemma EnteredFaces(s: State, t: Tid, op: Op, more: seq<Op>)
    requires Undisturbed(s, t) && Unfinished(s, t) && s.threads[t].status == Running
    requires HasBody(op) && op.h in s.cells && op.body.Body? && Inv(Entered(s, t, op, more))
    ensures Facing(Entered(s, t, op, more), t, op.body.ops)
  {
    hide Inv;
  }

  lemma CallbackStarts(s: State, t: Tid, op: Op, more: seq<Op>)
    requires t in s.threads && Facing(s, t, [op] + more) && HasBody(op)
    requires !H.Refused(op, Elements(s.threads[t].active), Values(s))
    ensures UsesLock(op) && (op.Update? || op.Borrow? || op.Mutate?) && op.h in s.cells && op.body.Body? && Unfinished(s, t)
    ensures Steps(s, t, 2, Entered(s, t, op, more)) && Facing(Entered(s, t, op, more), t, op.body.ops)
    ensures Guard(t, op.h, ModeOf(op)) !in s.guards
  {
    FacingMeans(s, t, [op] + more);
    GrantedHasBody(s, t, op);
    FreeHandle(s, t, op.h);
    var w := WaitStep(s, t, op, more);
    hide *;
    EnterIs(s, t, op, more);
    StepKeepsInv(w, t, false);
    OneStep(w, t);
    StepsJoin(s, t, 1, w, 1, Step(w, t));
    EnteredFaces(s, t, op, more);
  }

  /** The state whose cells the end of a callback leaves. */
  function Committed(s: State, t: Tid, kind: Kind, unwinding: bool): State
    requires kind.Callback? && kind.h in s.cells
  {
    if kind.work.Updating? && !unwinding then Observe(Store(s, kind.h, kind.work.f, kind.work.seen), t, kind.h) else s
  }

  lemma GuardDropIs(s: State, t: Tid)
    requires Unfinished(s, t) && Top(s.threads[t]).kind.Callback? && Top(s.threads[t]).kind.h in s.cells
    requires s.threads[t].status == Unwinding || (s.threads[t].status == Running && Top(s.threads[t]).todo == [])
    ensures var th, kind := s.threads[t], Top(s.threads[t]).kind;
      Step(s, t) == Set(Committed(s, t, kind, th.status == Unwinding).(guards := s.guards - {Guard(t, kind.h, kind.mode)}), t,
                        th.(frames := [Frame(Leaving(kind.h), [])] + Rest(th)))
  { }

  lemma MarkerDropIs(s: State, t: Tid, h: Handle)
    requires Unfinished(s, t) && Top(s.threads[t]) == Frame(Leaving(h), []) && !s.threads[t].status.Waiting?
    ensures var th := s.threads[t]; Step(s, t) == Set(s, t, th.(frames := Rest(th), active := RemoveLast(th.active, h)))
  {
    hide RemoveLast;
  }

  /** Leaving a callback: the value of an update is stored, then guard and marker go. */
  function Left(s: State, t: Tid): State
    requires Unfinished(s, t) && Top(s.threads[t]).kind.Callback? && Top(s.threads[t]).kind.h in s.cells
  {
    var th, kind := s.threads[t], Top(s.threads[t]).kind;
    Set(Committed(s, t, kind, th.status == Unwinding).(guards := s.guards - {Guard(t, kind.h, kind.mode)}), t,
        th.(frames := Rest(th), active := RemoveLast(th.active, kind.h)))
  }

  ghost predicate AtCallbackEnd(s: State, t: Tid) {
    && Inv(s) && Unfinished(s, t) && Top(s.threads[t]).kind.Callback? && Top(s.threads[t]).kind.h in s.cells
    && (s.threads[t].status == Unwinding || (s.threads[t].status == Running && Top(s.threads[t]).todo == []))
  }

  /** Between the two drops. */
  function Unguarded(s: State, t: Tid): State
    requires Unfinished(s, t) && Top(s.threads[t]).kind.Callback? && Top(s.threads[t]).kind.h in s.cells
  {
    var th, kind := s.threads[t], Top(s.threads[t]).kind;
    Set(Committed(s, t, kind, th.status == Unwinding).(guards := s.guards - {Guard(t, kind.h, kind.mode)}), t,
        th.(frames := [Frame(Leaving(kind.h), [])] + Rest(th)))
  }

  lemma GuardDrops(s: State, t: Tid)
    requires AtCallbackEnd(s, t)
    ensures Unfinished(s, t) && Steps(s, t, 1, Unguarded(s, t)) && Inv(Unguarded(s, t))
  {
    OneStep(s, t);
    StepKeepsInv(s, t, false);
    hide Inv, Steps;
    GuardDropIs(s, t);
  }

  lemma SetTwice(s: State, t: Tid, a: Thread, b: Thread)
    ensures Set(Set(s, t, a), t, b) == Set(s, t, b)
  {
    assert s.threads[t := a][t := b] == s.threads[t := b];
  }

  /** The drop of the marker, as a step of the state between the drops. */
  lemma MarkerStepIs(s: State, t: Tid)
    requires Unfinished(s, t) && Top(s.threads[t]).kind.Callback? && Top(s.threads[t]).kind.h in s.cells
    requires !s.threads[t].status.Waiting?
    ensures Enabled(Unguarded(s, t), t, false) && Step(Unguarded(s, t), t) == Left(s, t)
  {
    hide Step, Committed, RemoveLast;
    var th, kind, mid := s.threads[t], Top(s.threads[t]).kind, Unguarded(s, t);
    var now := mid.threads[t];
    assert Rest(now) == Rest(th);
    MarkerDropIs(mid, t, kind.h);
    SetTwice(Committed(s, t, kind, th.status == Unwinding).(guards := s.guards - {Guard(t, kind.h, kind.mode)}), t,
             now, now.(frames := Rest(now), active := RemoveLast(now.active, kind.h)));
  }

  lemma AtEnd(s: State, t: Tid)
    requires AtCallbackEnd(s, t)
    ensures Unfinished(s, t) && Top(s.threads[t]).kind.Callback? && Top(s.threads[t]).kind.h in s.cells
    ensures !s.threads[t].status.Waiting?
  {
    hide Inv;
  }

  lemma MarkerDrops(s: State, t: Tid)
    requires AtCallbackEnd(s, t) && Inv(Unguarded(s, t))
    ensures Unfinished(s, t) && Steps(Unguarded(s, t), t, 1, Left(s, t)) && Inv(Left(s, t))
  {
    hide *;
    AtEnd(s, t);
    MarkerStepIs(s, t);
    OneStep(Unguarded(s, t), t);
    StepKeepsInv(Unguarded(s, t), t, false);
  }

  lemma CallbackEnds(s: State, t: Tid)
    requires AtCallbackEnd(s, t)
    ensures Unfinished(s, t) && Steps(s, t, 2, Left(s, t)) && Inv(Left(s, t))
  {
    GuardDrops(s, t);
    MarkerDrops(s, t);
    StepsJoin(s, t, 1, Unguarded(s, t), 1, Left(s, t));
    hide *;
  }

  lemma CommittedThreads(s: State, t: Tid, kind: Kind, unwinding: bool)
    requires kind.Callback? && kind.h in s.cells
    ensures Committed(s, t, kind, unwinding).threads == s.threads
    ensures Committed(s, t, kind, unwinding).cells.Keys == s.cells.Keys
    ensures Values(Committed(s, t, kind, unwinding)) ==
      if kind.work.Updating? && !unwinding then Values(s)[kind.h := LockCallbacks.Run(Apply(kind.work.f), kind.work.seen)]
      else Values(s)
  {
    if kind.work.Updating? && !unwinding {
      ChangedValues(s, kind.h, LockCallbacks.Run(Apply(kind.work.f), kind.work.seen), Apply(kind.work.f));
      SameValues(Store(s, kind.h, kind.work.f, kind.work.seen), Committed(s, t, kind, unwinding));
    }
  }

  /** What the thread has inside a callback, and what it has again after it. */
  lemma InsideParts(s: State, t: Tid, op: Op, more: seq<Op>)
    requires Unfinished(s, t) && HasBody(op) && op.h in s.cells && op.body.Body?
    ensures var th := Entered(s, t, op, more).threads[t];
      && Unfinished(Entered(s, t, op, more), t)
      && Top(th).kind == KindOf(s, op) && Rest(th) == Taken(s.threads[t], more).frames
      && RemoveLast(th.active, op.h) == s.threads[t].active
  {
    RemoveLastOfPushed(s.threads[t].active, op.h);
    hide RemoveLast;
  }

  lemma EnteredParts(s: State, t: Tid, op: Op, more: seq<Op>)
    requires Unfinished(s, t) && HasBody(op) && op.h in s.cells && op.body.Body?
    ensures var inner := Entered(s, t, op, more);
      && inner.guards == s.guards + {Guard(t, op.h, ModeOf(op))} && inner.threads.Keys == s.threads.Keys
      && forall u | u in s.threads && u != t :: inner.threads[u] == s.threads[u]
  { }

  /** The helper's value for the result of its callback. */
  function Outcome(s: State, op: Op, body: (H.Outcome, H.Values)): (H.Outcome, H.Values)
    requires HasBody(op) && op.h in s.cells
  {
    if op.Update? && body.0 == H.Done then (H.Done, body.1[op.h := LockCallbacks.Run(Apply(op.f), s.cells[op.h].value)]) else body
  }

  lemma CallbackLands(s: State, t: Tid, op: Op, more: seq<Op>, inner: State, landed: State, body: (H.Outcome, H.Values))
    requires Unfinished(s, t) && s.threads[t].status == Running && HasBody(op) && op.h in s.cells && op.body.Body?
    requires Guard(t, op.h, ModeOf(op)) !in s.guards
    requires inner == Entered(s, t, op, more) && t in inner.threads && Landed(inner, landed, t, [], body)
    requires op.h in body.1
    ensures AtCallbackEnd(landed, t) && Unfinished(landed, t)
    ensures Top(landed.threads[t]).kind.Callback? && Top(landed.threads[t]).kind.h in landed.cells
    ensures Inv(Left(landed, t)) ==> Landed(s, Left(landed, t), t, more, Outcome(s, op, body))
  {
    hide Inv, RemoveLast, Values, Committed, Outcome, Entered;
    InsideParts(s, t, op, more);
    assert landed.threads[t].frames != [] && Top(landed.threads[t]).kind == KindOf(s, op);
    assert op.h in landed.cells by { ValuesKeys(landed); }
    CallbackLeaves(s, t, op, more, inner, landed, body);
    hide KindOf, Taken;
  }

  lemma ValuesKeys(s: State)
    ensures Values(s).Keys == s.cells.Keys
  { }

  lemma CallbackLeaves(s: State, t: Tid, op: Op, more: seq<Op>, inner: State, landed: State, body: (H.Outcome, H.Values))
    requires Unfinished(s, t) && s.threads[t].status == Running && HasBody(op) && op.h in s.cells && op.body.Body?
    requires Guard(t, op.h, ModeOf(op)) !in s.guards
    requires inner == Entered(s, t, op, more) && t in inner.threads && Landed(inner, landed, t, [], body)
    requires op.h in landed.cells && Unfinished(landed, t) && Top(landed.threads[t]).kind == KindOf(s, op)
    ensures Inv(Left(landed, t)) ==> Landed(s, Left(landed, t), t, more, Outcome(s, op, body))
  {
    hide Inv, RemoveLast, Values, Committed, Entered;
    InsideParts(s, t, op, more);
    EnteredParts(s, t, op, more);
    var kind, e := KindOf(s, op), Left(landed, t);
    CommittedThreads(landed, t, kind, landed.threads[t].status == Unwinding);
    SameValues(Committed(landed, t, kind, landed.threads[t].status == Unwinding), e);
    assert Taken(s.threads[t], more).frames[1..] == Rest(s.threads[t]);
    assert e.guards == s.guards;
    assert Values(e) == Outcome(s, op, body).1;
  }

  lemma KeysStay(s: State, t: Tid, op: Op, more: seq<Op>)
    requires Unfinished(s, t) && HasBody(op) && op.h in s.cells && op.body.Body?
    ensures op.h in Meant(Entered(s, t, op, more), t, op.body.ops).1
  {
    var inner := Entered(s, t, op, more);
    H.ActiveValuesStayAll(op.body.ops, Elements(inner.threads[t].active), Values(inner), Mutable(inner.threads[t].frames), op.h);
  }

  lemma {:induction false} CallbackRuns(s: State, t: Tid, op: Op, more: seq<Op>) returns (n: nat, e: State)
    requires t in s.threads && Facing(s, t, [op] + more) && HasBody(op) && !H.Refused(op, Elements(s.threads[t].active), Values(s))
    ensures Steps(s, t, n, e) && Landed(s, e, t, more, MeantOp(s, t, op))
    decreases op, 0
  {
    hide *;
    FacingMeans(s, t, [op] + more);
    CallbackStarts(s, t, op, more);
    CallbackMeans(s, t, op, more);
    KeysStay(s, t, op, more);
    var inner := Entered(s, t, op, more);
    var k, landed := OpsRun(inner, t, op.body.ops);
    CallbackLands(s, t, op, more, inner, landed, Meant(inner, t, op.body.ops));
    CallbackEnds(landed, t);
    e := Left(landed, t);
    StepsJoin(s, t, 2, inner, k, landed);
    StepsJoin(s, t, 2 + k, landed, 2, e);
    n := 2 + k + 2;
  }

  // ---------------------------------------------------------------- all operations

  lemma {:induction false} OpRuns(s: State, t: Tid, op: Op, more: seq<Op>) returns (n: nat, e: State)
    requires t in s.threads && Facing(s, t, [op] + more)
    ensures Steps(s, t, n, e) && Landed(s, e, t, more, MeantOp(s, t, op))
    decreases op, 1
  {
    hide Steps, Landed, MeantOp, Values, Inv;
    if op.Throw? {
      e := ThrowStep(s, t, more);
      n := 1;
    } else if op.Poke? {
      e := PokeStep(s, t, op.f, more);
      n := 1;
    } else if op.Catch? {
      n, e := CatchRuns(s, t, op.guarded, more);
    } else if HasBody(op) && !H.Refused(op, Elements(s.threads[t].active), Values(s)) {
      n, e := CallbackRuns(s, t, op, more);
    } else if HasBody(op) {
      RefusedAccess(s, t, op);
      e := RefusedStep(s, t, op, more);
      n := 1;
    } else {
      n, e := PlainAccess(s, t, op, more);
    }
  }

  /** The rest of the list means the same where the thread has landed. */
  lemma SamePlace(s: State, t: Tid, more: seq<Op>, mid: State, result: (H.Outcome, H.Values))
    requires t in s.threads && Landed(s, mid, t, more, result)
    ensures t in mid.threads && mid.threads[t].active == s.threads[t].active && Values(mid) == result.1
    ensures Mutable(mid.threads[t].frames) == Mutable(s.threads[t].frames)
  {
    hide Inv, Values;
    var th, th' := s.threads[t], mid.threads[t];
    assert th.frames == [Frame(Top(th).kind, Top(th).todo)] + Rest(th);
    assert th'.frames == [Frame(Top(th).kind, Top(th').todo)] + Rest(th);
    MutableIgnoresTodo(Top(th).kind, Top(th).todo, Top(th').todo, Rest(th));
    hide Mutable;
  }

  lemma MeantNext(s: State, t: Tid, ops: seq<Op>, mid: State)
    requires t in s.threads && ops != [] && Landed(s, mid, t, ops[1..], MeantOp(s, t, ops[0]))
    ensures t in mid.threads
    ensures Meant(s, t, ops) == if MeantOp(s, t, ops[0]).0 == H.Thrown then MeantOp(s, t, ops[0]) else Meant(mid, t, ops[1..])
  {
    SamePlace(s, t, ops[1..], mid, MeantOp(s, t, ops[0]));
    hide Landed, Mutable, Values, Elements;
  }

  lemma LandedFaces(s: State, t: Tid, more: seq<Op>, mid: State, result: (H.Outcome, H.Values))
    requires t in s.threads && Undisturbed(s, t) && Landed(s, mid, t, more, result) && result.0 == H.Done
    ensures Facing(mid, t, more)
  {
    hide Inv, Values;
  }

  lemma LandsAgain(s: State, t: Tid, more: seq<Op>, mid: State, first: (H.Outcome, H.Values), last: State, second: (H.Outcome, H.Values))
    requires t in s.threads && Landed(s, mid, t, more, first) && t in mid.threads && Landed(mid, last, t, [], second)
    ensures Landed(s, last, t, [], second)
  {
    hide Inv, Values;
  }

  lemma LandsThrown(s: State, t: Tid, more: seq<Op>, mid: State, result: (H.Outcome, H.Values))
    requires t in s.threads && Landed(s, mid, t, more, result) && result.0 == H.Thrown
    ensures Landed(s, mid, t, [], result)
  {
    hide Inv, Values;
  }

  lemma LandsAtOnce(s: State, t: Tid)
    requires t in s.threads && Facing(s, t, [])
    ensures Steps(s, t, 0, s) && Landed(s, s, t, [], Meant(s, t, []))
  {
    hide Inv;
  }

  /** Run by itself, a thread takes a list of operations to its structured meaning, and is back between the same scopes. */
  lemma {:induction false} OpsRun(s: State, t: Tid, ops: seq<Op>) returns (n: nat, e: State)
    requires t in s.threads && Facing(s, t, ops)
    ensures Steps(s, t, n, e) && Landed(s, e, t, [], Meant(s, t, ops))
    decreases ops, |ops|
  {
    hide *;
    FacingMeans(s, t, ops);
    if ops == [] {
      LandsAtOnce(s, t);
      n, e := 0, s;
    } else {
      assert ops == [ops[0]] + ops[1..];
      n, e := OpRuns(s, t, ops[0], ops[1..]);
      var mid := e;
      MeantNext(s, t, ops, mid);
      if MeantOp(s, t, ops[0]).0 == H.Done {
        LandedFaces(s, t, ops[1..], mid, MeantOp(s, t, ops[0]));
        var m, last := OpsRun(mid, t, ops[1..]);
        LandsAgain(s, t, ops[1..], mid, MeantOp(s, t, ops[0]), last, Meant(mid, t, ops[1..]));
        StepsJoin(s, t, n, mid, m, last);
        n, e := n + m, last;
      } else {
        LandsThrown(s, t, ops[1..], mid, MeantOp(s, t, ops[0]));
      }
    }
  }

  /** n times the thread t. */
  function Only(t: Tid, n: nat): seq<Tid> {
    if n == 0 then [] else [t] + Only(t, n - 1)
  }

  lemma {:induction false} StepsAreARun(s: State, t: Tid, n: nat, e: State)
    requires Steps(s, t, n, e)
    ensures Runs(s, Only(t, n)) && Exec(s, Only(t, n)) == e
    decreases n
  {
    hide Step, Blocked, HeldBack, IsWaiting;
    if n > 0 {
      StepsAreARun(Step(s, t), t, n - 1, e);
      assert Only(t, n)[1..] == Only(t, n - 1);
    }
  }

  /**
    A thread that starts and runs by itself ends with the values of its structured meaning,
    throwing exactly if that throws, with no guard held and nothing marked.
  */
  lemma AloneRunsToMeaning(s: State, t: Tid, ops: seq<Op>) returns (n: nat)
    requires Inv(s) && s.guards == {} && t in s.threads && s.threads[t] == Thread([Frame(Root, ops)], [], Running)
    ensures Runs(s, Only(t, n))
    ensures var e, meant := Exec(s, Only(t, n)), H.Meaning(ops, {}, Values(s), None);
      && Values(e) == meant.1 && e.guards == {}
      && t in e.threads && e.threads[t].active == []
      && (e.threads[t].status == Unwinding <==> meant.0 == H.Thrown)
      && (meant.0 == H.Done ==> e.threads[t] == Thread([Frame(Root, [])], [], Running))
  {
    StartFaces(s, t, ops);
    hide *;
    var k, e := OpsRun(s, t, ops);
    n := k;
    StepsAreARun(s, t, n, e);
    LandedAtEnd(s, e, t, ops, Meant(s, t, ops));
  }

  lemma StartFaces(s: State, t: Tid, ops: seq<Op>)
    requires Inv(s) && s.guards == {} && t in s.threads && s.threads[t] == Thread([Frame(Root, ops)], [], Running)
    ensures Facing(s, t, ops) && Meant(s, t, ops) == H.Meaning(ops, {}, Values(s), None)
  {
    hide Inv;
    assert Mutable(s.threads[t].frames) == None && Elements(s.threads[t].active) == {};
  }

  lemma LandedAtEnd(s: State, e: State, t: Tid, ops: seq<Op>, result: (H.Outcome, H.Values))
    requires t in s.threads && s.threads[t] == Thread([Frame(Root, ops)], [], Running) && s.guards == {}
    requires Landed(s, e, t, [], result)
    ensures Values(e) == result.1 && e.guards == {} && t in e.threads && e.threads[t].active == []
    ensures e.threads[t].status == Unwinding <==> result.0 == H.Thrown
    ensures result.0 == H.Done ==> e.threads[t] == Thread([Frame(Root, [])], [], Running)
  {
    hide Inv, Values;
    assert Rest(s.threads[t]) == [];
    assert e.threads[t].frames == [Top(e.threads[t])] + Rest(e.threads[t]);
  }
}
