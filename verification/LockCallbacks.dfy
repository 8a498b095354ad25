/**
  The closure-scoped lock helpers of runtime/hxrt/src/concurrent.rs: threads run
  callbacks while they hold a mutex or RwLock guard, and a per-thread stack of active
  handles makes same-handle access throw before it could wait.

  A state machine over threads: one step per marker push, acquisition, in-place
  write, guard drop and marker drop.  A helper whose guard spans no user code
  (get, set, replace, read, write) acquires, acts and releases in one step.
*/
module LockCallbacks {
  import opened Common

  type Handle = nat
  type Tid = nat
  type Value = int

  // A mutex is only ever taken Exclusive; an RwLock in either mode.
  datatype Mode = Shared | Exclusive

  // A function on values, as a table that leaves values outside it alone: a run
  // applies a callback's function to finitely many values.
  type Fun = map<Value, Value>

  datatype Effect = Assign(v: Value) | Apply(f: Fun)

  datatype Op =
    | Peek(h: Handle, mode: Mode)                                    // get, read
    | Put(h: Handle, v: Value)                                       // set, write
    | Replace(h: Handle, v: Value)                                   // replace: hands out the old value
    | Update(h: Handle, f: Fun, body: Callee)    // update: runs body, then stores f(old)
    | Borrow(h: Handle, mode: Mode, body: Callee)           // with_ref, with_read
    | Mutate(h: Handle, body: Callee)                       // with_mut, with_write
    | Poke(f: Fun)                                        // in-place write through the &mut of the callback
    | Throw
    | Catch(guarded: seq<Op>)

  // A Haxe callback reference may be null.
  datatype Callee = NullCallee | Body(ops: seq<Op>)

  datatype Work = Updating(f: Fun, seen: Value) | Reading | Mutating

  datatype Kind =
    | Root
    | Try
    | Callback(h: Handle, mode: Mode, work: Work)   // marker pushed, guard held
    | Leaving(h: Handle)                            // guard dropped, marker still there

  datatype Frame = Frame(kind: Kind, todo: seq<Op>)

  datatype Status = Running | Unwinding | Waiting(op: Op)

  // frames[0] is the innermost frame; a finished thread has none.
  datatype Thread = Thread(frames: seq<Frame>, active: seq<Handle>, status: Status)

  datatype Guard = Guard(t: Tid, h: Handle, mode: Mode)

  // `initial`, `log` are history variables; `value` is what the lock protects.
  datatype Cell = Cell(initial: Value, value: Value, log: seq<Effect>)

  // What a helper returned to thread t, and how much of the cell's log it had seen.
  datatype Observation = Observation(t: Tid, h: Handle, value: Value, upto: nat)

  // A handle outside `cells` is the null handle.
  datatype State = State(
    threads: map<Tid, Thread>,
    guards: set<Guard>,
    cells: map<Handle, Cell>,
    seen: seq<Observation>)

  function Run(effect: Effect, v: Value): Value {
    match effect
    case Assign(w) => w
    case Apply(f) => if v in f then f[v] else v
  }

  /** The sequential execution of a log. */
  function Fold(v: Value, log: seq<Effect>): Value {
    if log == [] then v else Run(log[|log| - 1], Fold(v, log[..|log| - 1]))
  }

  // ---------------------------------------------------------------- steps

  predicate HasBody(op: Op) { op.Update? || op.Borrow? || op.Mutate? }

  predicate UsesLock(op: Op) { HasBody(op) || op.Peek? || op.Put? || op.Replace? }

  function ModeOf(op: Op): Mode
    requires UsesLock(op)
  {
    if op.Peek? || op.Borrow? then op.mode else Exclusive
  }

  predicate Unfinished(s: State, t: Tid) {
    t in s.threads && s.threads[t].frames != []
  }

  predicate IsWaiting(s: State, t: Tid) {
    t in s.threads && s.threads[t].frames != [] && s.threads[t].status.Waiting? && UsesLock(s.threads[t].status.op)
  }

  predicate Conflict(g: Guard, h: Handle, mode: Mode) {
    g.h == h && (g.mode == Exclusive || mode == Exclusive)
  }

  /** Would granting the lock conflict with a guard that is held? */
  predicate Blocked(s: State, h: Handle, mode: Mode) {
    exists g | g in s.guards :: Conflict(g, h, mode)
  }

  /** parking_lot lets a waiting writer keep new readers out; `fair` says whether it does so now. */
  predicate HeldBack(s: State, t: Tid, h: Handle, mode: Mode) {
    mode == Shared &&
    exists u | u in s.threads :: u != t && IsWaiting(s, u) && s.threads[u].status.op.h == h && ModeOf(s.threads[u].status.op) == Exclusive
  }

  predicate Enabled(s: State, t: Tid, fair: bool) {
    && Unfinished(s, t)
    && (IsWaiting(s, t) ==>
          var op := s.threads[t].status.op;
          !Blocked(s, op.h, ModeOf(op)) && !(fair && HeldBack(s, t, op.h, ModeOf(op))))
  }

  function Top(th: Thread): Frame
    requires th.frames != []
  {
    th.frames[0]
  }

  function Rest(th: Thread): seq<Frame>
    requires th.frames != []
  {
    th.frames[1..]
  }

  function Set(s: State, t: Tid, th: Thread): State {
    s.(threads := s.threads[t := th])
  }

  function Change(s: State, h: Handle, v: Value, e: Effect): State
    requires h in s.cells
  {
    s.(cells := s.cells[h := s.cells[h].(value := v, log := s.cells[h].log + [e])])
  }

  function Write(s: State, h: Handle, effect: Effect): State
    requires h in s.cells
  {
    Change(s, h, Run(effect, s.cells[h].value), effect)
  }

  /** The end of an update: the value computed from the captured clone is stored; the log records the update itself. */
  function Store(s: State, h: Handle, f: Fun, seen: Value): State
    requires h in s.cells
  {
    Change(s, h, Run(Apply(f), seen), Apply(f))
  }

  function Observe(s: State, t: Tid, h: Handle): State
    requires h in s.cells
  {
    s.(seen := s.seen + [Observation(t, h, s.cells[h].value, |s.cells[h].log|)])
  }

  /** Drop of LockCallbackScope: remove the last occurrence of the identity. */
  function RemoveLast(active: seq<Handle>, h: Handle): seq<Handle> {
    if active == [] then []
    else if active[|active| - 1] == h then active[..|active| - 1]
    else RemoveLast(active[..|active| - 1], h) + [active[|active| - 1]]
  }

  /** The handle whose value the innermost callback may change in place. */
  function Mutable(frames: seq<Frame>): Option<Handle> {
    if frames == [] then None
    else match frames[0].kind
      case Try => Mutable(frames[1..])
      case Callback(h, _, Mutating) => Some(h)
      case _ => None
  }

  /** One step of an unfinished thread; a waiting thread acquires. */
  function Step(s: State, t: Tid): State
    requires Unfinished(s, t)
  {
    var th := s.threads[t];
    match th.status
    case Waiting(op) => Acquire(s, t, op)
    case Unwinding => Unwind(s, t)
    case Running => if Top(th).todo == [] then Return(s, t) else Begin(s, t, Top(th).todo[0])
  }

  function Begin(s: State, t: Tid, op: Op): State
    requires Unfinished(s, t) && Top(s.threads[t]).todo != []
  {
    var th := s.threads[t];
    var next := th.(frames := [Top(th).(todo := Top(th).todo[1..])] + Rest(th));
    match op
    case Throw => Set(s, t, next.(status := Unwinding))
    case Catch(body) => Set(s, t, next.(frames := [Frame(Try, body)] + next.frames))
    case Poke(f) =>
      (match Mutable(th.frames)
       case Some(h) => if h in s.cells then Set(Write(s, h, Apply(f)), t, next) else Set(s, t, next)
       case None => Set(s, t, next))
    case _ =>
      // A null callback or handle and an active handle throw before anything is pushed or awaited.
      if (HasBody(op) && op.body.NullCallee?) || op.h !in s.cells || op.h in th.active then
        Set(s, t, next.(status := Unwinding))
      else
        Set(s, t, next.(status := Waiting(op), active := if HasBody(op) then th.active + [op.h] else th.active))
  }

  function Acquire(s: State, t: Tid, op: Op): State
    requires Unfinished(s, t)
  {
    var th := s.threads[t].(status := Running);
    if !UsesLock(op) || op.h !in s.cells || (HasBody(op) && op.body.NullCallee?) then Set(s, t, th)
    else match op
      case Peek(h, _) => Set(Observe(s, t, h), t, th)
      case Put(h, v) => Set(Write(s, h, Assign(v)), t, th)
      case Replace(h, v) => Set(Write(Observe(s, t, h), h, Assign(v)), t, th)
      case Update(h, f, body) => Enter(s, t, Callback(h, Exclusive, Updating(f, s.cells[h].value)), body.ops)
      case Borrow(h, mode, body) => Enter(s, t, Callback(h, mode, Reading), body.ops)
      case Mutate(h, body) => Enter(s, t, Callback(h, Exclusive, Mutating), body.ops)
  }

  function Enter(s: State, t: Tid, kind: Kind, body: seq<Op>): State
    requires Unfinished(s, t) && kind.Callback?
  {
    var th := s.threads[t];
    Set(s.(guards := s.guards + {Guard(t, kind.h, kind.mode)}), t,
        th.(frames := [Frame(kind, body)] + th.frames, status := Running))
  }

  function Return(s: State, t: Tid): State
    requires Unfinished(s, t)
  {
    var th := s.threads[t];
    match Top(th).kind
    case Root => Set(s, t, th.(frames := Rest(th)))
    case Try => Set(s, t, th.(frames := Rest(th)))
    case Callback(h, mode, Updating(f, seen)) =>
      var stored := if h in s.cells then Observe(Store(s, h, f, seen), t, h) else s;
      DropGuard(stored, t, h, mode)
    case Callback(h, mode, _) => DropGuard(s, t, h, mode)
    case Leaving(h) => DropMarker(s, t, h)
  }

  function Unwind(s: State, t: Tid): State
    requires Unfinished(s, t)
  {
    var th := s.threads[t];
    match Top(th).kind
    case Root => Set(s, t, th.(frames := Rest(th)))
    case Try => Set(s, t, th.(frames := Rest(th), status := Running))
    case Callback(h, mode, _) => DropGuard(s, t, h, mode)
    case Leaving(h) => DropMarker(s, t, h)
  }

  function DropGuard(s: State, t: Tid, h: Handle, mode: Mode): State
    requires Unfinished(s, t)
  {
    var th := s.threads[t];
    Set(s.(guards := s.guards - {Guard(t, h, mode)}), t, th.(frames := [Frame(Leaving(h), [])] + Rest(th)))
  }

  function DropMarker(s: State, t: Tid, h: Handle): State
    requires Unfinished(s, t)
  {
    var th := s.threads[t];
    Set(s, t, th.(frames := Rest(th), active := RemoveLast(th.active, h)))
  }

  // ---------------------------------------------------------------- invariant

  /** The marker that a frame stands for. */
  function Marker(kind: Kind): seq<Handle> {
    match kind
    case Callback(h, _, _) => [h]
    case Leaving(h) => [h]
    case _ => []
  }

  /** The markers of a control stack, outermost first. */
  function Markers(frames: seq<Frame>): seq<Handle> {
    if frames == [] then [] else Markers(frames[1..]) + Marker(frames[0].kind)
  }

  function Held(t: Tid, kind: Kind): set<Guard> {
    if kind.Callback? then {Guard(t, kind.h, kind.mode)} else {}
  }

  /** The guards that a control stack of thread t keeps alive. */
  function Guards(t: Tid, frames: seq<Frame>): set<Guard> {
    if frames == [] then {} else Guards(t, frames[1..]) + Held(t, frames[0].kind)
  }

  function Awaited(status: Status): seq<Handle> {
    if status.Waiting? && HasBody(status.op) then [status.op.h] else []
  }

  predicate NoDuplicates(hs: seq<Handle>) {
    forall i, j | 0 <= i < j < |hs| :: hs[i] != hs[j]
  }

  ghost predicate ThreadOk(s: State, t: Tid)
    requires t in s.threads
  {
    var th := s.threads[t];
    && th.active == Markers(th.frames) + Awaited(th.status)
    && NoDuplicates(th.active)
    && (forall g | g in s.guards && g.t == t :: g in Guards(t, th.frames))
    && Guards(t, th.frames) <= s.guards
    && (th.status.Waiting? ==>
          && th.frames != [] && UsesLock(th.status.op) && th.status.op.h in s.cells
          && (HasBody(th.status.op) ==> th.status.op.body.Body?)
          && th.status.op.h !in Markers(th.frames))
    && (forall i | 0 <= i < |th.frames| :: KindOk(s, th.frames[i].kind))
  }

  ghost predicate KindOk(s: State, kind: Kind) {
    kind.Callback? ==>
      && kind.h in s.cells
      && (kind.work.Updating? ==> kind.mode == Exclusive && s.cells[kind.h].value == kind.work.seen)
      && (kind.work.Mutating? ==> kind.mode == Exclusive)
  }

  /** A guard that excludes others is alone on its handle. */
  ghost predicate GuardsExclude(s: State) {
    forall g, k | g in s.guards && k in s.guards && g != k :: !Conflict(g, k.h, k.mode)
  }

  ghost predicate CellsFold(s: State) {
    forall h | h in s.cells :: s.cells[h].value == Fold(s.cells[h].initial, s.cells[h].log)
  }

  ghost predicate SeenFold(s: State) {
    forall o | o in s.seen ::
      o.h in s.cells && o.upto <= |s.cells[o.h].log| && o.value == Fold(s.cells[o.h].initial, s.cells[o.h].log[..o.upto])
  }

  ghost predicate Inv(s: State) {
    && (forall t | t in s.threads :: ThreadOk(s, t))
    && (forall g | g in s.guards :: g.t in s.threads)
    && GuardsExclude(s) && CellsFold(s) && SeenFold(s)
  }

  predicate Init(s: State) {
    && s.guards == {} && s.seen == []
    && (forall h | h in s.cells :: s.cells[h].log == [] && s.cells[h].value == s.cells[h].initial)
    && (forall t | t in s.threads ::
          |s.threads[t].frames| == 1 && s.threads[t].frames[0].kind == Root
          && s.threads[t].active == [] && s.threads[t].status == Running)
  }

  lemma InitGivesInv(s: State)
    requires Init(s)
    ensures Inv(s)
  {
    forall t | t in s.threads ensures ThreadOk(s, t) {
      assert s.threads[t].frames[1..] == [];
      assert Markers(s.threads[t].frames) == [];
      assert Guards(t, s.threads[t].frames) == {};
    }
  }

  // ---------------------------------------------------------------- facts about control stacks

  lemma {:induction false} FrameCounts(t: Tid, frames: seq<Frame>, i: nat)
    requires i < |frames|
    ensures forall h | h in Marker(frames[i].kind) :: h in Markers(frames)
    ensures Held(t, frames[i].kind) <= Guards(t, frames)
  {
    if i > 0 { FrameCounts(t, frames[1..], i - 1); }
  }

  lemma {:induction false} GuardsAreMarked(t: Tid, frames: seq<Frame>)
    ensures forall g | g in Guards(t, frames) :: g.t == t && g.h in Markers(frames)
  {
    if frames != [] { GuardsAreMarked(t, frames[1..]); }
  }

  /** Dropping the marker of the innermost scope takes the last entry, which the drop's search finds first. */
  lemma RemoveLastOfPushed(hs: seq<Handle>, h: Handle)
    ensures RemoveLast(hs + [h], h) == hs
  {
    assert (hs + [h])[..|hs|] == hs;
  }

  lemma FoldAppend(v: Value, log: seq<Effect>, e: Effect)
    ensures Fold(v, log + [e]) == Run(e, Fold(v, log))
  {
    assert (log + [e])[..|log|] == log;
  }

  // ---------------------------------------------------------------- preservation

  /** Changing one thread alone keeps the invariant when that thread stays consistent. */
  lemma SetKeepsInv(s: State, t: Tid, th: Thread)
    requires Inv(s) && t in s.threads && ThreadOk(Set(s, t, th), t)
    ensures Inv(Set(s, t, th))
  {
    hide Markers, Guards;
    var s' := Set(s, t, th);
    forall u | u in s'.threads ensures ThreadOk(s', u) {
      if u != t { assert ThreadOk(s, u); }
    }
    hide ThreadOk;
  }

  ghost predicate NoUpdateOn(s: State, h: Handle) {
    forall t, i | t in s.threads && 0 <= i < |s.threads[t].frames| ::
      var kind := s.threads[t].frames[i].kind;
      kind.Callback? && kind.work.Updating? ==> kind.h != h
  }

  lemma ChangeKeepsSeen(s: State, h: Handle, v: Value, e: Effect)
    requires h in s.cells && SeenFold(s)
    ensures SeenFold(Change(s, h, v, e))
  {
    var c, s' := s.cells[h], Change(s, h, v, e);
    forall o | o in s'.seen
      ensures o.h in s'.cells && o.upto <= |s'.cells[o.h].log|
      ensures o.value == Fold(s'.cells[o.h].initial, s'.cells[o.h].log[..o.upto])
    {
      if o.h == h { assert (c.log + [e])[..o.upto] == c.log[..o.upto]; }
    }
  }

  lemma ChangeKeepsFold(s: State, h: Handle, v: Value, e: Effect)
    requires h in s.cells && CellsFold(s) && v == Run(e, s.cells[h].value)
    ensures CellsFold(Change(s, h, v, e))
  {
    var s' := Change(s, h, v, e);
    forall k | k in s'.cells ensures s'.cells[k].value == Fold(s'.cells[k].initial, s'.cells[k].log) {
      if k == h { FoldAppend(s.cells[h].initial, s.cells[h].log, e); }
    }
  }

  lemma ChangeKeepsThread(s: State, h: Handle, v: Value, e: Effect, t: Tid)
    requires h in s.cells && NoUpdateOn(s, h) && t in s.threads && ThreadOk(s, t)
    ensures ThreadOk(Change(s, h, v, e), t)
  {
    var s' := Change(s, h, v, e);
    forall i | 0 <= i < |s'.threads[t].frames| ensures KindOk(s', s'.threads[t].frames[i].kind) {
      assert KindOk(s, s.threads[t].frames[i].kind);
    }
  }

  /** A cell that no update has captured may change, as long as its log says so. */
  lemma ChangeKeepsInv(s: State, h: Handle, v: Value, e: Effect)
    requires Inv(s) && h in s.cells && NoUpdateOn(s, h) && v == Run(e, s.cells[h].value)
    ensures Inv(Change(s, h, v, e))
  {
    ChangeKeepsFold(s, h, v, e);
    ChangeKeepsSeen(s, h, v, e);
    var s' := Change(s, h, v, e);
    forall t | t in s'.threads ensures ThreadOk(s', t) { ChangeKeepsThread(s, h, v, e, t); }
  }

  lemma ObserveKeepsInv(s: State, t: Tid, h: Handle)
    requires Inv(s) && h in s.cells
    ensures Inv(Observe(s, t, h))
  {
    var s' := Observe(s, t, h);
    assert s.cells[h].log[..|s.cells[h].log|] == s.cells[h].log;
    forall u | u in s'.threads ensures ThreadOk(s', u) {
      assert ThreadOk(s, u);
      forall i | 0 <= i < |s'.threads[u].frames| ensures KindOk(s', s'.threads[u].frames[i].kind) {
        assert KindOk(s, s.threads[u].frames[i].kind);
      }
    }
  }

  /** While nobody holds a guard on h, no update has captured it. */
  lemma UnguardedIsFree(s: State, h: Handle)
    requires Inv(s) && forall g | g in s.guards :: g.h == h ==> g.mode == Shared
    ensures NoUpdateOn(s, h)
  {
    forall t, i | t in s.threads && 0 <= i < |s.threads[t].frames|
      ensures var kind := s.threads[t].frames[i].kind; kind.Callback? && kind.work.Updating? ==> kind.h != h
    {
      assert ThreadOk(s, t);
      assert KindOk(s, s.threads[t].frames[i].kind);
      FrameCounts(t, s.threads[t].frames, i);
    }
  }

  /** The thread after it has taken its next operation. */
  function Advance(th: Thread): Thread
    requires th.frames != [] && Top(th).todo != []
  {
    th.(frames := [Top(th).(todo := Top(th).todo[1..])] + Rest(th))
  }

  lemma ThreadsAreOk(s: State, t: Tid)
    requires Inv(s) && t in s.threads
    ensures ThreadOk(s, t)
  {
    hide ThreadOk, GuardsExclude, CellsFold, SeenFold;
  }

  lemma AdvanceIsOk(s: State, t: Tid)
    requires Unfinished(s, t) && ThreadOk(s, t) && Top(s.threads[t]).todo != []
    ensures var th, next := s.threads[t], Advance(s.threads[t]);
            Markers(next.frames) == Markers(th.frames) && Guards(t, next.frames) == Guards(t, th.frames)
    ensures ThreadOk(Set(s, t, Advance(s.threads[t])), t)
  {
    var th, next := s.threads[t], Advance(s.threads[t]);
    SameKinds(t, th.frames, next.frames);
    hide Markers, Guards, NoDuplicates;
    forall i | 0 <= i < |next.frames| ensures KindOk(Set(s, t, next), next.frames[i].kind) {
      assert next.frames[i].kind == th.frames[i].kind && KindOk(s, th.frames[i].kind);
    }
  }

  lemma AdvanceIsNeutral(s: State, t: Tid)
    requires Inv(s) && Unfinished(s, t) && Top(s.threads[t]).todo != []
    ensures var th, next := s.threads[t], Advance(s.threads[t]);
            Markers(next.frames) == Markers(th.frames) && Guards(t, next.frames) == Guards(t, th.frames)
    ensures ThreadOk(Set(s, t, Advance(s.threads[t])), t)
  {
    hide Inv, ThreadOk, Markers, Guards, Advance;
    ThreadsAreOk(s, t);
    AdvanceIsOk(s, t);
  }

  lemma PokeWrites(s: State, t: Tid, f: Fun, h: Handle)
    requires Inv(s) && Unfinished(s, t) && Top(s.threads[t]).todo != [] && h in s.cells && NoUpdateOn(s, h)
    ensures Inv(Set(Write(s, h, Apply(f)), t, Advance(s.threads[t])))
  {
    hide Inv, ThreadOk, NoUpdateOn, Advance;
    ChangeKeepsInv(s, h, Run(Apply(f), s.cells[h].value), Apply(f));
    AdvanceIsNeutral(Write(s, h, Apply(f)), t);
    SetKeepsInv(Write(s, h, Apply(f)), t, Advance(s.threads[t]));
  }

  lemma PokeKeepsInv(s: State, t: Tid, f: Fun)
    requires Inv(s) && Unfinished(s, t) && s.threads[t].status == Running
    requires Top(s.threads[t]).todo != [] && Top(s.threads[t]).todo[0] == Poke(f)
    ensures Inv(Begin(s, t, Poke(f)))
  {
    hide Inv, ThreadOk, NoUpdateOn, Mutable;
    var th := s.threads[t];
    if Mutable(th.frames).Some? {
      MutableIsExclusive(s, t, th.frames);
      NoUpdateBesideMutable(s, t, th.frames);
      PokeWrites(s, t, f, Mutable(th.frames).value);
    } else {
      AdvanceIsNeutral(s, t);
      SetKeepsInv(s, t, Advance(th));
    }
  }

  /** An access that is let through: the marker is pushed first, then the thread waits. */
  function Awaiting(th: Thread, op: Op): Thread
    requires UsesLock(op)
  {
    th.(status := Waiting(op), active := if HasBody(op) then th.active + [op.h] else th.active)
  }

  lemma WaitKeepsInv(s: State, t: Tid, op: Op)
    requires Inv(s) && Unfinished(s, t) && s.threads[t].status == Running && Top(s.threads[t]).todo != []
    requires UsesLock(op) && op.h in s.cells && op.h !in s.threads[t].active && (HasBody(op) ==> op.body.Body?)
    ensures Inv(Set(s, t, Awaiting(Advance(s.threads[t]), op)))
  {
    assert ThreadOk(s, t);
    AdvanceIsNeutral(s, t);
    WaitIsOk(s, t, Advance(s.threads[t]), op);
    SetKeepsInv(s, t, Awaiting(Advance(s.threads[t]), op));
  }

  lemma WaitIsOk(s: State, t: Tid, th: Thread, op: Op)
    requires t in s.threads && ThreadOk(Set(s, t, th), t) && th.status == Running && th.frames != []
    requires UsesLock(op) && op.h in s.cells && op.h !in th.active && (HasBody(op) ==> op.body.Body?)
    ensures ThreadOk(Set(s, t, Awaiting(th, op)), t)
  {
    var s', s'' := Set(s, t, th), Set(s, t, Awaiting(th, op));
    assert th.active == Markers(th.frames) + [] == Markers(th.frames);
    forall i | 0 <= i < |th.frames| ensures KindOk(s'', th.frames[i].kind) {
      assert KindOk(s', s'.threads[t].frames[i].kind);
    }
  }

  lemma LockOpKeepsInv(s: State, t: Tid, op: Op)
    requires Inv(s) && Unfinished(s, t) && s.threads[t].status == Running
    requires Top(s.threads[t]).todo != [] && Top(s.threads[t]).todo[0] == op && UsesLock(op)
    ensures Inv(Begin(s, t, op))
  {
    if (HasBody(op) && op.body.NullCallee?) || op.h !in s.cells || op.h in s.threads[t].active {
      ThrowKeepsInv(s, t);
    } else {
      WaitKeepsInv(s, t, op);
    }
  }

  lemma ThrowKeepsInv(s: State, t: Tid)
    requires Inv(s) && Unfinished(s, t) && s.threads[t].status == Running
    requires Top(s.threads[t]).todo != []
    ensures Inv(Set(s, t, Advance(s.threads[t]).(status := Unwinding)))
  {
    AdvanceIsNeutral(s, t);
    assert ThreadOk(s, t);
    ThrowIsOk(s, t, Advance(s.threads[t]));
    hide ThreadOk;
    SetKeepsInv(s, t, Advance(s.threads[t]).(status := Unwinding));
  }

  lemma ThrowIsOk(s: State, t: Tid, th: Thread)
    requires t in s.threads && ThreadOk(Set(s, t, th), t) && th.status == Running && th.frames != []
    ensures ThreadOk(Set(s, t, th.(status := Unwinding)), t)
  {
    hide Markers, Guards;
    forall i | 0 <= i < |th.frames| ensures KindOk(Set(s, t, th.(status := Unwinding)), th.frames[i].kind) {
      assert KindOk(Set(s, t, th), Set(s, t, th).threads[t].frames[i].kind);
    }
  }

  lemma CatchKeepsInv(s: State, t: Tid, body: seq<Op>)
    requires Inv(s) && Unfinished(s, t) && s.threads[t].status == Running
    requires Top(s.threads[t]).todo != []
    ensures var next := Advance(s.threads[t]); Inv(Set(s, t, next.(frames := [Frame(Try, body)] + next.frames)))
  {
    AdvanceIsNeutral(s, t);
    PlainFrameIsNeutral(s, t, Advance(s.threads[t]), Frame(Try, body));
  }

  lemma BeginKeepsInv(s: State, t: Tid)
    requires Inv(s) && Unfinished(s, t) && s.threads[t].status == Running && Top(s.threads[t]).todo != []
    ensures Inv(Begin(s, t, Top(s.threads[t]).todo[0]))
  {
    hide Inv;
    var op := Top(s.threads[t]).todo[0];
    match op
    case Throw => ThrowKeepsInv(s, t);
    case Catch(body) => CatchKeepsInv(s, t, body);
    case Poke(f) => PokeKeepsInv(s, t, f);
    case _ => LockOpKeepsInv(s, t, op);
  }

  lemma PlainFrameMarksNothing(t: Tid, frame: Frame, frames: seq<Frame>)
    requires Marker(frame.kind) == []
    ensures Markers([frame] + frames) == Markers(frames) && Guards(t, [frame] + frames) == Guards(t, frames)
  {
    var inner := [frame] + frames;
    assert inner[1..] == frames;
    assert Markers(inner) == Markers(frames) + [];
    assert Guards(t, inner) == Guards(t, frames) + {};
  }

  lemma PlainFrameIsOk(s: State, t: Tid, th: Thread, frame: Frame)
    requires t in s.threads && ThreadOk(Set(s, t, th), t) && frame.kind == Try && th.frames != []
    ensures ThreadOk(Set(s, t, th.(frames := [frame] + th.frames)), t)
  {
    PlainFrameMarksNothing(t, frame, th.frames);
    hide Markers, Guards, NoDuplicates;
    var inner := [frame] + th.frames;
    forall i | 0 <= i < |inner| ensures KindOk(Set(s, t, th.(frames := inner)), inner[i].kind) {
      if i > 0 {
        assert inner[i] == th.frames[i - 1];
        assert KindOk(Set(s, t, th), Set(s, t, th).threads[t].frames[i - 1].kind);
      }
    }
  }

  lemma PlainFrameIsNeutral(s: State, t: Tid, th: Thread, frame: Frame)
    requires Inv(s) && t in s.threads && ThreadOk(Set(s, t, th), t) && frame.kind == Try && th.frames != []
    ensures Inv(Set(s, t, th.(frames := [frame] + th.frames)))
  {
    hide *;
    PlainFrameIsOk(s, t, th, frame);
    SetKeepsInv(s, t, th.(frames := [frame] + th.frames));
  }

  lemma {:induction false} SameKinds(t: Tid, frames: seq<Frame>, frames': seq<Frame>)
    requires |frames| == |frames'| && forall i | 0 <= i < |frames| :: frames[i].kind == frames'[i].kind
    ensures Markers(frames) == Markers(frames') && Guards(t, frames) == Guards(t, frames')
  {
    if frames != [] { SameKinds(t, frames[1..], frames'[1..]); }
  }

  lemma {:induction false} MutableFrame(frames: seq<Frame>) returns (i: nat)
    requires Mutable(frames).Some?
    ensures i < |frames| && frames[i].kind.Callback? && frames[i].kind.work.Mutating? && frames[i].kind.h == Mutable(frames).value
  {
    if frames[0].kind.Try? {
      var j := MutableFrame(frames[1..]);
      i := j + 1;
    } else {
      i := 0;
    }
  }

  lemma MutableIsExclusive(s: State, t: Tid, frames: seq<Frame>)
    requires Inv(s) && t in s.threads && frames == s.threads[t].frames && Mutable(frames).Some?
    ensures Mutable(frames).value in s.cells
    ensures Guard(t, Mutable(frames).value, Exclusive) in s.guards
  {
    assert ThreadOk(s, t);
    var i := MutableFrame(frames);
    assert KindOk(s, frames[i].kind);
    FrameCounts(t, frames, i);
  }

  /** Two scopes on one handle would leave a duplicate marker. */
  lemma {:induction false} OneScopePerHandle(frames: seq<Frame>, i: nat, j: nat)
    requires i < j < |frames| && NoDuplicates(Markers(frames))
    requires frames[i].kind.Callback? && frames[j].kind.Callback?
    ensures frames[i].kind.h != frames[j].kind.h
  {
    var rest := Markers(frames[1..]);
    if i == 0 {
      FrameCounts(0, frames[1..], j - 1);
      assert frames[j].kind.h in rest;
      var k :| 0 <= k < |rest| && rest[k] == frames[j].kind.h;
      assert Markers(frames)[k] == rest[k] && Markers(frames)[|rest|] == frames[0].kind.h;
    } else {
      forall a, b | 0 <= a < b < |rest| ensures rest[a] != rest[b] {
        assert Markers(frames)[a] == rest[a] && Markers(frames)[b] == rest[b];
      }
      OneScopePerHandle(frames[1..], i - 1, j - 1);
    }
  }

  lemma NoUpdateBesideMutable(s: State, t: Tid, frames: seq<Frame>)
    requires Inv(s) && t in s.threads && frames == s.threads[t].frames && Mutable(frames).Some?
    ensures NoUpdateOn(s, Mutable(frames).value)
  {
    var h := Mutable(frames).value;
    var i := MutableFrame(frames);
    MutableIsExclusive(s, t, frames);
    assert ThreadOk(s, t);
    NoDuplicatesPrefix(Markers(frames), Awaited(s.threads[t].status));
    forall u, j | u in s.threads && 0 <= j < |s.threads[u].frames|
      ensures var kind := s.threads[u].frames[j].kind; kind.Callback? && kind.work.Updating? ==> kind.h != h
    {
      var kind := s.threads[u].frames[j].kind;
      if kind.Callback? && kind.work.Updating? && kind.h == h {
        UpdateHoldsGuard(s, u, j);
        assert !Conflict(Guard(t, h, Exclusive), h, Exclusive) || u == t;
        if i < j { OneScopePerHandle(frames, i, j); } else if j < i { OneScopePerHandle(frames, j, i); }
      }
    }
  }

  lemma UpdateHoldsGuard(s: State, u: Tid, j: nat)
    requires Inv(s) && u in s.threads && j < |s.threads[u].frames|
    requires var kind := s.threads[u].frames[j].kind; kind.Callback? && kind.work.Updating?
    ensures Guard(u, s.threads[u].frames[j].kind.h, Exclusive) in s.guards
  {
    assert ThreadOk(s, u);
    assert KindOk(s, s.threads[u].frames[j].kind);
    FrameCounts(u, s.threads[u].frames, j);
  }

  lemma NoDuplicatesPrefix(hs: seq<Handle>, ks: seq<Handle>)
    requires NoDuplicates(hs + ks)
    ensures NoDuplicates(hs)
  {
    forall i, j | 0 <= i < j < |hs| ensures hs[i] != hs[j] {
      assert (hs + ks)[i] == hs[i] && (hs + ks)[j] == hs[j];
    }
  }

  lemma EnterKeepsInv(s: State, t: Tid, kind: Kind, body: seq<Op>)
    requires Inv(s) && IsWaiting(s, t) && HasBody(s.threads[t].status.op)
    requires kind.Callback? && kind.h == s.threads[t].status.op.h && kind.h in s.cells && KindOk(s, kind)
    requires !Blocked(s, kind.h, kind.mode)
    ensures Inv(Enter(s, t, kind, body))
  {
    EnterKeepsThread(s, t, kind, body);
    EnterKeepsGuards(s, t, kind, body);
    var s' := Enter(s, t, kind, body);
    forall u | u in s'.threads ensures ThreadOk(s', u) {
      if u != t { EnterKeepsOthers(s, t, kind, body, u); }
    }
    assert s'.cells == s.cells && s'.seen == s.seen;
    assert CellsFold(s') && SeenFold(s');
  }

  lemma EnterKeepsGuards(s: State, t: Tid, kind: Kind, body: seq<Op>)
    requires GuardsExclude(s) && Unfinished(s, t) && kind.Callback? && !Blocked(s, kind.h, kind.mode)
    ensures GuardsExclude(Enter(s, t, kind, body))
  {}

  lemma EnterKeepsOthers(s: State, t: Tid, kind: Kind, body: seq<Op>, u: Tid)
    requires Unfinished(s, t) && kind.Callback? && u in s.threads && u != t && ThreadOk(s, u)
    ensures ThreadOk(Enter(s, t, kind, body), u)
  {
    GuardsAreMarked(u, s.threads[u].frames);
  }

  lemma EnterKeepsThread(s: State, t: Tid, kind: Kind, body: seq<Op>)
    requires t in s.threads && ThreadOk(s, t) && IsWaiting(s, t) && HasBody(s.threads[t].status.op)
    requires kind.Callback? && kind.h == s.threads[t].status.op.h && kind.h in s.cells && KindOk(s, kind)
    ensures ThreadOk(Enter(s, t, kind, body), t)
  {
    var th, s' := s.threads[t], Enter(s, t, kind, body);
    var frames := s'.threads[t].frames;
    assert frames[1..] == th.frames;
    assert Markers(frames) == Markers(th.frames) + [kind.h];
    assert Guards(t, frames) == Guards(t, th.frames) + {Guard(t, kind.h, kind.mode)};
    forall i | 0 <= i < |frames| ensures KindOk(s', frames[i].kind) {
      assert i == 0 || frames[i] == th.frames[i - 1];
    }
  }

  /** A thread whose helper needs no scope stops waiting. */
  lemma WakeKeepsInv(s: State, t: Tid)
    requires Inv(s) && IsWaiting(s, t) && !HasBody(s.threads[t].status.op)
    ensures Inv(Set(s, t, s.threads[t].(status := Running)))
  {
    hide Markers, Guards, CellsFold, SeenFold, GuardsExclude;
    assert ThreadOk(s, t);
    SetKeepsInv(s, t, s.threads[t].(status := Running));
  }

  lemma PlainAcquireKeepsInv(s: State, t: Tid)
    requires Inv(s) && IsWaiting(s, t) && !HasBody(s.threads[t].status.op)
    requires !Blocked(s, s.threads[t].status.op.h, ModeOf(s.threads[t].status.op))
    ensures Inv(Acquire(s, t, s.threads[t].status.op))
  {
    var op := s.threads[t].status.op;
    var th := s.threads[t].(status := Running);
    assert op.h in s.cells by { assert ThreadOk(s, t); }
    WakeKeepsInv(s, t);
    var woken := Set(s, t, th);
    hide Inv;
    match op
    case Peek(h, _) =>
      ObserveKeepsInv(woken, t, h);
    case Put(h, v) =>
      UnguardedIsFree(woken, h);
      ChangeKeepsInv(woken, h, v, Assign(v));
    case Replace(h, v) =>
      ObserveKeepsInv(woken, t, h);
      UnguardedIsFree(Observe(woken, t, h), h);
      ChangeKeepsInv(Observe(woken, t, h), h, v, Assign(v));
  }

  lemma AcquireKeepsInv(s: State, t: Tid)
    requires Inv(s) && IsWaiting(s, t)
    requires !Blocked(s, s.threads[t].status.op.h, ModeOf(s.threads[t].status.op))
    ensures Inv(Acquire(s, t, s.threads[t].status.op))
  {
    hide GuardsExclude, CellsFold, SeenFold, Markers, Guards, Blocked;
    var op := s.threads[t].status.op;
    if HasBody(op) {
      assert op.h in s.cells && op.body.Body? by { assert ThreadOk(s, t); }
      hide Inv;
      match op
      case Update(h, f, body) => EnterKeepsInv(s, t, Callback(h, Exclusive, Updating(f, s.cells[h].value)), body.ops);
      case Borrow(h, mode, body) => EnterKeepsInv(s, t, Callback(h, mode, Reading), body.ops);
      case Mutate(h, body) => EnterKeepsInv(s, t, Callback(h, Exclusive, Mutating), body.ops);
    } else {
      PlainAcquireKeepsInv(s, t);
    }
  }

  /** The guard that the innermost scope drops is not one that an outer scope keeps. */
  lemma DropGuardKeepsOwner(s: State, t: Tid)
    requires t in s.threads && ThreadOk(s, t) && Unfinished(s, t) && Top(s.threads[t]).kind.Callback? && !s.threads[t].status.Waiting?
    ensures var kind := Top(s.threads[t]).kind; ThreadOk(DropGuard(s, t, kind.h, kind.mode), t)
  {
    var th, kind := s.threads[t], Top(s.threads[t]).kind;
    var s' := DropGuard(s, t, kind.h, kind.mode);
    var rest := Rest(th);
    assert s'.threads[t].frames[1..] == rest;
    GuardsAreMarked(t, rest);
    assert th.active[|th.active| - 1] == kind.h;
    assert forall i | 0 <= i < |Markers(rest)| :: th.active[i] == Markers(rest)[i];
    assert Guard(t, kind.h, kind.mode) !in Guards(t, rest);
    forall i | 0 <= i < |s'.threads[t].frames| ensures KindOk(s', s'.threads[t].frames[i].kind) {
      if i > 0 { assert s'.threads[t].frames[i] == th.frames[i]; }
    }
  }

  lemma DropGuardKeepsOther(s: State, t: Tid, kind: Kind, u: Tid)
    requires Unfinished(s, t) && kind.Callback? && u in s.threads && u != t && ThreadOk(s, u)
    ensures ThreadOk(DropGuard(s, t, kind.h, kind.mode), u)
  {
    GuardsAreMarked(u, s.threads[u].frames);
    hide Markers, Guards;
  }

  lemma DropGuardKeepsThreads(s: State, t: Tid)
    requires Inv(s) && Unfinished(s, t) && Top(s.threads[t]).kind.Callback? && !s.threads[t].status.Waiting?
    ensures var kind := Top(s.threads[t]).kind; forall u | u in DropGuard(s, t, kind.h, kind.mode).threads ::
      ThreadOk(DropGuard(s, t, kind.h, kind.mode), u)
  {
    hide ThreadOk, GuardsExclude, CellsFold, SeenFold;
    var kind := Top(s.threads[t]).kind;
    DropGuardKeepsOwner(s, t);
    forall u | u in DropGuard(s, t, kind.h, kind.mode).threads ensures ThreadOk(DropGuard(s, t, kind.h, kind.mode), u) {
      if u != t { DropGuardKeepsOther(s, t, kind, u); }
    }
  }

  lemma TopGuardIsHeld(s: State, t: Tid)
    requires Inv(s) && Unfinished(s, t) && Top(s.threads[t]).kind.Callback?
    ensures var kind := Top(s.threads[t]).kind; Guard(t, kind.h, kind.mode) in s.guards
  {
    assert ThreadOk(s, t);
    hide Inv, GuardsExclude, CellsFold, SeenFold;
    FrameCounts(t, s.threads[t].frames, 0);
  }

  /** Without the guard that excluded all others, nobody holds one on the handle. */
  lemma DropGuardFrees(s: State, t: Tid, h: Handle)
    requires GuardsExclude(s) && Unfinished(s, t) && Guard(t, h, Exclusive) in s.guards && Inv(DropGuard(s, t, h, Exclusive))
    ensures NoUpdateOn(DropGuard(s, t, h, Exclusive), h)
  {
    hide Inv;
    var s' := DropGuard(s, t, h, Exclusive);
    forall g | g in s'.guards ensures g.h != h {
      assert !Conflict(Guard(t, h, Exclusive), g.h, g.mode);
    }
    UnguardedIsFree(s', h);
  }

  lemma DropGuardKeepsInv(s: State, t: Tid)
    requires Inv(s) && Unfinished(s, t) && Top(s.threads[t]).kind.Callback? && !s.threads[t].status.Waiting?
    ensures var kind := Top(s.threads[t]).kind;
            && Inv(DropGuard(s, t, kind.h, kind.mode))
            && (kind.mode == Exclusive ==> NoUpdateOn(DropGuard(s, t, kind.h, kind.mode), kind.h))
  {
    hide ThreadOk, NoUpdateOn;
    var kind := Top(s.threads[t]).kind;
    DropGuardKeepsThreads(s, t);
    TopGuardIsHeld(s, t);
    assert Inv(DropGuard(s, t, kind.h, kind.mode));
    hide Inv;
    if kind.mode == Exclusive { DropGuardFrees(s, t, kind.h); }
  }

  lemma RestIsOk(s: State, t: Tid)
    requires Unfinished(s, t) && ThreadOk(s, t)
    ensures forall i | 0 <= i < |Rest(s.threads[t])| :: KindOk(s, Rest(s.threads[t])[i].kind)
  {
    forall i | 0 <= i < |Rest(s.threads[t])| ensures KindOk(s, Rest(s.threads[t])[i].kind) {
      assert KindOk(s, s.threads[t].frames[i + 1].kind);
    }
    hide Markers, Guards, NoDuplicates;
  }

  lemma ActiveIsMarkers(s: State, t: Tid)
    requires t in s.threads && ThreadOk(s, t) && !s.threads[t].status.Waiting?
    ensures s.threads[t].active == Markers(s.threads[t].frames)
  {
    hide Markers, Guards, NoDuplicates, KindOk;
    assert s.threads[t].active == Markers(s.threads[t].frames) + [];
  }

  /** The innermost scope is the last marker, and the drop takes it off. */
  lemma LastMarkerDrops(s: State, t: Tid)
    requires Unfinished(s, t) && ThreadOk(s, t) && Top(s.threads[t]).kind.Leaving? && !s.threads[t].status.Waiting?
    ensures var th, h := s.threads[t], Top(s.threads[t]).kind.h;
      && RemoveLast(th.active, h) == Markers(Rest(th)) && NoDuplicates(Markers(Rest(th)))
      && Guards(t, th.frames) == Guards(t, Rest(th))
  {
    var th, h := s.threads[t], Top(s.threads[t]).kind.h;
    var hs := Markers(Rest(th));
    ActiveIsMarkers(s, t);
    assert Markers(th.frames) == hs + [h];
    assert Guards(t, th.frames) == Guards(t, Rest(th)) + {};
    hide Markers, Guards, KindOk;
    RemoveLastOfPushed(hs, h);
    NoDuplicatesPrefix(hs, [h]);
  }

  lemma DropMarkerIsOk(s: State, t: Tid)
    requires Unfinished(s, t) && ThreadOk(s, t) && Top(s.threads[t]).kind.Leaving? && !s.threads[t].status.Waiting?
    ensures ThreadOk(DropMarker(s, t, Top(s.threads[t]).kind.h), t)
  {
    RestIsOk(s, t);
    LastMarkerDrops(s, t);
    hide Markers, Guards, NoDuplicates, RemoveLast;
    var th, h := s.threads[t], Top(s.threads[t]).kind.h;
    assert Markers(Rest(th)) == Markers(Rest(th)) + [];
    forall i | 0 <= i < |Rest(th)| ensures KindOk(DropMarker(s, t, h), Rest(th)[i].kind) {
      assert KindOk(s, Rest(th)[i].kind);
    }
  }

  lemma DropMarkerKeepsInv(s: State, t: Tid)
    requires Inv(s) && Unfinished(s, t) && Top(s.threads[t]).kind.Leaving? && !s.threads[t].status.Waiting?
    ensures Inv(DropMarker(s, t, Top(s.threads[t]).kind.h))
  {
    ThreadsAreOk(s, t);
    DropMarkerIsOk(s, t);
    hide Inv, ThreadOk;
    var th := s.threads[t];
    SetKeepsInv(s, t, th.(frames := Rest(th), active := RemoveLast(th.active, Top(th).kind.h)));
  }

  lemma PopIsOk(s: State, t: Tid, status: Status)
    requires Unfinished(s, t) && ThreadOk(s, t) && (Top(s.threads[t]).kind.Root? || Top(s.threads[t]).kind.Try?)
    requires !s.threads[t].status.Waiting? && !status.Waiting?
    ensures ThreadOk(Set(s, t, s.threads[t].(frames := Rest(s.threads[t]), status := status)), t)
  {
    RestIsOk(s, t);
    var th := s.threads[t];
    assert th.frames == [Top(th)] + Rest(th);
    PlainFrameMarksNothing(t, Top(th), Rest(th));
    hide Markers, Guards, NoDuplicates;
    forall i | 0 <= i < |Rest(th)|
      ensures KindOk(Set(s, t, th.(frames := Rest(th), status := status)), Rest(th)[i].kind)
    {
      assert KindOk(s, Rest(th)[i].kind);
    }
  }

  lemma PopKeepsInv(s: State, t: Tid, status: Status)
    requires Inv(s) && Unfinished(s, t) && (Top(s.threads[t]).kind.Root? || Top(s.threads[t]).kind.Try?)
    requires !s.threads[t].status.Waiting? && !status.Waiting?
    ensures Inv(Set(s, t, s.threads[t].(frames := Rest(s.threads[t]), status := status)))
  {
    ThreadsAreOk(s, t);
    PopIsOk(s, t, status);
    hide Inv, ThreadOk;
    SetKeepsInv(s, t, s.threads[t].(frames := Rest(s.threads[t]), status := status));
  }

  lemma ReturnKeepsInv(s: State, t: Tid)
    requires Inv(s) && Unfinished(s, t) && s.threads[t].status == Running && Top(s.threads[t]).todo == []
    ensures Inv(Return(s, t))
  {
    assert ThreadOk(s, t);
    match Top(s.threads[t]).kind
    case Root => PopKeepsInv(s, t, Running);
    case Try => PopKeepsInv(s, t, Running);
    case Leaving(h) => DropMarkerKeepsInv(s, t);
    case Callback(h, mode, work) =>
      DropGuardKeepsInv(s, t);
      assert KindOk(s, s.threads[t].frames[0].kind);
      if work.Updating? {
        var s1 := DropGuard(s, t, h, mode);
        ChangeKeepsInv(s1, h, Run(Apply(work.f), work.seen), Apply(work.f));
        ObserveKeepsInv(Store(s1, h, work.f, work.seen), t, h);
        assert Return(s, t) == Observe(Store(s1, h, work.f, work.seen), t, h);
      }
  }

  lemma StepKeepsInv(s: State, t: Tid, fair: bool)
    requires Inv(s) && Enabled(s, t, fair)
    ensures Inv(Step(s, t))
  {
    assert ThreadOk(s, t);
    match s.threads[t].status
    case Waiting(_) => AcquireKeepsInv(s, t);
    case Running => if Top(s.threads[t]).todo == [] { ReturnKeepsInv(s, t); } else { BeginKeepsInv(s, t); }
    case Unwinding =>
      match Top(s.threads[t]).kind
      case Root => PopKeepsInv(s, t, Unwinding);
      case Try => PopKeepsInv(s, t, Running);
      case Callback(_, _, _) => DropGuardKeepsInv(s, t);
      case Leaving(_) => DropMarkerKeepsInv(s, t);
  }

  // ---------------------------------------------------------------- runs

  // A schedule names the thread that moves.  Every grant a real lock may make is allowed.
  predicate Runs(s: State, schedule: seq<Tid>)
    decreases |schedule|
  {
    schedule == [] || (Enabled(s, schedule[0], false) && Runs(Step(s, schedule[0]), schedule[1..]))
  }

  function Exec(s: State, schedule: seq<Tid>): State
    requires Runs(s, schedule)
    decreases |schedule|
  {
    if schedule == [] then s else Exec(Step(s, schedule[0]), schedule[1..])
  }

  lemma {:induction false} RunsKeepInv(s: State, schedule: seq<Tid>)
    requires Inv(s) && Runs(s, schedule)
    ensures Inv(Exec(s, schedule))
    decreases |schedule|
  {
    if schedule != [] {
      StepKeepsInv(s, schedule[0], false);
      RunsKeepInv(Step(s, schedule[0]), schedule[1..]);
    }
  }

  /**
    In every reachable state each guard a thread holds is marked active, no handle is
    marked twice, and no thread waits for a handle on which it holds a guard itself.
  */
  lemma MarkersCoverGuards(s: State, schedule: seq<Tid>, t: Tid)
    requires Init(s) && Runs(s, schedule) && t in Exec(s, schedule).threads
    ensures var e := Exec(s, schedule); var th := e.threads[t];
            && NoDuplicates(th.active)
            && (forall g | g in e.guards && g.t == t :: g.h in th.active)
            && (forall g | g in e.guards && g.t == t && IsWaiting(e, t) :: g.h != th.status.op.h)
  {
    InitGivesInv(s);
    RunsKeepInv(s, schedule);
    var e := Exec(s, schedule);
    assert ThreadOk(e, t);
    GuardsAreMarked(t, e.threads[t].frames);
  }

  /** The same scopes around a point of control. */
  predicate SameScopes(th: Thread, th': Thread) {
    && |th.frames| == |th'.frames| && (forall i | 0 <= i < |th.frames| :: th.frames[i].kind == th'.frames[i].kind)
    && !th.status.Waiting? && !th'.status.Waiting?
  }

  /**
    Whenever control is back between the same scopes - by return, by a Haxe throw on
    its way out, or after a catch - the marker stack and the held guards are exactly
    what they were.
  */
  lemma ScopesRestoreMarkersAndGuards(s: State, before: seq<Tid>, after: seq<Tid>, t: Tid)
    requires Init(s) && Runs(s, before) && Runs(Exec(s, before), after)
    requires t in Exec(s, before).threads && t in Exec(Exec(s, before), after).threads
    requires SameScopes(Exec(s, before).threads[t], Exec(Exec(s, before), after).threads[t])
    ensures var a, b := Exec(s, before), Exec(Exec(s, before), after);
            && a.threads[t].active == b.threads[t].active
            && (forall g | g in a.guards + b.guards && g.t == t :: g in a.guards && g in b.guards)
  {
    InitGivesInv(s);
    RunsKeepInv(s, before);
    var a := Exec(s, before);
    RunsKeepInv(a, after);
    var b := Exec(a, after);
    assert ThreadOk(a, t) && ThreadOk(b, t);
    SameKinds(t, a.threads[t].frames, b.threads[t].frames);
  }

  /** Every value is the sequential execution of its log, and so is every value a helper handed out. */
  lemma CellsAreSequential(s: State, schedule: seq<Tid>, h: Handle)
    requires Init(s) && Runs(s, schedule) && h in Exec(s, schedule).cells
    ensures var c := Exec(s, schedule).cells[h]; c.value == Fold(c.initial, c.log)
    ensures forall o | o in Exec(s, schedule).seen && o.h == h ::
              var c := Exec(s, schedule).cells[h]; o.upto <= |c.log| && o.value == Fold(c.initial, c.log[..o.upto])
  {
    InitGivesInv(s);
    RunsKeepInv(s, schedule);
  }

  /** The observation is of the cell as it stands in `s`. */
  predicate Fresh(o: Observation, s: State, t: Tid) {
    o.t == t && o.h in s.cells && o.value == s.cells[o.h].value && o.upto == |s.cells[o.h].log|
  }

  lemma AcquirerSeesLatest(s: State, t: Tid)
    requires Unfinished(s, t) && s.threads[t].status.Waiting? && |Step(s, t).seen| > |s.seen|
    ensures var o := Step(s, t).seen[|s.seen|]; Step(s, t).seen == s.seen + [o] && Fresh(o, s, t)
  { }

  lemma CommitterSeesOwnCommit(s: State, t: Tid)
    requires Unfinished(s, t) && !s.threads[t].status.Waiting? && |Step(s, t).seen| > |s.seen|
    ensures var o, s' := Step(s, t).seen[|s.seen|], Step(s, t);
      && s'.seen == s.seen + [o] && Fresh(o, s', t) && o.h in s.cells && |s'.cells[o.h].log| == |s.cells[o.h].log| + 1
  { }

  /**
    What a step hands out is the latest committed value of the cell: the one before the
    step, or for an update the one that the step itself commits.
  */
  lemma HelpersSeeLatest(s: State, t: Tid)
    requires Enabled(s, t, false) && |Step(s, t).seen| > |s.seen|
    ensures var o, s' := Step(s, t).seen[|s.seen|], Step(s, t);
      && s'.seen == s.seen + [o] && o.h in s.cells
      && (Fresh(o, s, t) || (Fresh(o, s', t) && |s'.cells[o.h].log| == |s.cells[o.h].log| + 1))
  {
    hide Step;
    if s.threads[t].status.Waiting? { AcquirerSeesLatest(s, t); } else { CommitterSeesOwnCommit(s, t); }
  }

  /** A step that changes a cell leaves no update in progress on it: the captured value stays current until its own commit. */
  lemma CellChangesOnlyWhenFree(s: State, t: Tid, h: Handle)
    requires Inv(s) && Enabled(s, t, false) && h in s.cells && h in Step(s, t).cells
    requires Step(s, t).cells[h] != s.cells[h]
    ensures NoUpdateOn(Step(s, t), h)
  {
    var th := s.threads[t];
    match th.status
    case Waiting(op) => WaiterChangesFreeCell(s, t, h);
    case Unwinding =>
    case Running => if Top(th).todo == [] { CommitFreesCell(s, t, h); } else { PokeChangesFreeCell(s, t, h); }
  }

  /** The same scopes in every thread. */
  predicate SameFrames(s: State, s': State) {
    forall u | u in s'.threads :: u in s.threads && |s'.threads[u].frames| == |s.threads[u].frames|
      && forall i | 0 <= i < |s.threads[u].frames| :: s'.threads[u].frames[i].kind == s.threads[u].frames[i].kind
  }

  lemma SameFramesSameUpdates(s: State, s': State, h: Handle)
    requires SameFrames(s, s') && NoUpdateOn(s, h)
    ensures NoUpdateOn(s', h)
  {
    forall t, i | t in s'.threads && 0 <= i < |s'.threads[t].frames|
      ensures var kind := s'.threads[t].frames[i].kind; kind.Callback? && kind.work.Updating? ==> kind.h != h
    {
      assert s'.threads[t].frames[i].kind == s.threads[t].frames[i].kind;
    }
  }

  /** Of the accesses that acquire, only set, write and replace change a cell; they leave all scopes alone. */
  lemma WriterChangesCell(s: State, t: Tid, h: Handle)
    requires Unfinished(s, t) && s.threads[t].status.Waiting? && h in s.cells && h in Step(s, t).cells
    requires Step(s, t).cells[h] != s.cells[h]
    ensures var op := s.threads[t].status.op; (op.Put? || op.Replace?) && op.h == h
    ensures SameFrames(s, Step(s, t))
  { }

  lemma UnblockedIsFree(s: State, h: Handle)
    requires Inv(s) && !Blocked(s, h, Exclusive)
    ensures NoUpdateOn(s, h)
  {
    hide Inv, NoUpdateOn;
    forall g | g in s.guards ensures g.h != h { assert !Conflict(g, h, Exclusive); }
    UnguardedIsFree(s, h);
  }

  lemma WaiterChangesFreeCell(s: State, t: Tid, h: Handle)
    requires Inv(s) && Enabled(s, t, false) && s.threads[t].status.Waiting? && h in s.cells && h in Step(s, t).cells
    requires Step(s, t).cells[h] != s.cells[h]
    ensures NoUpdateOn(Step(s, t), h)
  {
    hide Inv, Step, NoUpdateOn, SameFrames, Blocked;
    WriterChangesCell(s, t, h);
    UnblockedIsFree(s, h);
    SameFramesSameUpdates(s, Step(s, t), h);
  }

  /** Of the scopes that return, only an update changes a cell, its own. */
  lemma UpdateChangesCell(s: State, t: Tid, h: Handle)
    requires Unfinished(s, t) && s.threads[t].status == Running && Top(s.threads[t]).todo == []
    requires h in s.cells && h in Step(s, t).cells && Step(s, t).cells[h] != s.cells[h]
    ensures var kind := Top(s.threads[t]).kind; kind.Callback? && kind.work.Updating? && kind.h == h
    ensures Step(s, t).threads == DropGuard(s, t, h, Top(s.threads[t]).kind.mode).threads
  { }

  lemma CommitFreesCell(s: State, t: Tid, h: Handle)
    requires Inv(s) && Unfinished(s, t) && s.threads[t].status == Running && Top(s.threads[t]).todo == []
    requires h in s.cells && h in Step(s, t).cells && Step(s, t).cells[h] != s.cells[h]
    ensures NoUpdateOn(Step(s, t), h)
  {
    hide Inv, Step;
    UpdateChangesCell(s, t, h);
    UpdateIsExclusive(s, t);
    DropGuardKeepsInv(s, t);
    hide DropGuard;
  }

  lemma PokeChangesFreeCell(s: State, t: Tid, h: Handle)
    requires Inv(s) && Unfinished(s, t) && s.threads[t].status == Running && Top(s.threads[t]).todo != []
    requires h in s.cells && h in Step(s, t).cells && Step(s, t).cells[h] != s.cells[h]
    ensures NoUpdateOn(Step(s, t), h)
  {
    hide Inv, Mutable, Step, NoUpdateOn, SameFrames;
    PokeChangesMutable(s, t, h);
    NoUpdateBesideMutable(s, t, s.threads[t].frames);
    SameFramesSameUpdates(s, Step(s, t), h);
  }

  /** Only an in-place write changes a cell here; it touches no frame but its own list of operations. */
  lemma PokeChangesMutable(s: State, t: Tid, h: Handle)
    requires Unfinished(s, t) && s.threads[t].status == Running && Top(s.threads[t]).todo != []
    requires h in s.cells && h in Step(s, t).cells && Step(s, t).cells[h] != s.cells[h]
    ensures Mutable(s.threads[t].frames) == Some(h) && SameFrames(s, Step(s, t))
  {
    hide Mutable;
  }

  /** Thread t has an update of h open, with `below` scopes outside it. */
  predicate OpenUpdate(s: State, t: Tid, below: nat, h: Handle) {
    && t in s.threads && below < |s.threads[t].frames|
    && var kind := s.threads[t].frames[|s.threads[t].frames| - 1 - below].kind;
    kind.Callback? && kind.h == h && kind.work.Updating?
  }

  /** The update stays open through every state of the run. */
  predicate StaysOpen(s: State, schedule: seq<Tid>, t: Tid, below: nat, h: Handle)
    requires Runs(s, schedule)
    decreases |schedule|
  {
    OpenUpdate(s, t, below, h) && (schedule != [] ==> StaysOpen(Step(s, schedule[0]), schedule[1..], t, below, h))
  }

  lemma StepKeepsHandles(s: State, t: Tid)
    requires Enabled(s, t, false)
    ensures Step(s, t).cells.Keys == s.cells.Keys
  {}

  /** While an update is open, no step of any thread touches its cell. */
  lemma OpenUpdateHoldsCell(s: State, u: Tid, t: Tid, below: nat, h: Handle)
    requires Inv(s) && Enabled(s, u, false) && OpenUpdate(Step(s, u), t, below, h) && h in s.cells
    ensures h in Step(s, u).cells && Step(s, u).cells[h] == s.cells[h]
  {
    StepKeepsHandles(s, u);
    if Step(s, u).cells[h] != s.cells[h] {
      CellChangesOnlyWhenFree(s, u, h);
    }
    hide Step, Inv, Enabled;
  }

  lemma {:induction false} OpenUpdateHoldsCellAll(s: State, schedule: seq<Tid>, t: Tid, below: nat, h: Handle)
    requires Inv(s) && Runs(s, schedule) && StaysOpen(s, schedule, t, below, h) && h in s.cells
    ensures h in Exec(s, schedule).cells && Exec(s, schedule).cells[h] == s.cells[h]
    decreases |schedule|
  {
    if schedule != [] {
      hide OpenUpdate, Step, Inv, Enabled;
      OpenUpdateHoldsCell(s, schedule[0], t, below, h);
      StepKeepsInv(s, schedule[0], false);
      OpenUpdateHoldsCellAll(Step(s, schedule[0]), schedule[1..], t, below, h);
    }
  }

  /**
    A callback that throws commits nothing.  Under any interleaving, from the moment an
    update is entered until a throw has left it, its cell keeps its value and gets no log
    entry, from this update or from anybody else.
  */
  lemma ThrownUpdateLeavesNoTrace(s: State, schedule: seq<Tid>, t: Tid, below: nat, h: Handle)
    requires Inv(s) && Runs(s, schedule) && StaysOpen(s, schedule, t, below, h) && h in s.cells
    requires var e := Exec(s, schedule);
      Enabled(e, t, false) && e.threads[t].status == Unwinding && |e.threads[t].frames| == below + 1
    ensures var after := Step(Exec(s, schedule), t);
      && h in after.cells && after.cells[h] == s.cells[h]
      && !OpenUpdate(after, t, below, h) && Guard(t, h, Exclusive) !in after.guards
  {
    OpenUpdateHoldsCellAll(s, schedule, t, below, h);
    RunsKeepInv(s, schedule);
    LastStaysOpen(s, schedule, t, below, h);
    hide Inv, Runs, StaysOpen, OpenUpdate, Step, Enabled;
    ThrowLeavesUpdate(Exec(s, schedule), t, below, h);
  }

  /** The innermost scope of t is an update of h by f whose callback has run to its end. */
  predicate Returning(s: State, t: Tid, h: Handle, f: Fun) {
    && Unfinished(s, t) && s.threads[t].status == Running && Top(s.threads[t]).todo == []
    && var kind := Top(s.threads[t]).kind;
    kind.Callback? && kind.h == h && kind.work.Updating? && kind.work.f == f
  }

  /** The return of an update's callback stores and hands out what the callback makes of the captured value. */
  lemma CommitStores(s: State, t: Tid, h: Handle, f: Fun)
    requires Returning(s, t, h, f) && h in s.cells && Top(s.threads[t]).kind.work.seen in f
    ensures var s', next := Step(s, t), f[Top(s.threads[t]).kind.work.seen];
      && s'.cells == s.cells[h := Cell(s.cells[h].initial, next, s.cells[h].log + [Apply(f)])]
      && s'.seen == s.seen + [Observation(t, h, next, |s.cells[h].log| + 1)]
  { }

  lemma InnermostCaptured(s: State, t: Tid)
    requires Inv(s) && Unfinished(s, t) && Top(s.threads[t]).kind.Callback? && Top(s.threads[t]).kind.work.Updating?
    ensures var kind := Top(s.threads[t]).kind; kind.h in s.cells && kind.work.seen == s.cells[kind.h].value
  {
    ThreadsAreOk(s, t);
    assert KindOk(s, s.threads[t].frames[0].kind);
    hide Inv, Markers, Guards, NoDuplicates;
  }

  /**
    A callback that returns is committed.  Under any interleaving, the cell then holds what the
    callback's function makes of the value at which the update was entered, and its log has
    grown by that one entry.
  */
  lemma ReturnedUpdateIsCommitted(s: State, schedule: seq<Tid>, t: Tid, below: nat, h: Handle, f: Fun)
    requires Inv(s) && Runs(s, schedule) && StaysOpen(s, schedule, t, below, h) && h in s.cells && s.cells[h].value in f
    requires Returning(Exec(s, schedule), t, h, f)
    ensures var after := Step(Exec(s, schedule), t);
      h in after.cells && after.cells[h] == Cell(s.cells[h].initial, f[s.cells[h].value], s.cells[h].log + [Apply(f)])
  {
    hide Inv, Runs, StaysOpen, Step;
    OpenUpdateHoldsCellAll(s, schedule, t, below, h);
    RunsKeepInv(s, schedule);
    var e := Exec(s, schedule);
    InnermostCaptured(e, t);
    CommitStores(e, t, h, f);
  }

  /** The helpers of an RwLock that only read take a guard which others may share; every other helper takes one for itself. */
  predicate Reads(op: Op) {
    (op.Peek? || op.Borrow?) && op.mode == Shared
  }

  /**
    Who has to wait: a reader exactly while somebody has the handle for himself, or, if writers
    go first, while another thread waits for that; anyone else exactly while somebody has it at all.
  */
  lemma WaitsIff(s: State, t: Tid, fair: bool)
    requires IsWaiting(s, t) && Unfinished(s, t)
    ensures var op := s.threads[t].status.op;
      Enabled(s, t, fair) <==>
        if Reads(op) then
          && (forall g | g in s.guards && g.h == op.h :: g.mode == Shared)
          && (fair ==> forall u | u in s.threads && u != t && IsWaiting(s, u) && s.threads[u].status.op.h == op.h ::
                         Reads(s.threads[u].status.op))
        else forall g | g in s.guards :: g.h != op.h
  { }

  /** What set, write and replace store, and what get, read and replace hand out. */
  lemma AcquirerStores(s: State, t: Tid, h: Handle, v: Value)
    requires Unfinished(s, t) && h in s.cells
    ensures s.threads[t].status == Waiting(Put(h, v)) ==>
      Step(s, t).cells == s.cells[h := Cell(s.cells[h].initial, v, s.cells[h].log + [Assign(v)])] && Step(s, t).seen == s.seen
    ensures s.threads[t].status == Waiting(Replace(h, v)) ==>
      && Step(s, t).cells == s.cells[h := Cell(s.cells[h].initial, v, s.cells[h].log + [Assign(v)])]
      && Step(s, t).seen == s.seen + [Observation(t, h, s.cells[h].value, |s.cells[h].log|)]
    ensures forall mode | s.threads[t].status == Waiting(Peek(h, mode)) ::
      Step(s, t).cells == s.cells && Step(s, t).seen == s.seen + [Observation(t, h, s.cells[h].value, |s.cells[h].log|)]
  { }

  /** An in-place write of the innermost callback, through any catches around it, applies its function to the value it finds. */
  lemma PokeApplies(s: State, t: Tid, f: Fun, h: Handle, mode: Mode, i: nat)
    requires Unfinished(s, t) && s.threads[t].status == Running && Top(s.threads[t]).todo != [] && Top(s.threads[t]).todo[0] == Poke(f)
    requires i < |s.threads[t].frames| && s.threads[t].frames[i].kind == Callback(h, mode, Mutating)
    requires forall j | 0 <= j < i :: s.threads[t].frames[j].kind == Try
    requires h in s.cells && s.cells[h].value in f
    ensures Step(s, t).cells == s.cells[h := Cell(s.cells[h].initial, f[s.cells[h].value], s.cells[h].log + [Apply(f)])]
  {
    MutableThroughCatches(s.threads[t].frames, h, mode, i);
    hide Mutable;
  }

  lemma {:induction false} MutableThroughCatches(frames: seq<Frame>, h: Handle, mode: Mode, i: nat)
    requires i < |frames| && frames[i].kind == Callback(h, mode, Mutating) && forall j | 0 <= j < i :: frames[j].kind == Try
    ensures Mutable(frames) == Some(h)
  {
    if i > 0 { MutableThroughCatches(frames[1..], h, mode, i - 1); }
  }

  /** A log read by its entries: an assignment decides the value, an update applies its function to the value before it. */
  lemma FoldOfEntries(v: Value, log: seq<Effect>, w: Value, f: Fun)
    ensures Fold(v, []) == v && Fold(v, log + [Assign(w)]) == w
    ensures Fold(v, log) in f ==> Fold(v, log + [Apply(f)]) == f[Fold(v, log)]
  {
    FoldAppend(v, log, Assign(w));
    FoldAppend(v, log, Apply(f));
  }

  /** The unwinding step out of an update drops its guard and nothing else. */
  lemma ThrowLeavesUpdate(s: State, t: Tid, below: nat, h: Handle)
    requires Inv(s) && Enabled(s, t, false) && OpenUpdate(s, t, below, h)
    requires s.threads[t].status == Unwinding && |s.threads[t].frames| == below + 1
    ensures Step(s, t).cells == s.cells
    ensures !OpenUpdate(Step(s, t), t, below, h) && Guard(t, h, Exclusive) !in Step(s, t).guards
  {
    hide Inv, Step, Enabled;
    UpdateIsExclusive(s, t);
    UnwindIs(s, t);
    DroppedIsClosed(s, t, below, h);
    hide DropGuard;
  }

  lemma DroppedIsClosed(s: State, t: Tid, below: nat, h: Handle)
    requires Unfinished(s, t) && |s.threads[t].frames| == below + 1
    ensures var e := DropGuard(s, t, h, Exclusive);
      e.cells == s.cells && !OpenUpdate(e, t, below, h) && Guard(t, h, Exclusive) !in e.guards
  {
    var frames := DropGuard(s, t, h, Exclusive).threads[t].frames;
    assert |frames| == below + 1 && frames[0].kind == Leaving(h);
  }

  lemma UpdateIsExclusive(s: State, t: Tid)
    requires Inv(s) && Unfinished(s, t) && Top(s.threads[t]).kind.Callback? && Top(s.threads[t]).kind.work.Updating?
    ensures Top(s.threads[t]).kind.mode == Exclusive
  {
    assert ThreadOk(s, t);
    assert KindOk(s, s.threads[t].frames[0].kind);
    hide Markers, Guards, GuardsExclude, CellsFold, SeenFold;
  }

  lemma UnwindIs(s: State, t: Tid)
    requires Unfinished(s, t) && s.threads[t].status == Unwinding && Top(s.threads[t]).kind.Callback?
    ensures Step(s, t) == DropGuard(s, t, Top(s.threads[t]).kind.h, Top(s.threads[t]).kind.mode)
  {}

  lemma {:induction false} LastStaysOpen(s: State, schedule: seq<Tid>, t: Tid, below: nat, h: Handle)
    requires Runs(s, schedule) && StaysOpen(s, schedule, t, below, h)
    ensures OpenUpdate(Exec(s, schedule), t, below, h)
    decreases |schedule|
  {
    hide OpenUpdate, Step, Blocked, HeldBack, IsWaiting;
    if schedule != [] { LastStaysOpen(Step(s, schedule[0]), schedule[1..], t, below, h); }
  }

  // ---------------------------------------------------------------- what a step does to its thread

  /** A step changes no thread but its own. */
  predicate MovesOne(s: State, t: Tid, s': State) {
    s'.threads.Keys == s.threads.Keys && forall u | u in s.threads && u != t :: s'.threads[u] == s.threads[u]
  }

  lemma BeginMovesOne(s: State, t: Tid)
    requires Unfinished(s, t) && Top(s.threads[t]).todo != []
    ensures MovesOne(s, t, Begin(s, t, Top(s.threads[t]).todo[0]))
  { }

  lemma AcquireMovesOne(s: State, t: Tid, op: Op)
    requires Unfinished(s, t)
    ensures MovesOne(s, t, Acquire(s, t, op))
  { }

  lemma ReturnMovesOne(s: State, t: Tid)
    requires Unfinished(s, t)
    ensures MovesOne(s, t, Return(s, t)) && MovesOne(s, t, Unwind(s, t))
  { }

  lemma StepMovesOne(s: State, t: Tid)
    requires Unfinished(s, t)
    ensures MovesOne(s, t, Step(s, t))
  {
    hide Begin, Acquire, Return, Unwind, MovesOne;
    ReturnMovesOne(s, t);
    if s.threads[t].status.Waiting? {
      AcquireMovesOne(s, t, s.threads[t].status.op);
    } else if Top(s.threads[t]).todo != [] {
      BeginMovesOne(s, t);
    }
  }

  /** What becomes of a thread that takes its next operation. */
  predicate Began(th: Thread, op: Op, th': Thread)
    requires th.frames != [] && Top(th).todo != []
  {
    var next := Advance(th);
    match op
    case Catch(body) => th'.frames == [Frame(Try, body)] + next.frames && th'.status == th.status
    case Poke(_) => th' == next
    case Throw => th' == next.(status := Unwinding)
    case _ =>
      || th' == next.(status := Unwinding)
      || (th'.frames == next.frames && th'.status == Waiting(op) && op.h !in th.active && (HasBody(op) ==> op.body.Body?))
  }

  lemma BeginMoves(s: State, t: Tid)
    requires Unfinished(s, t) && s.threads[t].status == Running && Top(s.threads[t]).todo != []
    ensures t in Step(s, t).threads && Began(s.threads[t], Top(s.threads[t]).todo[0], Step(s, t).threads[t])
  {
    hide Mutable;
  }

  /** What becomes of a thread whose wait is over. */
  ghost predicate Acquired(th: Thread, op: Op, th': Thread) {
    && th'.status == Running
    && (th'.frames == th.frames || (HasBody(op) && op.body.Body? &&
          exists kind: Kind :: kind.Callback? && kind.h == op.h && th'.frames == [Frame(kind, op.body.ops)] + th.frames))
  }

  lemma AcquireMoves(s: State, t: Tid)
    requires Unfinished(s, t) && s.threads[t].status.Waiting?
    ensures t in Step(s, t).threads && Acquired(s.threads[t], s.threads[t].status.op, Step(s, t).threads[t])
  {
    var op := s.threads[t].status.op;
    var th' := Step(s, t).threads[t];
    if th'.frames != s.threads[t].frames {
      assert th'.frames == [Frame(th'.frames[0].kind, op.body.ops)] + s.threads[t].frames;
    }
  }

  /** What becomes of a thread that returns from its innermost scope or unwinds it. */
  ghost predicate LeftScope(th: Thread, th': Thread)
    requires th.frames != []
  {
    && !th'.status.Waiting?
    && (th'.frames == Rest(th) || (Top(th).kind.Callback? && exists h :: th'.frames == [Frame(Leaving(h), [])] + Rest(th)))
  }

  lemma LeaveMoves(s: State, t: Tid)
    requires Unfinished(s, t)
    requires s.threads[t].status == Unwinding || (s.threads[t].status == Running && Top(s.threads[t]).todo == [])
    ensures t in Step(s, t).threads && LeftScope(s.threads[t], Step(s, t).threads[t])
  { }

  // ---------------------------------------------------------------- progress

  /** Number the handles in the global order: every new handle lies above those already active. */
  predicate Above(h: Handle, held: set<Handle>) {
    forall k | k in held :: k < h
  }

  /** `op`, run while `held` is active, takes locks in the global order or throws for reentry. */
  predicate Ordered(op: Op, held: set<Handle>) {
    match op
    case Peek(h, _) => h in held || Above(h, held)
    case Put(h, _) => h in held || Above(h, held)
    case Replace(h, _) => h in held || Above(h, held)
    case Update(h, _, Body(body)) => h in held || (Above(h, held) && forall o | o in body :: Ordered(o, held + {h}))
    case Borrow(h, _, Body(body)) => h in held || (Above(h, held) && forall o | o in body :: Ordered(o, held + {h}))
    case Mutate(h, Body(body)) => h in held || (Above(h, held) && forall o | o in body :: Ordered(o, held + {h}))
    case Catch(body) => forall o | o in body :: Ordered(o, held)
    case _ => true
  }

  function Elements(hs: seq<Handle>): set<Handle> {
    set h | h in hs
  }

  ghost predicate FramesOrdered(frames: seq<Frame>) {
    frames == [] ||
    (FramesOrdered(frames[1..]) && forall o | o in frames[0].todo :: Ordered(o, Elements(Markers(frames))))
  }

  ghost predicate ThreadOrdered(th: Thread) {
    && FramesOrdered(th.frames)
    && (th.status.Waiting? ==>
          && UsesLock(th.status.op)
          && Above(th.status.op.h, Elements(Markers(th.frames)))
          && Ordered(th.status.op, Elements(Markers(th.frames))))
  }

  ghost predicate AllOrdered(s: State) {
    forall t | t in s.threads :: ThreadOrdered(s.threads[t])
  }

  lemma OrderWidens(frames: seq<Frame>, todo: seq<Op>)
    requires frames != [] && FramesOrdered(frames) && forall o | o in todo :: o in frames[0].todo
    ensures FramesOrdered([frames[0].(todo := todo)] + frames[1..])
  {
    var frames' := [frames[0].(todo := todo)] + frames[1..];
    assert frames'[1..] == frames[1..];
  }

  lemma AdvanceKeepsOrder(th: Thread)
    requires th.frames != [] && Top(th).todo != [] && FramesOrdered(th.frames)
    ensures FramesOrdered(Advance(th).frames) && Markers(Advance(th).frames) == Markers(th.frames)
    ensures Ordered(Top(th).todo[0], Elements(Markers(th.frames)))
  {
    OrderWidens(th.frames, Top(th).todo[1..]);
    SameKinds(0, th.frames, Advance(th).frames);
    assert Advance(th).frames == [th.frames[0].(todo := Top(th).todo[1..])] + th.frames[1..];
  }

  lemma CatchKeepsOrder(th: Thread, body: seq<Op>)
    requires FramesOrdered(th.frames) && forall o | o in body :: Ordered(o, Elements(Markers(th.frames)))
    ensures FramesOrdered([Frame(Try, body)] + th.frames)
  {
    var inner := [Frame(Try, body)] + th.frames;
    assert inner[1..] == th.frames;
    assert Markers(inner) == Markers(th.frames) + [] == Markers(th.frames);
  }

  lemma BeginKeepsOrder(th: Thread, op: Op, th': Thread)
    requires th.frames != [] && th.status == Running && Top(th).todo != [] && op == Top(th).todo[0] && Began(th, op, th')
    requires FramesOrdered(th.frames) && th.active == Markers(th.frames)
    ensures ThreadOrdered(th')
  {
    AdvanceKeepsOrder(th);
    hide Markers, FramesOrdered;
    if op.Catch? { CatchKeepsOrder(Advance(th), op.guarded); }
  }

  lemma EnterKeepsOrder(frames: seq<Frame>, kind: Kind, body: seq<Op>)
    requires FramesOrdered(frames) && kind.Callback?
    requires forall o | o in body :: Ordered(o, Elements(Markers(frames)) + {kind.h})
    ensures FramesOrdered([Frame(kind, body)] + frames)
  {
    hide Ordered;
    var inner := [Frame(kind, body)] + frames;
    assert inner[1..] == frames;
    assert Markers(inner) == Markers(frames) + [kind.h];
    assert Elements(Markers(inner)) == Elements(Markers(frames)) + {kind.h};
  }

  lemma AcquireKeepsOrder(th: Thread, op: Op, th': Thread)
    requires th.status == Waiting(op) && ThreadOrdered(th) && Acquired(th, op, th')
    ensures ThreadOrdered(th')
  {
    hide Markers, FramesOrdered;
    if th'.frames != th.frames {
      var kind: Kind :| kind.Callback? && kind.h == op.h && th'.frames == [Frame(kind, op.body.ops)] + th.frames;
      assert op.h !in Elements(Markers(th.frames));
      EnterKeepsOrder(th.frames, kind, op.body.ops);
    }
  }

  lemma LeaveKeepsOrder(th: Thread, th': Thread)
    requires th.frames != [] && FramesOrdered(th.frames) && LeftScope(th, th')
    ensures ThreadOrdered(th')
  {
    assert FramesOrdered(Rest(th));
    if th'.frames != Rest(th) { assert th'.frames[1..] == Rest(th); }
    hide Ordered;
  }

  lemma StepKeepsOrder(s: State, t: Tid)
    requires Inv(s) && AllOrdered(s) && Enabled(s, t, false)
    ensures AllOrdered(Step(s, t))
  {
    hide Inv, ThreadOk, Step, FramesOrdered, Markers, Began, Acquired, LeftScope;
    ThreadsAreOk(s, t);
    StepMovesOne(s, t);
    if !s.threads[t].status.Waiting? { ActiveIsMarkers(s, t); }
    var th, th' := s.threads[t], Step(s, t).threads[t];
    assert ThreadOrdered(th);
    if th.status.Waiting? {
      AcquireMoves(s, t);
      AcquireKeepsOrder(th, th.status.op, th');
    } else if th.status == Running && Top(th).todo != [] {
      BeginMoves(s, t);
      BeginKeepsOrder(th, Top(th).todo[0], th');
    } else {
      LeaveMoves(s, t);
      LeaveKeepsOrder(th, th');
    }
  }

  lemma {:induction false} RunsKeepOrder(s: State, schedule: seq<Tid>)
    requires Inv(s) && AllOrdered(s) && Runs(s, schedule)
    ensures AllOrdered(Exec(s, schedule))
    decreases |schedule|
  {
    if schedule != [] {
      StepKeepsInv(s, schedule[0], false);
      StepKeepsOrder(s, schedule[0]);
      RunsKeepOrder(Step(s, schedule[0]), schedule[1..]);
    }
  }

  /** The handle a thread waits for. */
  function Wanted(s: State, t: Tid): Handle
    requires IsWaiting(s, t)
  {
    s.threads[t].status.op.h
  }

  lemma {:induction false} HighestWaiter(s: State, ts: set<Tid>) returns (m: Tid)
    requires ts != {} && forall t | t in ts :: IsWaiting(s, t)
    ensures m in ts && forall t | t in ts :: Wanted(s, t) <= Wanted(s, m)
    decreases |ts|
  {
    var t :| t in ts;
    m := t;
    if ts != {t} {
      var n := HighestWaiter(s, ts - {t});
      if Wanted(s, t) < Wanted(s, n) { m := n; }
    }
  }

  /** The holder of a guard on the highest awaited handle does not wait itself. */
  lemma HolderMoves(s: State, m: Tid, g: Guard)
    requires Inv(s) && AllOrdered(s) && IsWaiting(s, m) && g in s.guards && g.h == Wanted(s, m)
    requires forall t | IsWaiting(s, t) :: Wanted(s, t) <= Wanted(s, m)
    ensures Unfinished(s, g.t) && !IsWaiting(s, g.t)
  {
    assert ThreadOk(s, g.t);
    GuardsAreMarked(g.t, s.threads[g.t].frames);
    assert ThreadOrdered(s.threads[g.t]);
    assert g.h in Elements(Markers(s.threads[g.t].frames));
  }

  /**
    No deadlock.  If every thread nests different handles in the global order, each
    reachable state with an unfinished thread has one that can move - even when a
    waiting writer keeps new readers out.
  */
  lemma OrderedThreadsProgress(s: State, schedule: seq<Tid>, t: Tid)
    requires Init(s) && AllOrdered(s) && Runs(s, schedule) && Unfinished(Exec(s, schedule), t)
    ensures exists u :: Enabled(Exec(s, schedule), u, true)
  {
    InitGivesInv(s);
    hide Inv, Init, AllOrdered, Runs, Exec;
    RunsKeepInv(s, schedule);
    RunsKeepOrder(s, schedule);
    var e := Exec(s, schedule);
    var waiting := set u | u in e.threads && IsWaiting(e, u);
    if t !in waiting {
      assert Enabled(e, t, true);
    } else {
      var m := HighestWaiter(e, waiting);
      SomeoneMoves(e, m);
    }
  }

  lemma HolderCanMove(s: State, m: Tid, mode: Mode)
    requires Inv(s) && AllOrdered(s) && IsWaiting(s, m) && Blocked(s, s.threads[m].status.op.h, mode)
    requires forall t | IsWaiting(s, t) :: Wanted(s, t) <= Wanted(s, m)
    ensures exists u :: Enabled(s, u, true)
  {
    var g :| g in s.guards && Conflict(g, s.threads[m].status.op.h, mode);
    HolderMoves(s, m, g);
    hide Inv, AllOrdered;
    assert Enabled(s, g.t, true);
  }

  lemma SomeoneMoves(s: State, m: Tid)
    requires Inv(s) && AllOrdered(s) && IsWaiting(s, m)
    requires forall t | IsWaiting(s, t) :: Wanted(s, t) <= Wanted(s, m)
    ensures exists u :: Enabled(s, u, true)
  {
    hide Inv, AllOrdered;
    var op := s.threads[m].status.op;
    if Blocked(s, op.h, ModeOf(op)) {
      HolderCanMove(s, m, ModeOf(op));
    } else if Blocked(s, op.h, Exclusive) {
      HolderCanMove(s, m, Exclusive);
    } else if HeldBack(s, m, op.h, ModeOf(op)) {
      var w :| w in s.threads && w != m && IsWaiting(s, w) && s.threads[w].status.op.h == op.h
               && ModeOf(s.threads[w].status.op) == Exclusive;
      assert Enabled(s, w, true);
    } else {
      assert Enabled(s, m, true);
    }
  }
}
