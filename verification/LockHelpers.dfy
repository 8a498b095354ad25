/**
  One thread of runtime/hxrt/src/concurrent.rs in its own form: helpers that call the
  callback while the marker is on the thread's vector of active handles, with the drop
  that searches the vector from its end.  No other thread interferes here; the
  interleavings are the subject of LockCallbacks.
*/
module LockHelpers {
  import opened Common
  import opened LockCallbacks

  datatype Outcome = Done | Thrown

  type Values = map<Handle, Value>

  // ---------------------------------------------------------------- what the helpers mean

  /** Access that throws before anything is pushed: a null callback or handle, or an active handle. */
  predicate Refused(op: Op, active: set<Handle>, cells: Values)
    requires UsesLock(op)
  {
    (HasBody(op) && op.body.NullCallee?) || op.h !in cells || op.h in active
  }

  /** The structured meaning: a set of active handles and no vector; `target` is what Poke changes. */
  function MeaningOf(op: Op, active: set<Handle>, cells: Values, target: Option<Handle>): (Outcome, Values)
    decreases op, 0
  {
    match op
    case Throw => (Thrown, cells)
    case Catch(body) => (Done, Meaning(body, active, cells, target).1)
    case Poke(f) =>
      if target.Some? && target.value in cells then (Done, cells[target.value := LockCallbacks.Run(Apply(f), cells[target.value])])
      else (Done, cells)
    case Peek(h, _) => if Refused(op, active, cells) then (Thrown, cells) else (Done, cells)
    case Put(h, v) => if Refused(op, active, cells) then (Thrown, cells) else (Done, cells[h := v])
    case Replace(h, v) => if Refused(op, active, cells) then (Thrown, cells) else (Done, cells[h := v])
    case Update(h, f, callee) =>
      if Refused(op, active, cells) then (Thrown, cells)
      else
        var (outcome, after) := Meaning(callee.ops, active + {h}, cells, None);
        if outcome == Thrown then (Thrown, after) else (Done, after[h := LockCallbacks.Run(Apply(f), cells[h])])
    case Borrow(h, _, callee) =>
      if Refused(op, active, cells) then (Thrown, cells) else Meaning(callee.ops, active + {h}, cells, None)
    case Mutate(h, callee) =>
      if Refused(op, active, cells) then (Thrown, cells) else Meaning(callee.ops, active + {h}, cells, Some(h))
  }

  function Meaning(ops: seq<Op>, active: set<Handle>, cells: Values, target: Option<Handle>): (Outcome, Values)
    decreases ops, |ops|
  {
    if ops == [] then (Done, cells)
    else
      var (outcome, after) := MeaningOf(ops[0], active, cells, target);
      if outcome == Thrown then (Thrown, after) else Meaning(ops[1..], active, after, target)
  }

  /** What the helper hands back, if it returns: the value it found, or for an update the one it stored. */
  function Given(op: Op, active: set<Handle>, cells: Values, target: Option<Handle>): Option<Value> {
    if MeaningOf(op, active, cells, target).0 == Thrown then None
    else match op
      case Peek(h, _) => Some(cells[h])
      case Replace(h, _) => Some(cells[h])
      case Update(h, f, _) => Some(LockCallbacks.Run(Apply(f), cells[h]))
      case _ => None
  }

  // ---------------------------------------------------------------- the thread

  /** Searching from the end finds the position that RemoveLast removes. */
  lemma {:induction false} RemoveLastAt(active: seq<Handle>, h: Handle, k: nat)
    requires k < |active| && active[k] == h && forall i | k < i < |active| :: active[i] != h
    ensures RemoveLast(active, h) == active[..k] + active[k + 1..]
  {
    if k < |active| - 1 {
      var front := active[..|active| - 1];
      RemoveLastAt(front, h, k);
      assert active[k + 1..] == front[k + 1..] + [active[|active| - 1]];
      assert front[..k] == active[..k];
    } else {
      assert active[..k] == active[..|active| - 1] && active[k + 1..] == [];
    }
  }

  lemma {:induction false} RemoveLastAbsent(active: seq<Handle>, h: Handle)
    requires h !in active
    ensures RemoveLast(active, h) == active
  {
    if active != [] {
      RemoveLastAbsent(active[..|active| - 1], h);
      assert active == active[..|active| - 1] + [active[|active| - 1]];
    }
  }

  lemma ElementsPush(active: seq<Handle>, h: Handle)
    ensures Elements(active + [h]) == Elements(active) + {h}
  {
    assert forall x :: x in active + [h] <==> x in active || x == h;
  }

  class CallbackThread {
    // ACTIVE_LOCK_CALLBACKS, and the protected values by handle.
    var active: seq<Handle>
    var cells: Values

    constructor (values: Values)
      ensures active == [] && cells == values
    {
      active, cells := [], values;
    }

    /** ensure_lock_access_allowed, then the push. */
    method Enter(h: Handle) returns (outcome: Outcome)
      modifies this`active
      ensures outcome == Thrown <==> h !in cells || h in old(active)
      ensures active == if outcome == Thrown then old(active) else old(active) + [h]
    {
      if h !in cells || h in active {
        return Thrown;
      }
      active := active + [h];
      return Done;
    }

    /** Drop of LockCallbackScope: rposition and remove. */
    method Leave(h: Handle)
      modifies this`active
      ensures active == RemoveLast(old(active), h)
    {
      var i: nat := |active|;
      while i > 0 && active[i - 1] != h
        invariant i <= |active|
        invariant forall k | i <= k < |active| :: active[k] != h
      {
        i := i - 1;
      }
      if i > 0 {
        RemoveLastAt(active, h, i - 1);
        active := active[..i - 1] + active[i..];
      } else {
        RemoveLastAbsent(active, h);
      }
    }

    /** Every helper does what its structured meaning says, and leaves the vector as it found it however it exits. */
    method RunOp(op: Op, target: Option<Handle>) returns (outcome: Outcome, given: Option<Value>)
      modifies this
      ensures active == old(active)
      ensures (outcome, cells) == MeaningOf(op, Elements(old(active)), old(cells), target)
      ensures given == Given(op, Elements(old(active)), old(cells), target)
      decreases op, 0
    {
      hide RemoveLast;
      given := None;
      match op {
        case Throw =>
          outcome := Thrown;
        case Catch(body) =>
          outcome := RunOps(body, target);
          outcome := Done;
        case Poke(f) =>
          outcome := Done;
          if target.Some? && target.value in cells {
            cells := cells[target.value := LockCallbacks.Run(Apply(f), cells[target.value])];
          }
        case Peek(h, _) =>
          if h !in cells || h in active { return Thrown, None; }
          outcome, given := Done, Some(cells[h]);
        case Put(h, v) =>
          if h !in cells || h in active { return Thrown, None; }
          cells := cells[h := v];
          outcome := Done;
        case Replace(h, v) =>
          if h !in cells || h in active { return Thrown, None; }
          outcome, given := Done, Some(cells[h]);
          cells := cells[h := v];
        case Update(h, f, callee) =>
          if callee.NullCallee? { return Thrown, None; }
          outcome := Enter(h);
          if outcome == Thrown { return; }
          var seen := cells[h];
          ElementsPush(old(active), h);
          outcome := RunOps(callee.ops, None);
          if outcome == Done {
            cells := cells[h := LockCallbacks.Run(Apply(f), seen)];
            given := Some(cells[h]);
          }
          RemoveLastOfPushed(old(active), h);
          Leave(h);
        case Borrow(h, _, callee) =>
          if callee.NullCallee? { return Thrown, None; }
          outcome := Enter(h);
          if outcome == Thrown { return; }
          ElementsPush(old(active), h);
          outcome := RunOps(callee.ops, None);
          RemoveLastOfPushed(old(active), h);
          Leave(h);
        case Mutate(h, callee) =>
          if callee.NullCallee? { return Thrown, None; }
          outcome := Enter(h);
          if outcome == Thrown { return; }
          ElementsPush(old(active), h);
          outcome := RunOps(callee.ops, Some(h));
          RemoveLastOfPushed(old(active), h);
          Leave(h);
      }
    }

    method RunOps(ops: seq<Op>, target: Option<Handle>) returns (outcome: Outcome)
      modifies this
      ensures active == old(active)
      ensures (outcome, cells) == Meaning(ops, Elements(old(active)), old(cells), target)
      decreases ops, |ops|
    {
      if ops == [] { return Done; }
      var given;
      outcome, given := RunOp(ops[0], target);
      if outcome == Done {
        outcome := RunOps(ops[1..], target);
      }
    }
  }

  // ---------------------------------------------------------------- atomicity

  /** Callbacks make no handle appear or disappear, and do not touch an active value unless they are its mutator. */
  lemma {:induction false} ActiveValuesStay(op: Op, active: set<Handle>, cells: Values, target: Option<Handle>, h: Handle)
    ensures MeaningOf(op, active, cells, target).1.Keys == cells.Keys
    ensures h in active && h in cells && target != Some(h) ==> MeaningOf(op, active, cells, target).1[h] == cells[h]
    decreases op, 0
  {
    match op
    case Catch(body) => ActiveValuesStayAll(body, active, cells, target, h);
    case Update(k, _, callee) =>
      if !Refused(op, active, cells) { ActiveValuesStayAll(callee.ops, active + {k}, cells, None, h); }
    case Borrow(k, _, callee) =>
      if !Refused(op, active, cells) { ActiveValuesStayAll(callee.ops, active + {k}, cells, None, h); }
    case Mutate(k, callee) =>
      if !Refused(op, active, cells) { ActiveValuesStayAll(callee.ops, active + {k}, cells, Some(k), h); }
    case _ =>
  }

  lemma {:induction false} ActiveValuesStayAll(ops: seq<Op>, active: set<Handle>, cells: Values, target: Option<Handle>, h: Handle)
    ensures Meaning(ops, active, cells, target).1.Keys == cells.Keys
    ensures h in active && h in cells && target != Some(h) ==> Meaning(ops, active, cells, target).1[h] == cells[h]
    decreases ops, |ops|
  {
    if ops != [] {
      ActiveValuesStay(ops[0], active, cells, target, h);
      var (outcome, after) := MeaningOf(ops[0], active, cells, target);
      ActiveValuesStayAll(ops[1..], active, after, target, h);
    }
  }

  /**
    An update is atomic: its value is what the captured one gives, which is also what it hands
    back, or unchanged if its callback threw, whatever else ran.
  */
  lemma UpdateIsAtomic(h: Handle, f: Fun, body: seq<Op>, active: set<Handle>, cells: Values, target: Option<Handle>)
    requires h in cells && h !in active
    ensures var (outcome, after) := MeaningOf(Update(h, f, Body(body)), active, cells, target);
      && h in after && after[h] == (if outcome == Done then LockCallbacks.Run(Apply(f), cells[h]) else cells[h])
      && Given(Update(h, f, Body(body)), active, cells, target) == if outcome == Done then Some(after[h]) else None
  {
    ActiveValuesStayAll(body, active + {h}, cells, None, h);
  }

  /** An update that returns has stored, and hands back, the callback's value of the one it captured. */
  lemma UpdateApplies(h: Handle, f: Fun, body: seq<Op>, active: set<Handle>, cells: Values, target: Option<Handle>)
    requires h in cells && h !in active && cells[h] in f
    ensures var (outcome, after) := MeaningOf(Update(h, f, Body(body)), active, cells, target);
      outcome == Done ==>
        h in after && after[h] == f[cells[h]] && Given(Update(h, f, Body(body)), active, cells, target) == Some(f[cells[h]])
  {
    UpdateIsAtomic(h, f, body, active, cells, target);
    hide MeaningOf;
  }

  /** The callback of with_mut, with_write changes the value in place, also inside a catch. */
  lemma MutateApplies(h: Handle, f: Fun, active: set<Handle>, cells: Values, target: Option<Handle>)
    requires h in cells && h !in active && cells[h] in f
    ensures MeaningOf(Mutate(h, Body([Poke(f)])), active, cells, target) == (Done, cells[h := f[cells[h]]])
    ensures MeaningOf(Mutate(h, Body([Catch([Poke(f)])])), active, cells, target) == (Done, cells[h := f[cells[h]]])
  {
    MeaningOfOne(Poke(f), active + {h}, cells, Some(h));
    MeaningOfOne(Catch([Poke(f)]), active + {h}, cells, Some(h));
  }

  lemma MeaningOfOne(op: Op, active: set<Handle>, cells: Values, target: Option<Handle>)
    ensures Meaning([op], active, cells, target) == MeaningOf(op, active, cells, target)
  {
    var one := [op];
    assert one[1..] == [];
    hide MeaningOf;
  }

  /** A callback with shared access leaves the value as it was. */
  lemma BorrowChangesNothing(h: Handle, mode: Mode, body: seq<Op>, active: set<Handle>, cells: Values, target: Option<Handle>)
    requires h in cells && h !in active
    ensures var (_, after) := MeaningOf(Borrow(h, mode, Body(body)), active, cells, target); h in after && after[h] == cells[h]
  {
    ActiveValuesStayAll(body, active + {h}, cells, None, h);
  }
}
