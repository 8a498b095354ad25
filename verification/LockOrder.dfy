/**
  Why threads that nest locks need a global order: two threads that nest the same two
  mutexes in opposite orders reach a state in which neither can move.  Reentry is
  rejected only within one thread, so nothing throws.
*/
module LockOrder {
  import opened LockCallbacks

  function Nested(outer: Handle, inner: Handle): Op {
    Mutate(outer, Body([Mutate(inner, Body([]))]))
  }

  function Cells(): map<Handle, Cell> { map[1 := Cell(0, 0, []), 2 := Cell(0, 0, [])] }

  /** Before, waiting for its outer mutex, inside it, and waiting for its inner mutex. */
  function Stage(n: nat, outer: Handle, inner: Handle): Thread {
    if n == 0 then Thread([Frame(Root, [Nested(outer, inner)])], [], Running)
    else if n == 1 then Thread([Frame(Root, [])], [outer], Waiting(Nested(outer, inner)))
    else if n == 2 then
      Thread([Frame(Callback(outer, Exclusive, Mutating), [Mutate(inner, Body([]))]), Frame(Root, [])], [outer], Running)
    else
      Thread([Frame(Callback(outer, Exclusive, Mutating), []), Frame(Root, [])], [outer, inner], Waiting(Mutate(inner, Body([]))))
  }

  function Held(a: nat, b: nat): set<Guard> {
    (if a < 2 then {} else {Guard(0, 1, Exclusive)}) + (if b < 2 then {} else {Guard(1, 2, Exclusive)})
  }

  /** Thread 0 nests 1 then 2, thread 1 nests 2 then 1. */
  function At(a: nat, b: nat): State {
    State(map[0 := Stage(a, 1, 2), 1 := Stage(b, 2, 1)], Held(a, b), Cells(), [])
  }

  lemma StageMoves(s: State, t: Tid, n: nat, outer: Handle, inner: Handle)
    requires n < 3 && t in s.threads && s.threads[t] == Stage(n, outer, inner)
    requires outer in s.cells && inner in s.cells && outer != inner
    ensures Unfinished(s, t) && (IsWaiting(s, t) <==> n == 1)
    ensures Step(s, t) == s.(threads := s.threads[t := Stage(n + 1, outer, inner)],
                             guards := if n == 1 then s.guards + {Guard(t, outer, Exclusive)} else s.guards)
  {
    var op, last := Nested(outer, inner), Mutate(inner, Body([]));
    assert [op][1..] == [] && [last][1..] == [];
    if n == 0 {
      assert [Frame(Root, [])] + [Frame(Root, [op])][1..] == [Frame(Root, [])];
      assert [] + [outer] == [outer];
    } else if n == 1 {
      assert [Frame(Callback(outer, Exclusive, Mutating), [last])] + [Frame(Root, [])]
        == [Frame(Callback(outer, Exclusive, Mutating), [last]), Frame(Root, [])];
    } else {
      var frames := Stage(2, outer, inner).frames;
      assert [Frame(Callback(outer, Exclusive, Mutating), [])] + frames[1..]
        == [Frame(Callback(outer, Exclusive, Mutating), []), Frame(Root, [])];
      assert [outer] + [inner] == [outer, inner];
    }
  }

  lemma FirstMoves(a: nat, b: nat)
    requires a < 3 && b < 3
    ensures Enabled(At(a, b), 0, false) && Step(At(a, b), 0) == At(a + 1, b)
  {
    StageMoves(At(a, b), 0, a, 1, 2);
    hide Step, Stage;
    assert At(a, b).threads[0 := Stage(a + 1, 1, 2)] == At(a + 1, b).threads;
  }

  lemma SecondMoves(a: nat, b: nat)
    requires a < 4 && b < 3
    ensures Enabled(At(a, b), 1, false) && Step(At(a, b), 1) == At(a, b + 1)
  {
    StageMoves(At(a, b), 1, b, 2, 1);
    hide Step, Stage;
    assert At(a, b).threads[1 := Stage(b + 1, 2, 1)] == At(a, b + 1).threads;
  }

  lemma MoveAndRun(s: State, t: Tid, s': State, rest: seq<Tid>, e: State)
    requires Enabled(s, t, false) && Step(s, t) == s' && Runs(s', rest) && Exec(s', rest) == e
    ensures Runs(s, [t] + rest) && Exec(s, [t] + rest) == e
  {
    assert ([t] + rest)[1..] == rest;
  }

  /** The state that the two threads reach is a deadlock, and the global order is what they lack. */
  lemma OppositeOrdersDeadlock()
    ensures Init(At(0, 0)) && Runs(At(0, 0), [0, 0, 1, 1, 0, 1])
    ensures var e := Exec(At(0, 0), [0, 0, 1, 1, 0, 1]);
      && Unfinished(e, 0) && Unfinished(e, 1)
      && forall t, fair :: !Enabled(e, t, fair)
    ensures !AllOrdered(At(0, 0))
  {
    OppositeRun();
    NothingEnabled();
    NotOrdered();
    Start();
    hide Step, At, Enabled, Runs, Exec, AllOrdered, Init, Unfinished;
  }

  lemma Start()
    ensures Init(At(0, 0)) && Runs(At(3, 3), []) && Exec(At(3, 3), []) == At(3, 3)
  { }

  lemma OppositeRun()
    ensures Runs(At(0, 0), [0, 0, 1, 1, 0, 1]) && Exec(At(0, 0), [0, 0, 1, 1, 0, 1]) == At(3, 3)
  {
    hide Step, At, Enabled, Runs, Exec, Init;
    var e := At(3, 3);
    Start();
    SecondMoves(3, 2);
    MoveAndRun(At(3, 2), 1, e, [], e);
    assert [1] + [] == [1];
    FirstMoves(2, 2);
    MoveAndRun(At(2, 2), 0, At(3, 2), [1], e);
    assert [0] + [1] == [0, 1];
    SecondMoves(2, 1);
    MoveAndRun(At(2, 1), 1, At(2, 2), [0, 1], e);
    assert [1] + [0, 1] == [1, 0, 1];
    SecondMoves(2, 0);
    MoveAndRun(At(2, 0), 1, At(2, 1), [1, 0, 1], e);
    assert [1] + [1, 0, 1] == [1, 1, 0, 1];
    FirstMoves(1, 0);
    MoveAndRun(At(1, 0), 0, At(2, 0), [1, 1, 0, 1], e);
    assert [0] + [1, 1, 0, 1] == [0, 1, 1, 0, 1];
    FirstMoves(0, 0);
    MoveAndRun(At(0, 0), 0, At(1, 0), [0, 1, 1, 0, 1], e);
    assert [0] + [0, 1, 1, 0, 1] == [0, 0, 1, 1, 0, 1];
  }

  lemma NothingEnabled()
    ensures Unfinished(At(3, 3), 0) && Unfinished(At(3, 3), 1)
    ensures forall t, fair :: !Enabled(At(3, 3), t, fair)
  {
    var e := At(3, 3);
    assert Guard(0, 1, Exclusive) in e.guards && Guard(1, 2, Exclusive) in e.guards;
    assert Blocked(e, 2, Exclusive) && Blocked(e, 1, Exclusive);
  }

  lemma NotOrdered()
    ensures !AllOrdered(At(0, 0))
  {
    var th := At(0, 0).threads[1];
    assert Markers(th.frames[1..]) == [];
    var inner := Mutate(1, Body([]));
    assert inner in [inner];
    assert Nested(2, 1) in th.frames[0].todo;
    assert !Ordered(inner, {2}) by { assert 2 in {2}; }
    assert Elements(Markers(th.frames)) == {};
    assert {} + {2} == {2};
    assert !Ordered(Nested(2, 1), {});
    assert 1 in At(0, 0).threads;
  }

  /** Nested calls are in the global order exactly when the inner handle comes after the outer, or is the outer and throws. */
  lemma NestedOrderedIff(outer: Handle, inner: Handle)
    ensures Ordered(Nested(outer, inner), {}) <==> outer <= inner
  {
    assert {} + {outer} == {outer};
    var op := Mutate(inner, Body([]));
    assert op in [op];
    assert outer in {outer};
    assert Ordered(op, {outer}) <==> inner == outer || outer < inner;
  }
}
