/**
  The threads of LockCallbacks come to an end.  A callback is a finite tree of operations,
  so a measure bounds every run; and threads that nest locks in the global order can always
  finish what they began, with every lock free at the end.
*/
module LockCompletion {
  import opened LockCallbacks

  // ---------------------------------------------------------------- the measure

  /** A bound on the steps of one operation: its own, and those of the operations inside it. */
  function Cost(op: Op): (n: nat)
    ensures n >= 1
    decreases op
  {
    match op
    case Throw => 1
    case Poke(_) => 1
    case Catch(body) => 2 + Costs(body)
    case Update(_, _, Body(body)) => 4 + Costs(body)
    case Borrow(_, _, Body(body)) => 4 + Costs(body)
    case Mutate(_, Body(body)) => 4 + Costs(body)
    case _ => 2
  }

  function Costs(ops: seq<Op>): nat
    decreases ops
  {
    if ops == [] then 0 else Cost(ops[0]) + Costs(ops[1..])
  }

  /** A scope is left in one step, or in two if its guard is still held. */
  function FrameCost(frame: Frame): (n: nat)
    ensures n >= 1
  {
    (if frame.kind.Callback? then 2 else 1) + Costs(frame.todo)
  }

  function FramesCost(frames: seq<Frame>): nat {
    if frames == [] then 0 else FrameCost(frames[0]) + FramesCost(frames[1..])
  }

  function StatusCost(status: Status): nat {
    if !status.Waiting? then 0
    else if HasBody(status.op) && status.op.body.Body? then 3 + Costs(status.op.body.ops)
    else 1
  }

  /** A bound on the steps that a thread can still take. */
  function ThreadCost(th: Thread): nat {
    FramesCost(th.frames) + StatusCost(th.status)
  }

  ghost function Sum(threads: map<Tid, Thread>, ts: set<Tid>): nat
    requires ts <= threads.Keys
    decreases |ts|
  {
    if ts == {} then 0
    else
      var t :| t in ts;
      ThreadCost(threads[t]) + Sum(threads, ts - {t})
  }

  /** A bound on the steps that all threads can still take. */
  ghost function Total(s: State): nat {
    Sum(s.threads, s.threads.Keys)
  }

  lemma {:induction false} SumWithout(threads: map<Tid, Thread>, ts: set<Tid>, t: Tid)
    requires ts <= threads.Keys && t in ts
    ensures Sum(threads, ts) == ThreadCost(threads[t]) + Sum(threads, ts - {t})
    decreases |ts|
  {
    hide ThreadCost;
    var u :| u in ts && Sum(threads, ts) == ThreadCost(threads[u]) + Sum(threads, ts - {u});
    if u != t {
      SumWithout(threads, ts - {u}, t);
      SumWithout(threads, ts - {t}, u);
      assert ts - {u} - {t} == ts - {t} - {u};
    }
  }

  lemma {:induction false} SumOfSame(a: map<Tid, Thread>, b: map<Tid, Thread>, ts: set<Tid>)
    requires ts <= a.Keys && ts <= b.Keys && forall t | t in ts :: a[t] == b[t]
    ensures Sum(a, ts) == Sum(b, ts)
    decreases |ts|
  {
    hide ThreadCost;
    if ts != {} {
      var t :| t in ts;
      SumWithout(a, ts, t);
      SumWithout(b, ts, t);
      SumOfSame(a, b, ts - {t});
    }
  }

  // ---------------------------------------------------------------- every step descends

  lemma PushCosts(frame: Frame, frames: seq<Frame>)
    ensures FramesCost([frame] + frames) == FrameCost(frame) + FramesCost(frames)
  {
    hide FrameCost;
    assert ([frame] + frames)[1..] == frames;
  }

  lemma AdvanceCosts(th: Thread)
    requires th.frames != [] && Top(th).todo != []
    ensures FramesCost(Advance(th).frames) + Cost(Top(th).todo[0]) == FramesCost(th.frames)
  {
    PushCosts(Top(th).(todo := Top(th).todo[1..]), Rest(th));
    hide FramesCost, Cost;
  }

  lemma BeginDescends(th: Thread, op: Op, th': Thread)
    requires th.frames != [] && th.status == Running && Top(th).todo != [] && op == Top(th).todo[0] && Began(th, op, th')
    ensures ThreadCost(th') < ThreadCost(th)
  {
    AdvanceCosts(th);
    if op.Catch? { PushCosts(Frame(Try, op.guarded), Advance(th).frames); }
    hide FramesCost;
  }

  lemma AcquireDescends(th: Thread, op: Op, th': Thread)
    requires th.status == Waiting(op) && Acquired(th, op, th')
    ensures ThreadCost(th') < ThreadCost(th)
  {
    if th'.frames != th.frames {
      var kind: Kind :| kind.Callback? && kind.h == op.h && th'.frames == [Frame(kind, op.body.ops)] + th.frames;
      PushCosts(Frame(kind, op.body.ops), th.frames);
    }
    hide FramesCost, Costs;
  }

  lemma LeaveDescends(th: Thread, th': Thread)
    requires th.frames != [] && LeftScope(th, th')
    ensures ThreadCost(th') < ThreadCost(th)
  {
    if th'.frames != Rest(th) {
      var h :| th'.frames == [Frame(Leaving(h), [])] + Rest(th);
      PushCosts(Frame(Leaving(h), []), Rest(th));
    }
    hide Costs;
  }

  lemma StepCosts(s: State, t: Tid)
    requires Unfinished(s, t)
    ensures t in Step(s, t).threads && ThreadCost(Step(s, t).threads[t]) < ThreadCost(s.threads[t])
  {
    StepMovesOne(s, t);
    hide Step, ThreadCost, Began, Acquired, LeftScope;
    var th, th' := s.threads[t], Step(s, t).threads[t];
    if th.status.Waiting? {
      AcquireMoves(s, t);
      AcquireDescends(th, th.status.op, th');
    } else if th.status == Running && Top(th).todo != [] {
      BeginMoves(s, t);
      BeginDescends(th, Top(th).todo[0], th');
    } else {
      LeaveMoves(s, t);
      LeaveDescends(th, th');
    }
  }

  /** Each step of any thread lowers the bound on all that can still happen. */
  lemma StepsDescend(s: State, t: Tid)
    requires Unfinished(s, t)
    ensures Total(Step(s, t)) < Total(s)
  {
    StepMovesOne(s, t);
    StepCosts(s, t);
    hide Step, ThreadCost;
    var a, b := s.threads, Step(s, t).threads;
    SumWithout(a, a.Keys, t);
    SumWithout(b, b.Keys, t);
    SumOfSame(a, b, a.Keys - {t});
    hide Sum;
  }

  /** No run is longer than the measure of the state it starts in, in whatever order the threads move. */
  lemma {:induction false} RunsAreBounded(s: State, schedule: seq<Tid>)
    requires Runs(s, schedule)
    ensures |schedule| + Total(Exec(s, schedule)) <= Total(s)
    decreases |schedule|
  {
    hide Step, Total;
    if schedule != [] {
      StepsDescend(s, schedule[0]);
      RunsAreBounded(Step(s, schedule[0]), schedule[1..]);
    }
  }

  // ---------------------------------------------------------------- ordered threads finish

  predicate AllFinished(s: State) {
    forall t | t in s.threads :: s.threads[t].frames == []
  }

  /** A finished thread keeps no marker and no guard. */
  lemma FinishedIsFree(s: State, t: Tid)
    requires Inv(s) && t in s.threads && s.threads[t].frames == []
    ensures s.threads[t].active == [] && forall g | g in s.guards :: g.t != t
  {
    assert ThreadOk(s, t) && Guards(t, s.threads[t].frames) == {};
  }

  lemma {:induction false} RunsJoin(s: State, a: seq<Tid>, b: seq<Tid>)
    requires Runs(s, a) && Runs(Exec(s, a), b)
    ensures Runs(s, a + b) && Exec(s, a + b) == Exec(Exec(s, a), b)
    decreases |a|
  {
    hide Step;
    if a == [] {
      assert a + b == b;
    } else {
      assert (a + b)[0] == a[0] && (a + b)[1..] == a[1..] + b;
      RunsJoin(Step(s, a[0]), a[1..], b);
    }
  }

  lemma RunOfOne(s: State, u: Tid)
    requires Enabled(s, u, false)
    ensures Runs(s, [u]) && Exec(s, [u]) == Step(s, u)
  {
    hide Step, Enabled;
    var one := [u];
    assert one[1..] == [];
  }

  /** Everything is over: no thread is left, no guard held, no handle marked, each cell holds the execution of its log. */
  ghost predicate Settled(s: State) {
    && AllFinished(s) && s.guards == {} && (forall t | t in s.threads :: s.threads[t].active == [])
    && (forall h | h in s.cells :: s.cells[h].value == Fold(s.cells[h].initial, s.cells[h].log))
  }

  ghost predicate Completes(s: State, schedule: seq<Tid>, more: seq<Tid>) {
    Runs(s, schedule + more) && Settled(Exec(s, schedule + more)) && |schedule| + |more| <= Total(s)
  }

  /**
    Threads that nest locks in the global order complete: whatever they have done so far,
    there is a way to go on, no longer than the measure, that settles everything.
  */
  lemma {:induction false} OrderedRunsComplete(s: State, schedule: seq<Tid>)
    requires Init(s) && AllOrdered(s) && Runs(s, schedule)
    ensures exists more :: Completes(s, schedule, more)
    decreases Total(s) - |schedule|
  {
    hide Init, AllOrdered, Runs, Exec, Total, Enabled, Settled;
    RunsAreBounded(s, schedule);
    var e := Exec(s, schedule);
    if AllFinished(e) {
      FinishedIsSettled(s, schedule);
      assert schedule + [] == schedule;
      assert Completes(s, schedule, []);
    } else {
      var t :| t in e.threads && e.threads[t].frames != [];
      OrderedThreadsProgress(s, schedule, t);
      var u :| Enabled(e, u, true);
      GoesOn(s, schedule, u);
      OrderedRunsComplete(s, schedule + [u]);
      var rest :| Completes(s, schedule + [u], rest);
      assert schedule + ([u] + rest) == schedule + [u] + rest;
      assert Completes(s, schedule, [u] + rest);
    }
  }

  /** And nobody can be left behind: a run that cannot go on, even with new readers held back, is settled. */
  lemma StoppedIsSettled(s: State, schedule: seq<Tid>)
    requires Init(s) && AllOrdered(s) && Runs(s, schedule) && forall u :: !Enabled(Exec(s, schedule), u, true)
    ensures Settled(Exec(s, schedule))
  {
    var e := Exec(s, schedule);
    forall t | t in e.threads ensures e.threads[t].frames == [] {
      if e.threads[t].frames != [] { OrderedThreadsProgress(s, schedule, t); }
    }
    FinishedIsSettled(s, schedule);
  }

  lemma FinishedIsSettled(s: State, schedule: seq<Tid>)
    requires Init(s) && Runs(s, schedule) && AllFinished(Exec(s, schedule))
    ensures Settled(Exec(s, schedule))
  {
    InitGivesInv(s);
    RunsKeepInv(s, schedule);
    var e := Exec(s, schedule);
    forall t | t in e.threads
      ensures e.threads[t].active == [] && forall g | g in e.guards :: g.t != t
    {
      FinishedIsFree(e, t);
    }
    hide Init, Runs, Exec, ThreadOk;
  }

  lemma GoesOn(s: State, schedule: seq<Tid>, u: Tid)
    requires Runs(s, schedule) && Enabled(Exec(s, schedule), u, true)
    ensures Runs(s, schedule + [u]) && |schedule| < Total(s)
  {
    RunOfOne(Exec(s, schedule), u);
    RunsJoin(s, schedule, [u]);
    RunsAreBounded(s, schedule + [u]);
    hide Runs, Exec, Total;
  }
}
