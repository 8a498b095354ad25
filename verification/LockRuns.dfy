/**
  The advisory lock of PublicationLock does its job: without interference a process
  acquires a free lock, reclaims the lock of a dead owner, and leaves no lock behind.
*/
module LockRuns {
  import opened Common
  import opened PublicationLock

  /** Only p moves, each time as `choices` say. */
  function Alone(p: Pid, choices: seq<Choice>): seq<Event> {
    if choices == [] then [] else Alone(p, choices[..|choices| - 1]) + [Event(p, choices[|choices| - 1])]
  }

  // A careful run of p alone from s, and the state it reaches.
  ghost predicate Reaches(s: State, p: Pid, choices: seq<Choice>, t: State) {
    && Runs(s, Alone(p, choices)) && CarefulRun(s, Alone(p, choices)) && Exec(s, Alone(p, choices)) == t
  }

  lemma {:induction false} RunsAppend(s: State, es: seq<Event>, e: Event)
    requires Runs(s, es) && Enabled(Exec(s, es), e)
    ensures Runs(s, es + [e]) && Exec(s, es + [e]) == Step(Exec(s, es), e)
    decreases |es|
  {
    if es == [] {
      assert (es + [e])[1..] == [];
    } else {
      RunsAppend(Step(s, es[0]), es[1..], e);
      assert (es + [e])[0] == es[0] && (es + [e])[1..] == es[1..] + [e];
    }
  }

  lemma {:induction false} CarefulAppend(s: State, es: seq<Event>, e: Event)
    requires Runs(s, es) && CarefulRun(s, es) && Enabled(Exec(s, es), e) && !Careless(Exec(s, es), e)
    ensures Runs(s, es + [e]) && CarefulRun(s, es + [e]) && Exec(s, es + [e]) == Step(Exec(s, es), e)
    decreases |es|
  {
    RunsAppend(s, es, e);
    if es == [] {
      assert (es + [e])[1..] == [];
    } else {
      CarefulAppend(Step(s, es[0]), es[1..], e);
      assert (es + [e])[0] == es[0] && (es + [e])[1..] == es[1..] + [e];
    }
  }

  /** No process goes on from holding the lock. */
  predicate Acquiring(s: State, es: seq<Event>)
    requires Runs(s, es)
    decreases |es|
  {
    es == [] || (!(s.procs[es[0].pid].pc.Holding? && es[0].choice == Proceed) && Acquiring(Step(s, es[0]), es[1..]))
  }

  lemma {:induction false} AcquiringAppend(s: State, es: seq<Event>, e: Event)
    requires Runs(s, es) && Acquiring(s, es) && Enabled(Exec(s, es), e)
    requires !(Exec(s, es).procs[e.pid].pc.Holding? && e.choice == Proceed)
    ensures Runs(s, es + [e]) && Acquiring(s, es + [e])
    decreases |es|
  {
    RunsAppend(s, es, e);
    if es == [] {
      assert (es + [e])[1..] == [];
    } else {
      AcquiringAppend(Step(s, es[0]), es[1..], e);
      assert (es + [e])[0] == es[0] && (es + [e])[1..] == es[1..] + [e];
    }
  }

  // As Reaches, without going on from holding the lock.
  ghost predicate Gains(s: State, p: Pid, choices: seq<Choice>, t: State) {
    Reaches(s, p, choices, t) && Acquiring(s, Alone(p, choices))
  }

  lemma Start(s: State, p: Pid)
    ensures Reaches(s, p, [], s) && Gains(s, p, [], s)
  { }

  lemma Next(s: State, p: Pid, choices: seq<Choice>, t: State, c: Choice)
    requires Reaches(s, p, choices, t) && Enabled(t, Event(p, c)) && !Careless(t, Event(p, c))
    ensures Reaches(s, p, choices + [c], Step(t, Event(p, c)))
  {
    assert (choices + [c])[..|choices|] == choices;
    CarefulAppend(s, Alone(p, choices), Event(p, c));
  }

  lemma NextGain(s: State, p: Pid, choices: seq<Choice>, t: State, c: Choice)
    requires Gains(s, p, choices, t) && Enabled(t, Event(p, c)) && !Careless(t, Event(p, c))
    requires !(t.procs[p].pc.Holding? && c == Proceed)
    ensures Gains(s, p, choices + [c], Step(t, Event(p, c)))
  {
    assert (choices + [c])[..|choices|] == choices;
    Next(s, p, choices, t, c);
    AcquiringAppend(s, Alone(p, choices), Event(p, c));
  }

  /** The state in which p stands at `pc` and the two files are as given, everything else as in s. */
  function With(s: State, p: Pid, pc: Pc, lock: Option<LockFile>, reclaim: Option<LockFile>, tokens: nat): State
    requires p in s.procs
  {
    State(lock, reclaim, s.procs[p := Proc(true, pc)], tokens)
  }

  /** A free lock is acquired by creating it and writing the owner's record. */
  lemma FreeLockIsAcquired(s: State, p: Pid)
    requires At(s, p, TryLock) && s.lock == None
    ensures var mine := Record(p, s.tokens);
      Reaches(s, p, [Proceed, Proceed], With(s, p, Holding(mine), Some(LockFile(mine, true)), s.reclaim, s.tokens + 1))
  {
    var mine := Record(p, s.tokens);
    Start(s, p);
    Next(s, p, [], s, Proceed);
    var s1 := With(s, p, WriteLock(mine, None), Some(LockFile(mine, false)), s.reclaim, s.tokens + 1);
    assert Step(s, Event(p, Proceed)) == s1;
    Next(s, p, [Proceed], s1, Proceed);
    assert Step(s1, Event(p, Proceed)).procs == s.procs[p := Proc(true, Holding(mine))];
    assert [] + [Proceed] == [Proceed] && [Proceed] + [Proceed] == [Proceed, Proceed];
  }

  /** The holder of its own lock releases it and leaves none behind. */
  lemma HeldLockIsReleased(s: State, p: Pid, mine: Record)
    requires At(s, p, Holding(mine)) && s.lock == Some(LockFile(mine, true))
    ensures Reaches(s, p, [Proceed, Proceed, Proceed], With(s, p, Outside, None, s.reclaim, s.tokens))
  {
    Start(s, p);
    Next(s, p, [], s, Proceed);
    var s1 := With(s, p, ReadOwn(mine), s.lock, s.reclaim, s.tokens);
    assert Step(s, Event(p, Proceed)) == s1;
    Next(s, p, [Proceed], s1, Proceed);
    var s2 := With(s, p, RemoveOwn(mine), s.lock, s.reclaim, s.tokens);
    assert Step(s1, Event(p, Proceed)).procs == s2.procs;
    Next(s, p, [Proceed, Proceed], s2, Proceed);
    assert Step(s2, Event(p, Proceed)).procs == s.procs[p := Proc(true, Outside)];
    assert [] + [Proceed] == [Proceed] && [Proceed] + [Proceed] == [Proceed, Proceed];
    assert [Proceed, Proceed] + [Proceed] == [Proceed, Proceed, Proceed];
  }

  /** A lock whose owner runs is left alone: the process only reads it, asks, and tries again. */
  lemma LiveOwnerIsRespected(s: State, p: Pid, owner: Record)
    requires At(s, p, TryLock) && s.lock == Some(LockFile(owner, true)) && Live(s, owner.pid) && p != owner.pid
    ensures Reaches(s, p, [Proceed, Proceed, Says(true)], s)
    ensures !Enabled(With(s, p, ProbeOwner(owner), s.lock, s.reclaim, s.tokens), Event(p, Says(false)))
  {
    Start(s, p);
    Next(s, p, [], s, Proceed);
    var s1 := With(s, p, ReadOwner, s.lock, s.reclaim, s.tokens);
    assert Step(s, Event(p, Proceed)) == s1;
    Next(s, p, [Proceed], s1, Proceed);
    var s2 := With(s, p, ProbeOwner(owner), s.lock, s.reclaim, s.tokens);
    assert Step(s1, Event(p, Proceed)).procs == s2.procs;
    Next(s, p, [Proceed, Proceed], s2, Says(true));
    assert Step(s2, Event(p, Says(true))).procs == s.procs;
    assert [] + [Proceed] == [Proceed] && [Proceed] + [Proceed] == [Proceed, Proceed];
    assert [Proceed, Proceed] + [Says(true)] == [Proceed, Proceed, Says(true)];
  }

  /** One more choice, whose state is known by its parts. */
  lemma Goes(s: State, p: Pid, choices: seq<Choice>, t: State, c: Choice, pc: Pc, lock: Option<LockFile>,
             reclaim: Option<LockFile>, tokens: nat, more: seq<Choice>)
    requires p in s.procs && p in t.procs && t.procs == s.procs[p := t.procs[p]]
    requires !t.procs[p].pc.Holding?
    requires Gains(s, p, choices, t) && Enabled(t, Event(p, c)) && !Careless(t, Event(p, c)) && more == choices + [c]
    requires Step(t, Event(p, c)) == With(t, p, pc, lock, reclaim, tokens)
    ensures Gains(s, p, more, With(s, p, pc, lock, reclaim, tokens))
  {
    NextGain(s, p, choices, t, c);
    assert t.procs[p := Proc(true, pc)] == s.procs[p := Proc(true, pc)];
  }

  const Asked: seq<Choice> := [Proceed, Proceed, Says(false)]
  const Reread: seq<Choice> := Asked + [Proceed, Proceed, Proceed, Says(false)]
  const Reclaimed: seq<Choice> := Reread + [Proceed, Proceed, Proceed, Proceed, Proceed]

  /** A process that finds the lock of a dead owner asks, takes the reclaim lock, and finds the owner still dead. */
  lemma DeadOwnerIsFound(s: State, p: Pid, owner: Record)
    requires At(s, p, TryLock) && s.lock == Some(LockFile(owner, true)) && !Live(s, owner.pid) && s.reclaim == None
    ensures var r := Record(p, s.tokens);
      Gains(s, p, Reread, With(s, p, RemoveStale(r, owner), s.lock, Some(LockFile(r, true)), s.tokens + 1))
  {
    hide Gains, CarefulRun, Runs, Exec;
    var r, held := Record(p, s.tokens), Some(LockFile(Record(p, s.tokens), true));
    Start(s, p);
    Goes(s, p, [], s, Proceed, ReadOwner, s.lock, None, s.tokens, [Proceed]);
    Goes(s, p, [Proceed], With(s, p, ReadOwner, s.lock, None, s.tokens), Proceed,
         ProbeOwner(owner), s.lock, None, s.tokens, [Proceed, Proceed]);
    Goes(s, p, [Proceed, Proceed], With(s, p, ProbeOwner(owner), s.lock, None, s.tokens), Says(false),
         TryReclaim, s.lock, None, s.tokens, Asked);
    Goes(s, p, Asked, With(s, p, TryReclaim, s.lock, None, s.tokens), Proceed,
         WriteReclaim(r), s.lock, Some(LockFile(r, false)), s.tokens + 1, Asked + [Proceed]);
    Goes(s, p, Asked + [Proceed], With(s, p, WriteReclaim(r), s.lock, Some(LockFile(r, false)), s.tokens + 1), Proceed,
         RereadOwner(r), s.lock, held, s.tokens + 1, Asked + [Proceed, Proceed]);
    Goes(s, p, Asked + [Proceed, Proceed], With(s, p, RereadOwner(r), s.lock, held, s.tokens + 1), Proceed,
         ReprobeOwner(r, owner), s.lock, held, s.tokens + 1, Asked + [Proceed, Proceed, Proceed]);
    Goes(s, p, Asked + [Proceed, Proceed, Proceed], With(s, p, ReprobeOwner(r, owner), s.lock, held, s.tokens + 1),
         Says(false), RemoveStale(r, owner), s.lock, held, s.tokens + 1, Reread);
  }

  /** It then replaces the stale lock by its own, gives the reclaim lock back and holds the publication lock. */
  lemma StaleLockIsReclaimed(s: State, p: Pid, owner: Record)
    requires At(s, p, TryLock) && s.lock == Some(LockFile(owner, true)) && !Live(s, owner.pid) && s.reclaim == None
    ensures var mine := Record(p, s.tokens + 1);
      Gains(s, p, Reclaimed, With(s, p, Holding(mine), Some(LockFile(mine, true)), None, s.tokens + 2))
  {
    DeadOwnerIsFound(s, p, owner);
    hide Gains, CarefulRun, Runs, Exec;
    var r, mine := Record(p, s.tokens), Record(p, s.tokens + 1);
    var held := Some(LockFile(r, true));
    Goes(s, p, Reread, With(s, p, RemoveStale(r, owner), s.lock, held, s.tokens + 1), Proceed,
         Relock(r), None, held, s.tokens + 1, Reread + [Proceed]);
    Goes(s, p, Reread + [Proceed], With(s, p, Relock(r), None, held, s.tokens + 1), Proceed,
         WriteLock(mine, Some(r)), Some(LockFile(mine, false)), held, s.tokens + 2, Reread + [Proceed, Proceed]);
    Goes(s, p, Reread + [Proceed, Proceed], With(s, p, WriteLock(mine, Some(r)), Some(LockFile(mine, false)), held, s.tokens + 2), Proceed,
         ReadReclaim(r, Return(mine)), Some(LockFile(mine, true)), held, s.tokens + 2, Reread + [Proceed, Proceed, Proceed]);
    Goes(s, p, Reread + [Proceed, Proceed, Proceed],
         With(s, p, ReadReclaim(r, Return(mine)), Some(LockFile(mine, true)), held, s.tokens + 2), Proceed,
         RemoveReclaim(r, Return(mine)), Some(LockFile(mine, true)), held, s.tokens + 2, Reread + [Proceed, Proceed, Proceed, Proceed]);
    Goes(s, p, Reread + [Proceed, Proceed, Proceed, Proceed],
         With(s, p, RemoveReclaim(r, Return(mine)), Some(LockFile(mine, true)), held, s.tokens + 2), Proceed,
         Holding(mine), Some(LockFile(mine, true)), None, s.tokens + 2, Reclaimed);
  }

  // ---------------------------------------------------------------- when something is in the way

  /** The process stops for good, and nothing else changes. */
  function Ended(s: State, p: Pid, pc: Pc): State
    requires p in s.procs
  {
    s.(procs := s.procs[p := Proc(false, pc)])
  }

  /** A release that finds another record, or no whole record, at the path of its lock fails and leaves the file. */
  lemma ForeignLockIsLeft(s: State, p: Pid, mine: Record)
    requires At(s, p, Holding(mine)) && s.lock != Some(LockFile(mine, true))
    ensures Reaches(s, p, [Proceed, Proceed], Ended(s, p, ReadOwn(mine)))
  {
    Start(s, p);
    Next(s, p, [], s, Proceed);
    var s1 := With(s, p, ReadOwn(mine), s.lock, s.reclaim, s.tokens);
    assert Step(s, Event(p, Proceed)) == s1;
    Next(s, p, [Proceed], s1, Proceed);
    assert Step(s1, Event(p, Proceed)).procs == Ended(s, p, ReadOwn(mine)).procs;
    assert [] + [Proceed] == [Proceed] && [Proceed] + [Proceed] == [Proceed, Proceed];
  }

  /** The same for the reclaim lock, whatever has come of the publication lock. */
  lemma ForeignReclaimIsLeft(s: State, p: Pid, r: Record, next: Then)
    requires At(s, p, ReadReclaim(r, next)) && s.reclaim != Some(LockFile(r, true))
    ensures Reaches(s, p, [Proceed], Ended(s, p, ReadReclaim(r, next)))
  {
    Start(s, p);
    Next(s, p, [], s, Proceed);
    assert Step(s, Event(p, Proceed)).procs == Ended(s, p, ReadReclaim(r, next)).procs;
    assert [] + [Proceed] == [Proceed];
  }

  /** And a release of a file that has gone between the reading and the removal fails. */
  lemma MissingFileFails(s: State, p: Pid, mine: Record, r: Record, next: Then)
    ensures At(s, p, RemoveOwn(mine)) && s.lock == None ==> Reaches(s, p, [Proceed], Ended(s, p, RemoveOwn(mine)))
    ensures At(s, p, RemoveReclaim(r, next)) && s.reclaim == None ==> Reaches(s, p, [Proceed], Ended(s, p, RemoveReclaim(r, next)))
  {
    Start(s, p);
    assert [] + [Proceed] == [Proceed];
    if At(s, p, RemoveOwn(mine)) && s.lock == None { Next(s, p, [], s, Proceed); }
    if At(s, p, RemoveReclaim(r, next)) && s.reclaim == None { Next(s, p, [], s, Proceed); }
  }

  /** A record goes into the file that was opened: where another file has taken its place, or none, nothing there changes. */
  lemma LostFileIsNotWritten(s: State, p: Pid, mine: Record)
    requires At(s, p, WriteLock(mine, None)) && s.lock != Some(LockFile(mine, false)) && s.lock != Some(LockFile(mine, true))
    ensures Reaches(s, p, [Proceed], With(s, p, Holding(mine), s.lock, s.reclaim, s.tokens))
  {
    Start(s, p);
    Next(s, p, [], s, Proceed);
    assert [] + [Proceed] == [Proceed];
  }

  /** A lock file whose record is not written yet is not judged: the process tries again. */
  lemma UnwrittenLockIsRetried(s: State, p: Pid, owner: Record)
    requires At(s, p, TryLock) && s.lock == Some(LockFile(owner, false))
    ensures Reaches(s, p, [Proceed, Proceed], s)
  {
    Start(s, p);
    Next(s, p, [], s, Proceed);
    var s1 := With(s, p, ReadOwner, s.lock, s.reclaim, s.tokens);
    assert Step(s, Event(p, Proceed)) == s1;
    Next(s, p, [Proceed], s1, Proceed);
    assert Step(s1, Event(p, Proceed)).procs == s.procs;
    assert [] + [Proceed] == [Proceed] && [Proceed] + [Proceed] == [Proceed, Proceed];
  }

  /** While another holds the reclaim lock, a process that wants it waits. */
  lemma HeldReclaimIsAwaited(s: State, p: Pid)
    requires At(s, p, TryReclaim) && s.reclaim.Some?
    ensures Reaches(s, p, [Proceed], s)
  {
    Start(s, p);
    Next(s, p, [], s, Proceed);
    assert [] + [Proceed] == [Proceed];
  }

  /** The state after the reclaim lock has been given back in two calls: what comes then, with the publication lock untouched. */
  function GivenBack(s: State, p: Pid, next: Then, r: Record): State
    requires p in s.procs
  {
    match next
    case Retry => With(s, p, TryLock, s.lock, None, s.tokens)
    case Return(mine) => With(s, p, Holding(mine), s.lock, None, s.tokens)
    case Throw => Ended(s, p, RemoveReclaim(r, Throw)).(reclaim := None)
  }

  /**
    Where a reclaimer leaves the lock alone, and what it does then.  It tries again if the lock
    is gone where it wanted to read it once more, if the owner runs, or if another has created a
    lock.  It fails if the lock is there and cannot be read, or gone where it was to be removed.
  */
  predicate TurnsBack(s: State, pc: Pc, c: Choice, next: Then) {
    || (pc.RereadFailed? && c == Proceed && next == if s.lock == None then Retry else Throw)
    || (pc.ReprobeOwner? && c == Says(true) && next == Retry)
    || (pc.RemoveStale? && c == Proceed && s.lock == None && next == Throw)
    || (pc.Relock? && c == Proceed && s.lock.Some? && next == Retry)
  }

  lemma TurningBack(s: State, p: Pid, r: Record, c: Choice, next: Then)
    requires Live(s, p) && TurnsBack(s, s.procs[p].pc, c, next) && s.procs[p].pc.reclaim == r
    ensures Enabled(s, Event(p, c)) && Step(s, Event(p, c)) == With(s, p, ReadReclaim(r, next), s.lock, s.reclaim, s.tokens)
  { }

  lemma GivingBack(s: State, p: Pid, r: Record, next: Then)
    requires At(s, p, ReadReclaim(r, next)) && s.reclaim == Some(LockFile(r, true))
    ensures var e, s2 := Event(p, Proceed), With(s, p, RemoveReclaim(r, next), s.lock, s.reclaim, s.tokens);
      Enabled(s, e) && Step(s, e) == s2 && Enabled(s2, e) && Step(s2, e) == GivenBack(s, p, next, r)
  {
    var s2 := With(s, p, RemoveReclaim(r, next), s.lock, s.reclaim, s.tokens);
    assert Step(s2, Event(p, Proceed)).procs == GivenBack(s, p, next, r).procs;
  }

  /** In each case it first gives the reclaim lock back. */
  lemma ReclaimerTurnsBack(s: State, p: Pid, r: Record, c: Choice, next: Then)
    requires Live(s, p) && TurnsBack(s, s.procs[p].pc, c, next) && s.procs[p].pc.reclaim == r && s.reclaim == Some(LockFile(r, true))
    ensures Reaches(s, p, [c, Proceed, Proceed], GivenBack(s, p, next, r))
  {
    var s1 := With(s, p, ReadReclaim(r, next), s.lock, s.reclaim, s.tokens);
    TurningBack(s, p, r, c, next);
    GivingBack(s1, p, r, next);
    assert GivenBack(s1, p, next, r).procs == GivenBack(s, p, next, r).procs;
    assert c != Says(false);
    hide TurnsBack, Step, Enabled, Reaches;
    ThreeSteps(s, p, c, s1, With(s1, p, RemoveReclaim(r, next), s1.lock, s1.reclaim, s1.tokens));
  }

  lemma ThreeSteps(s: State, p: Pid, c: Choice, s1: State, s2: State)
    requires c != Says(false)
    requires Enabled(s, Event(p, c)) && Step(s, Event(p, c)) == s1
    requires Enabled(s1, Event(p, Proceed)) && Step(s1, Event(p, Proceed)) == s2 && Enabled(s2, Event(p, Proceed))
    ensures Reaches(s, p, [c, Proceed, Proceed], Step(s2, Event(p, Proceed)))
  {
    Start(s, p);
    assert !Careless(s, Event(p, c)) && !Careless(s1, Event(p, Proceed)) && !Careless(s2, Event(p, Proceed));
    hide Step, Enabled, Reaches, Careless;
    Next(s, p, [], s, c);
    Next(s, p, [c], s1, Proceed);
    Next(s, p, [c, Proceed], s2, Proceed);
    assert [] + [c] == [c] && [c] + [Proceed] == [c, Proceed] && [c, Proceed] + [Proceed] == [c, Proceed, Proceed];
  }

  /** A second reading fails where there is no lock or no whole record in it. */
  lemma UnreadableLockIsNotJudged(s: State, p: Pid, r: Record)
    requires At(s, p, RereadOwner(r)) && forall owner :: s.lock != Some(LockFile(owner, true))
    ensures Reaches(s, p, [Proceed], With(s, p, RereadFailed(r), s.lock, s.reclaim, s.tokens))
  {
    if s.lock.Some? { assert s.lock != Some(LockFile(s.lock.value.owner, true)); }
    Start(s, p);
    Next(s, p, [], s, Proceed);
    assert [] + [Proceed] == [Proceed];
  }

  /** A write of a fresh record that fails takes the file away again, and nothing else. */
  lemma FailedWriteLeavesNoFile(s: State, p: Pid)
    requires Live(s, p) && (s.procs[p].pc.WriteLock? || s.procs[p].pc.WriteReclaim?)
    ensures var s', pc := Step(s, Event(p, WriteFails)), s.procs[p].pc;
      && s'.lock == (if pc.WriteLock? then None else s.lock) && s'.reclaim == (if pc.WriteReclaim? then None else s.reclaim)
      && s'.tokens == s.tokens && (Live(s', p) <==> pc.WriteLock? && pc.via.Some?)
      && (Live(s', p) ==> s'.procs[p].pc == ReadReclaim(pc.via.value, Throw))
      && forall q | q in s.procs && q != p :: q in s'.procs && s'.procs[q] == s.procs[q]
  { }
}
