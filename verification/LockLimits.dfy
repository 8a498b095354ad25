/**
  Exactly when the advisory lock of PublicationLock excludes: which probe under the
  reclaim lock, which re-read before it, and how many processes.
*/
module LockLimits {
  import opened Common
  import opened PublicationLock
  import R = LockRuns

  // ---------------------------------------------------------------- careful continuations

  ghost predicate Without(es: seq<Event>, still: set<Pid>) {
    forall e | e in es :: e.pid !in still
  }

  /** A careful run in which the processes of `still` do not move leads from s to t. */
  ghost predicate Leads(s: State, t: State, still: set<Pid>) {
    exists es: seq<Event> :: Runs(s, es) && CarefulRun(s, es) && Exec(s, es) == t && Without(es, still)
  }

  lemma LeadsNowhere(s: State, still: set<Pid>)
    ensures Leads(s, s, still)
  {
    assert Runs(s, []) && CarefulRun(s, []) && Exec(s, []) == s && Without([], still);
  }

  lemma LeadsOn(s: State, t: State, e: Event, still: set<Pid>)
    requires Leads(s, t, still) && Enabled(t, e) && !Careless(t, e) && e.pid !in still
    ensures Leads(s, Step(t, e), still)
  {
    var es: seq<Event> :| Runs(s, es) && CarefulRun(s, es) && Exec(s, es) == t && Without(es, still);
    R.CarefulAppend(s, es, e);
    assert Without(es + [e], still);
  }

  lemma LeadsKeepsInv(s: State, t: State, still: set<Pid>)
    requires Inv(s) && Leads(s, t, still)
    ensures Inv(t)
  {
    var es: seq<Event> :| Runs(s, es) && CarefulRun(s, es) && Exec(s, es) == t && Without(es, still);
    CarefulRunsKeepInv(s, es);
  }

  // ---------------------------------------------------------------- the probe

  function Dead(p: Pid): Event { Event(p, Says(false)) }

  /** Some careful continuation lets two running processes in. */
  ghost predicate Breakable(s: State) {
    exists t :: Leads(s, t, {}) && !Exclusion(t)
  }

  /** A process that may create the lock gets to the point of trying, whatever it was about to do. */
  lemma ReachesTry(s: State, t: State, q: Pid, still: set<Pid>) returns (u: State)
    requires Leads(s, t, still) && Live(t, q) && Contends(t.procs[q].pc) && q !in still
    ensures Leads(s, u, still) && u == Goto(t, q, TryLock)
  {
    u := t;
    if u.procs[q].pc.Outside? { LeadsOn(s, u, Event(q, Proceed), still); u := Step(u, Event(q, Proceed)); }
    if u.procs[q].pc.ReadOwner? { LeadsOn(s, u, Event(q, Proceed), still); u := Step(u, Event(q, Proceed)); }
    if u.procs[q].pc.ProbeOwner? { LeadsOn(s, u, Event(q, Says(true)), still); u := Step(u, Event(q, Says(true))); }
    assert u.procs == t.procs[q := Proc(true, TryLock)];
  }

  /** It creates a free lock and is in. */
  lemma ContenderEnters(s: State, t: State, q: Pid, still: set<Pid>) returns (u: State)
    requires Leads(s, t, still) && Live(t, q) && Contends(t.procs[q].pc) && q !in still && t.lock == None
    ensures Leads(s, u, still)
    ensures var mine := Record(q, t.tokens);
      u == Goto(t, q, Holding(mine)).(lock := Some(LockFile(mine, true)), tokens := t.tokens + 1)
  {
    var mine := Record(q, t.tokens);
    u := ReachesTry(s, t, q, still);
    LeadsOn(s, u, Event(q, Proceed), still);
    u := Step(u, Event(q, Proceed));
    LeadsOn(s, u, Event(q, Proceed), still);
    u := Step(u, Event(q, Proceed));
    assert u.procs == t.procs[q := Proc(true, Holding(mine))];
  }

  /** The reclaimer deletes whatever lock is there, creates its own and is in. */
  lemma ReclaimerEnters(s: State, t: State, p: Pid, r: Record, owner: Record) returns (u: State)
    requires Leads(s, t, {}) && At(t, p, RemoveStale(r, owner)) && t.lock.Some? && t.reclaim == Some(LockFile(r, true))
    ensures Leads(s, u, {})
    ensures var mine := Record(p, t.tokens);
      u == Goto(t, p, Holding(mine)).(lock := Some(LockFile(mine, true)), reclaim := None, tokens := t.tokens + 1)
  {
    hide Leads;
    var mine := Record(p, t.tokens);
    u := t;
    LeadsOn(s, u, Event(p, Proceed), {});
    u := Step(u, Event(p, Proceed));     // rmSync(lock)
    LeadsOn(s, u, Event(p, Proceed), {});
    u := Step(u, Event(p, Proceed));     // openSync(lock, 'wx')
    LeadsOn(s, u, Event(p, Proceed), {});
    u := Step(u, Event(p, Proceed));     // write the record
    LeadsOn(s, u, Event(p, Proceed), {});
    u := Step(u, Event(p, Proceed));     // read the reclaim record
    LeadsOn(s, u, Event(p, Proceed), {});
    u := Step(u, Event(p, Proceed));     // rmSync(reclaim)
    assert u.procs == t.procs[p := Proc(true, Holding(mine))];
  }

  /** After a careless probe somebody else is in, or comes in, and the reclaimer follows. */
  lemma CarelessBreaks(s: State, p: Pid)
    requires Inv(s) && Enabled(s, Dead(p)) && Careless(s, Dead(p))
    ensures Breakable(Step(s, Dead(p)))
  {
    var t := Step(s, Dead(p));
    var r, owner := s.procs[p].pc.reclaim, s.procs[p].pc.owner;
    assert s.reclaim == OwnsReclaim(s.procs[p].pc);
    LeadsNowhere(t, {});
    var q: Pid, u: State;
    if s.lock.Some? {
      q, u := s.lock.value.owner.pid, t;
      assert Owns(s.procs[q].pc) == s.lock && q != p;
      if t.procs[q].pc.WriteLock? {
        LeadsOn(t, t, Event(q, Proceed), {});
        u := Step(t, Event(q, Proceed));
      }
    } else {
      q :| q in s.procs && q != p && Live(s, q) && Contends(s.procs[q].pc);
      u := ContenderEnters(t, t, q, {});
    }
    assert InSection(u, q) && At(u, p, RemoveStale(r, owner)) && u.lock.Some? && u.reclaim == Some(LockFile(r, true));
    var v := ReclaimerEnters(t, u, p, r, owner);
    assert InSection(v, p) && InSection(v, q);
  }

  /**
    Exactly which probe breaks the lock.  A reclaimer that is told the owner it re-read is
    dead can end up inside together with another running process exactly when the lock file
    at the path is by then a running process's, or is gone while another may still create one.
  */
  lemma ProbeBreaksIff(s: State, p: Pid)
    requires Inv(s) && Enabled(s, Dead(p)) && s.procs[p].pc.ReprobeOwner?
    ensures Breakable(Step(s, Dead(p))) <==> Careless(s, Dead(p))
  {
    if Careless(s, Dead(p)) {
      CarelessBreaks(s, p);
    } else if Breakable(Step(s, Dead(p))) {
      StepKeepsInv(s, Dead(p));
      var t :| Leads(Step(s, Dead(p)), t, {}) && !Exclusion(t);
      LeadsKeepsInv(Step(s, Dead(p)), t, {});
      InvGivesExclusion(t);
    }
  }

  // ---------------------------------------------------------------- the re-read

  /** While p waits for its answer, the others can bring about a state in which that answer breaks the lock. */
  ghost predicate LeadsToBreak(s: State, p: Pid) {
    exists t :: Leads(s, t, {p}) && Enabled(t, Dead(p)) && Breakable(Step(t, Dead(p)))
  }

  /** A running process other than p and the owner may create the lock. */
  predicate ThirdContends(s: State, p: Pid, owner: Pid) {
    exists q | q in s.procs :: q != p && q != owner && Live(s, q) && Contends(s.procs[q].pc)
  }

  /** The owner releases the lock and ends. */
  lemma OwnerLeaves(s: State, t: State, d: Pid, still: set<Pid>) returns (u: State)
    requires Leads(s, t, still) && InSection(t, d) && t.lock == Owns(t.procs[d].pc) && d !in still
    ensures Leads(s, u, still) && u == t.(lock := None, procs := t.procs[d := Proc(false, Outside)])
  {
    hide Leads;
    u := t;
    if u.procs[d].pc.Holding? { LeadsOn(s, u, Event(d, Proceed), still); u := Step(u, Event(d, Proceed)); }
    if u.procs[d].pc.ReadOwn? { LeadsOn(s, u, Event(d, Proceed), still); u := Step(u, Event(d, Proceed)); }
    LeadsOn(s, u, Event(d, Proceed), still);
    u := Step(u, Event(d, Proceed));
    LeadsOn(s, u, Event(d, Crash), still);
    u := Step(u, Event(d, Crash));
    assert u.procs == t.procs[d := Proc(false, Outside)];
  }

  /** What stays true while p waits and its probe cannot break anything. */
  ghost predicate Harmless(s: State, p: Pid, r: Record, owner: Record) {
    && Inv(s) && At(s, p, ReprobeOwner(r, owner))
    && ((s.lock == Some(LockFile(owner, true)) && !Live(s, owner.pid))
        || (!ThirdContends(s, p, owner.pid) && (s.lock.Some? ==> s.lock.value.owner.pid == owner.pid)))
  }

  lemma HarmlessStep(s: State, p: Pid, r: Record, owner: Record, e: Event)
    requires Harmless(s, p, r, owner) && Enabled(s, e) && !Careless(s, e) && e.pid != p
    ensures Harmless(Step(s, e), p, r, owner)
  {
    StepKeepsInv(s, e);
    var s', x := Step(s, e), e.pid;
    assert s.reclaim == Some(LockFile(r, true));
    forall q | q in s'.procs && q != p && q != owner.pid && Live(s', q) && Contends(s'.procs[q].pc)
      ensures q in s.procs && Live(s, q) && (Contends(s.procs[q].pc) || (s.lock == Owns(s.procs[q].pc) && s.lock.Some?))
    {
      if q == x { ContendersCome(s, e); }
    }
    hide Inv;
  }

  /** A process comes to contend from contending, from its own lock, or from the reclaim lock. */
  lemma ContendersCome(s: State, e: Event)
    requires Inv(s) && Enabled(s, e) && Live(Step(s, e), e.pid) && Contends(Step(s, e).procs[e.pid].pc)
    ensures var pc := s.procs[e.pid].pc; Contends(pc) || (Owns(pc).Some? && s.lock == Owns(pc)) || OwnsReclaim(pc).Some?
  { }

  lemma {:induction false} HarmlessRun(s: State, p: Pid, r: Record, owner: Record, es: seq<Event>)
    requires Harmless(s, p, r, owner) && Runs(s, es) && CarefulRun(s, es) && Without(es, {p})
    ensures Harmless(Exec(s, es), p, r, owner)
    decreases |es|
  {
    hide Harmless, Careless;
    if es != [] {
      assert es[0] in es && Without(es[1..], {p});
      HarmlessStep(s, p, r, owner, es[0]);
      HarmlessRun(Step(s, es[0]), p, r, owner, es[1..]);
    }
  }

  lemma HarmlessIsCareful(s: State, p: Pid, r: Record, owner: Record)
    requires Harmless(s, p, r, owner) && Enabled(s, Dead(p))
    ensures !Careless(s, Dead(p))
  { }

  lemma HarmlessStart(s: State, p: Pid, owner: Record)
    requires Inv(s) && Live(s, p) && s.procs[p].pc.RereadOwner? && s.lock == Some(LockFile(owner, true))
    requires !(Live(s, owner.pid) && ThirdContends(s, p, owner.pid))
    ensures Harmless(Step(s, Event(p, Proceed)), p, s.procs[p].pc.reclaim, owner)
  {
    StepKeepsInv(s, Event(p, Proceed));
    hide Inv;
  }

  /** Once a live owner has left, its lock is gone and a third process may take it: the pending probe is careless. */
  lemma OwnerCanLeave(s: State, p: Pid, owner: Record) returns (t: State)
    requires Inv(s) && Live(s, p) && s.procs[p].pc.RereadOwner? && s.lock == Some(LockFile(owner, true))
    requires Live(s, owner.pid) && ThirdContends(s, p, owner.pid)
    ensures Leads(Step(s, Event(p, Proceed)), t, {p}) && Enabled(t, Dead(p)) && Careless(t, Dead(p))
  {
    var s', d := Step(s, Event(p, Proceed)), owner.pid;
    assert Owns(s.procs[d].pc) == s.lock && s.reclaim == OwnsReclaim(s.procs[p].pc);
    assert s'.procs[d] == s.procs[d] && InSection(s', d);
    LeadsNowhere(s', {p});
    t := OwnerLeaves(s', s', d, {p});
    var q :| q in s.procs && q != p && q != d && Live(s, q) && Contends(s.procs[q].pc);
    assert t.procs[q] == s.procs[q] && t.procs[p] == s'.procs[p];
  }

  /**
    Exactly which re-read under the reclaim lock is dangerous: one that finds a running
    owner while a third process may still create the lock.  Only then can the others bring
    about a state in which the answer "dead" lets two running processes in.
  */
  lemma RereadBreaksIff(s: State, p: Pid, owner: Record)
    requires Inv(s) && Live(s, p) && s.procs[p].pc.RereadOwner? && s.lock == Some(LockFile(owner, true))
    ensures LeadsToBreak(Step(s, Event(p, Proceed)), p) <==> Live(s, owner.pid) && ThirdContends(s, p, owner.pid)
  {
    var s' := Step(s, Event(p, Proceed));
    StepKeepsInv(s, Event(p, Proceed));
    if Live(s, owner.pid) && ThirdContends(s, p, owner.pid) {
      var t := OwnerCanLeave(s, p, owner);
      LeadsKeepsInv(s', t, {p});
      CarelessBreaks(t, p);
    } else {
      HarmlessStart(s, p, owner);
      forall t | Leads(s', t, {p}) && Enabled(t, Dead(p)) ensures !Breakable(Step(t, Dead(p))) {
        var es: seq<Event> :| Runs(s', es) && CarefulRun(s', es) && Exec(s', es) == t && Without(es, {p});
        HarmlessRun(s', p, s.procs[p].pc.reclaim, owner, es);
        HarmlessIsCareful(t, p, s.procs[p].pc.reclaim, owner);
        LeadsKeepsInv(s', t, {p});
        ProbeBreaksIff(t, p);
      }
    }
  }

  // ---------------------------------------------------------------- how many processes

  /** Some run leads from s to t. */
  ghost predicate Arrives(s: State, t: State) {
    exists es: seq<Event> :: Runs(s, es) && Exec(s, es) == t
  }

  lemma {:induction false} RunsJoin(s: State, es: seq<Event>, fs: seq<Event>)
    requires Runs(s, es) && Runs(Exec(s, es), fs)
    ensures Runs(s, es + fs) && Exec(s, es + fs) == Exec(Exec(s, es), fs)
    decreases |es|
  {
    if es == [] {
      assert es + fs == fs;
    } else {
      RunsJoin(Step(s, es[0]), es[1..], fs);
      assert (es + fs)[0] == es[0] && (es + fs)[1..] == es[1..] + fs;
    }
  }

  lemma ArrivesJoin(s: State, t: State, u: State)
    requires Arrives(s, t) && Arrives(t, u)
    ensures Arrives(s, u)
  {
    var es: seq<Event> :| Runs(s, es) && Exec(s, es) == t;
    var fs: seq<Event> :| Runs(t, fs) && Exec(t, fs) == u;
    RunsJoin(s, es, fs);
  }

  lemma LeadsArrives(s: State, t: State, still: set<Pid>)
    requires Leads(s, t, still)
    ensures Arrives(s, t)
  { }

  lemma StepArrives(s: State, e: Event)
    requires Enabled(s, e)
    ensures Arrives(s, Step(s, e))
  {
    var one := [e];
    assert one[0] == e && one[1..] == [];
    hide Step, Contended;
    assert Runs(Step(s, e), []) && Exec(Step(s, e), []) == Step(s, e);
    assert Runs(s, one) && Exec(s, one) == Step(s, e);
  }

  lemma AcquiresByGaining(s: State, t: State, p: Pid, choices: seq<Choice>, u: State)
    requires Acquires(s, t) && R.Gains(t, p, choices, u)
    ensures Acquires(s, u)
  {
    var es: seq<Event> :| Runs(s, es) && CarefulRun(s, es) && R.Acquiring(s, es) && Exec(s, es) == t;
    var fs := R.Alone(p, choices);
    RunsJoin(s, es, fs);
    CarefulJoin(s, es, fs);
  }

  lemma {:induction false} CarefulJoin(s: State, es: seq<Event>, fs: seq<Event>)
    requires Runs(s, es) && CarefulRun(s, es) && Runs(Exec(s, es), fs) && CarefulRun(Exec(s, es), fs) && Runs(s, es + fs)
    requires R.Acquiring(s, es) && R.Acquiring(Exec(s, es), fs)
    ensures CarefulRun(s, es + fs) && R.Acquiring(s, es + fs)
    decreases |es|
  {
    if es == [] {
      assert es + fs == fs;
    } else {
      assert (es + fs)[0] == es[0] && (es + fs)[1..] == es[1..] + fs;
      CarefulJoin(Step(s, es[0]), es[1..], fs);
    }
  }

  /** A careful run in which nobody goes on from holding the lock. */
  ghost predicate Acquires(s: State, t: State) {
    exists es: seq<Event> :: Runs(s, es) && CarefulRun(s, es) && R.Acquiring(s, es) && Exec(s, es) == t
  }

  lemma AcquiresNothing(s: State)
    ensures Acquires(s, s)
  {
    assert Runs(s, []) && CarefulRun(s, []) && R.Acquiring(s, []) && Exec(s, []) == s;
  }

  lemma AcquiresOn(s: State, t: State, e: Event)
    requires Acquires(s, t) && Enabled(t, e) && !Careless(t, e) && !(t.procs[e.pid].pc.Holding? && e.choice == Proceed)
    ensures Acquires(s, Step(t, e))
  {
    var es: seq<Event> :| Runs(s, es) && CarefulRun(s, es) && R.Acquiring(s, es) && Exec(s, es) == t;
    R.CarefulAppend(s, es, e);
    R.AcquiringAppend(s, es, e);
  }

  lemma AcquiresLeads(s: State, t: State)
    requires Acquires(s, t)
    ensures Leads(s, t, {})
  {
    var es: seq<Event> :| Runs(s, es) && CarefulRun(s, es) && R.Acquiring(s, es) && Exec(s, es) == t;
    assert Without(es, {});
  }

  /** Everybody outside, and one lock left over from a process that is gone. */
  function StaleStart(ps: set<Pid>, gone: Pid): State {
    State(Some(LockFile(Record(gone, 0), true)), None, map p | p in ps :: Proc(true, Outside), 0)
  }

  /**
    a and b see the same dead owner; b reclaims and holds the lock; a takes the reclaim
    lock and is about to re-read it.
  */
  lemma RereadOfRunningOwner(ps: set<Pid>, gone: Pid, a: Pid, b: Pid) returns (t: State)
    requires gone !in ps && a in ps && b in ps && a != b
    ensures Acquires(StaleStart(ps, gone), t)
    ensures t.procs == map p | p in ps ::
      if p == a then Proc(true, RereadOwner(Record(a, 2))) else if p == b then Proc(true, Holding(Record(b, 1))) else Proc(true, Outside)
    ensures t.lock == Some(LockFile(Record(b, 1), true)) && t.reclaim == Some(LockFile(Record(a, 2), true)) && t.tokens == 3
  {
    var s, stale := StaleStart(ps, gone), Record(gone, 0);
    AcquiresNothing(s);
    t := SeesDeadOwner(s, s, a, stale);
    AcquiresOn(s, t, Event(b, Proceed));
    t := Step(t, Event(b, Proceed));
    R.StaleLockIsReclaimed(t, b, stale);
    var u := R.With(t, b, Holding(Record(b, 1)), Some(LockFile(Record(b, 1), true)), None, 2);
    AcquiresByGaining(s, t, b, R.Reclaimed, u);
    AcquiresOn(s, u, Event(a, Proceed));
    t := Step(u, Event(a, Proceed));
    AcquiresOn(s, t, Event(a, Proceed));
    t := Step(t, Event(a, Proceed));
  }

  lemma SeesDeadOwner(s: State, t: State, p: Pid, owner: Record) returns (u: State)
    requires Acquires(s, t) && At(t, p, Outside) && t.lock == Some(LockFile(owner, true)) && owner.pid !in t.procs
    ensures Acquires(s, u) && u == Goto(t, p, TryReclaim)
  {
    AcquiresOn(s, t, Event(p, Proceed));
    u := Step(t, Event(p, Proceed));
    AcquiresOn(s, u, Event(p, Proceed));
    u := Step(u, Event(p, Proceed));
    AcquiresOn(s, u, Event(p, Proceed));
    u := Step(u, Event(p, Proceed));
    AcquiresOn(s, u, Dead(p));
    u := Step(u, Dead(p));
    assert u.procs == t.procs[p := Proc(true, TryReclaim)];
  }

  lemma {:induction false} Fresh(ps: set<Pid>) returns (p: Pid)
    ensures p !in ps && forall q | q in ps :: q < p
    decreases |ps|
  {
    p := 0;
    if ps != {} {
      var q :| q in ps;
      var r := Fresh(ps - {q});
      assert forall x | x in ps :: x == q || x in ps - {q};
      p := if r <= q then q + 1 else r;
    }
  }

  lemma ThreeOf(ps: set<Pid>) returns (a: Pid, b: Pid, c: Pid)
    requires |ps| >= 3
    ensures a in ps && b in ps && c in ps && a != b && a != c && b != c
  {
    a :| a in ps;
    assert |ps - {a}| == |ps| - 1;
    b :| b in ps - {a};
    assert |ps - {a} - {b}| == |ps| - 2;
    c :| c in ps - {a} - {b};
  }

  lemma RunOf(s: State, t: State) returns (es: seq<Event>)
    requires Arrives(s, t)
    ensures Runs(s, es) && Exec(s, es) == t
  {
    es :| Runs(s, es) && Exec(s, es) == t;
  }

  /** With three processes, a run from one stale lock ends with two of them inside. */
  lemma ExclusionCanFail(ps: set<Pid>)
    requires |ps| >= 3
    ensures exists s: State, es: seq<Event> :: Init(s) && s.procs.Keys == ps && Runs(s, es) && !Exclusion(Exec(s, es))
  {
    hide Exclusion, Inv, Leads, Arrives, Acquires;
    var a, b, c := ThreeOf(ps);
    var gone := Fresh(ps);
    var s := StaleStart(ps, gone);
    var t := RereadOfRunningOwner(ps, gone, a, b);
    AcquiresLeads(s, t);
    InitGivesInv(s);
    LeadsKeepsInv(s, t, {});
    assert ThirdContends(t, a, b) by { assert c in t.procs && Contends(t.procs[c].pc); }
    RereadBreaksIff(t, a, Record(b, 1));
    var t' := Step(t, Event(a, Proceed));
    var u :| Leads(t', u, {a}) && Enabled(u, Dead(a)) && Breakable(Step(u, Dead(a)));
    var v :| Leads(Step(u, Dead(a)), v, {}) && !Exclusion(v);
    LeadsArrives(s, t, {});
    StepArrives(t, Event(a, Proceed));
    LeadsArrives(t', u, {a});
    StepArrives(u, Dead(a));
    LeadsArrives(Step(u, Dead(a)), v, {});
    ArrivesJoin(s, t, t');
    ArrivesJoin(s, t', u);
    ArrivesJoin(s, u, Step(u, Dead(a)));
    ArrivesJoin(s, Step(u, Dead(a)), v);
    var es := RunOf(s, v);
    assert Init(s) && s.procs.Keys == ps && Runs(s, es) && !Exclusion(Exec(s, es));
  }

  /** Every run of every start excludes. */
  ghost predicate AlwaysExcludes(ps: set<Pid>) {
    forall s: State, es: seq<Event> | Init(s) && s.procs.Keys == ps && Runs(s, es) :: Exclusion(Exec(s, es))
  }

  /** The lock excludes in every run, with no assumption about timing, exactly when at most two processes use it. */
  lemma ExclusionHoldsIffAtMostTwo(ps: set<Pid>)
    ensures AlwaysExcludes(ps) <==> |ps| <= 2
  {
    if |ps| <= 2 {
      forall s: State, es: seq<Event> | Init(s) && s.procs.Keys == ps && Runs(s, es) ensures Exclusion(Exec(s, es)) {
        InitGivesInv(s);
        assert |s.procs| == |s.procs.Keys|;
        TwoAreCareful(s, es);
        CarefulRunsKeepInv(s, es);
        InvGivesExclusion(Exec(s, es));
      }
    } else {
      ExclusionCanFail(ps);
    }
  }
}
