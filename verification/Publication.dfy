/**
  Whole runs of the baseline protocol: any number of processes check the reviewed
  baseline under the publication lock, let it go, work for a long time, take the
  lock again and publish; each may fail or stop for ever at any call.
*/
module Publication {
  import L = PublicationLock
  import S = BaselineStore

  type Pid = L.Pid

  datatype System = System(locks: L.State, store: S.Store, works: map<Pid, S.Work>)

  datatype Act =
    | Locking(event: L.Event)
    | Working(pid: Pid, move: S.Move)

  // A process takes the lock when its next round is ready, and lets it go when it leaves.
  predicate Wants(w: S.Work, pc: L.Pc, c: L.Choice) {
    && (pc.Outside? && c == L.Proceed ==> w.Ready?)
    && (pc.Holding? && c == L.Proceed ==> w.Leaving?)
  }

  predicate Enabled(s: System, a: Act) {
    match a
    case Locking(e) =>
      && L.Enabled(s.locks, e) && e.pid in s.works
      && Wants(s.works[e.pid], s.locks.procs[e.pid].pc, e.choice)
    case Working(p, m) =>
      && L.Live(s.locks, p) && p in s.works && S.Enabled(s.store, s.works[p], m)
      && (if s.works[p].Leaving? || s.works[p].Reviewed? then s.locks.procs[p].pc.Outside? else s.locks.procs[p].pc.Holding?)
  }

  function Step(s: System, a: Act): System
    requires Enabled(s, a)
  {
    match a
    case Locking(e) => s.(locks := L.Step(s.locks, e))
    case Working(p, m) =>
      var (store, work) := S.Step(s.store, s.works[p], m);
      s.(store := store, works := s.works[p := work])
  }

  predicate Careless(s: System, a: Act) {
    a.Locking? && L.Careless(s.locks, a.event)
  }

  predicate Init(s: System) {
    && L.Init(s.locks) && s.works.Keys == s.locks.procs.Keys
    && (forall p | p in s.works :: s.works[p] == S.Ready(S.Reading))
    && |s.store.commits| == 1
    && s.store.disk.root == S.Present(s.store.commits[0].tree)
    && s.store.disk.previous == S.Absent && s.store.disk.journal == S.NoJournal
  }

  predicate Runs(s: System, acts: seq<Act>)
    decreases |acts|
  {
    acts == [] || (Enabled(s, acts[0]) && Runs(Step(s, acts[0]), acts[1..]))
  }

  function Exec(s: System, acts: seq<Act>): System
    requires Runs(s, acts)
    decreases |acts|
  {
    if acts == [] then s else Exec(Step(s, acts[0]), acts[1..])
  }

  predicate CarefulRun(s: System, acts: seq<Act>)
    requires Runs(s, acts)
    decreases |acts|
  {
    acts == [] || (!Careless(s, acts[0]) && CarefulRun(Step(s, acts[0]), acts[1..]))
  }

  // ---------------------------------------------------------------- invariant

  ghost predicate WorksOk(s: System) {
    s.store.commits != [] && forall p | L.Live(s.locks, p) ::
      && p in s.works
      && S.WorkOk(s.store, s.works[p])
      && (S.Critical(s.works[p]) ==> s.locks.procs[p].pc.Holding?)
      && Phased(s.works[p], s.locks.procs[p].pc)
  }

  /** How far a process is with its round at each point of the lock. */
  predicate Phased(w: S.Work, pc: L.Pc) {
    match pc
    case Outside => true
    case Holding(_) => !w.Reviewed? && !w.Stopped?
    case ReadOwn(_) => w.Leaving?
    case RemoveOwn(_) => w.Leaving?
    case _ => w.Ready?
  }

  ghost predicate Inv(s: System) {
    && L.Inv(s.locks)
    && S.DiskInv(s.store) && S.Chain(s.store.commits)
    && WorksOk(s)
  }

  lemma InitGivesInv(s: System)
    requires Init(s)
    ensures Inv(s)
  {}

  /** Work outside the section speaks only of trees that were committed, so other processes cannot spoil it. */
  lemma OutsideWorkSurvives(st: S.Store, st': S.Store, w: S.Work)
    requires st.commits != [] && S.WorkOk(st, w) && !S.Critical(w)
    requires st'.commits == st.commits || (st'.commits != [] && st'.commits[..|st'.commits| - 1] == st.commits)
    ensures st'.commits != [] && S.WorkOk(st', w)
  {
    if st'.commits != st.commits {
      var c := st'.commits[|st'.commits| - 1];
      assert st'.commits == st.commits + [c];
      forall t | S.Known(st.commits, t) ensures S.Known(st'.commits, t) { S.KnownGrows(st.commits, c, t); }
    }
  }

  lemma WorkingKeepsInv(s: System, p: Pid, m: S.Move)
    requires Inv(s) && Enabled(s, Working(p, m))
    ensures Inv(Step(s, Working(p, m)))
  {
    var s' := Step(s, Working(p, m));
    S.StepKeepsInv(s.store, s.works[p], m);
    StaysInSection(s.store, s.works[p], m);
    forall q | L.Live(s'.locks, q) && q != p ensures S.WorkOk(s'.store, s'.works[q]) {
      OtherWorkSurvives(s, p, m, q);
    }
    hide L.Inv, S.WorkOk, S.DiskInv, S.Chain, S.Step, S.Enabled;
  }

  lemma OtherWorkSurvives(s: System, p: Pid, m: S.Move, q: Pid)
    requires Inv(s) && Enabled(s, Working(p, m)) && L.Live(s.locks, q) && q != p
    ensures q in s.works && Step(s, Working(p, m)).store.commits != [] && S.WorkOk(Step(s, Working(p, m)).store, s.works[q])
  {
    S.StepCommits(s.store, s.works[p], m);
    if S.Critical(s.works[q]) {
      L.InvGivesExclusion(s.locks);
      OutsideStoreMoves(s.store, s.works[p], m);
    } else {
      OutsideWorkSurvives(s.store, Step(s, Working(p, m)).store, s.works[q]);
    }
    hide S.WorkOk, S.Call;
  }

  lemma OutsideStoreMoves(st: S.Store, w: S.Work, m: S.Move)
    requires S.Enabled(st, w, m) && (w.Leaving? || w.Reviewed?)
    ensures S.Step(st, w, m).0 == st
  {}

  lemma StaysInSection(st: S.Store, w: S.Work, m: S.Move)
    requires st.commits != [] && S.WorkOk(st, w) && S.Enabled(st, w, m)
    ensures w.Leaving? || w.Reviewed? ==> !S.Critical(S.Step(st, w, m).1)
  {}

  /** The lock moves on only as the round allows. */
  lemma PhaseFollows(l: L.State, e: L.Event, w: S.Work)
    requires L.Enabled(l, e) && Wants(w, l.procs[e.pid].pc, e.choice) && Phased(w, l.procs[e.pid].pc)
    requires S.Critical(w) ==> l.procs[e.pid].pc.Holding?
    requires L.Live(L.Step(l, e), e.pid)
    ensures var pc := L.Step(l, e).procs[e.pid].pc; Phased(w, pc) && (S.Critical(w) ==> pc.Holding?)
  {}

  lemma OthersStand(l: L.State, e: L.Event, p: Pid)
    requires L.Enabled(l, e) && L.Live(L.Step(l, e), p)
    ensures L.Live(l, p) && (p != e.pid ==> L.Step(l, e).procs[p] == l.procs[p])
  {}

  lemma LockingKeepsWorks(s: System, e: L.Event)
    requires WorksOk(s) && Enabled(s, Locking(e))
    ensures WorksOk(Step(s, Locking(e)))
  {
    var s' := Step(s, Locking(e));
    forall p | L.Live(s'.locks, p)
      ensures p in s'.works && S.WorkOk(s'.store, s'.works[p])
      ensures (S.Critical(s'.works[p]) ==> s'.locks.procs[p].pc.Holding?) && Phased(s'.works[p], s'.locks.procs[p].pc)
    {
      OthersStand(s.locks, e, p);
      if p == e.pid { PhaseFollows(s.locks, e, s.works[p]); }
      hide S.WorkOk, S.Critical, Phased, L.Step;
    }
  }

  lemma StepKeepsInv(s: System, a: Act)
    requires Inv(s) && Enabled(s, a) && !Careless(s, a)
    ensures Inv(Step(s, a))
  {
    match a
    case Working(p, m) => WorkingKeepsInv(s, p, m);
    case Locking(e) =>
      L.StepKeepsInv(s.locks, e);
      LockingKeepsWorks(s, e);
      hide L.Inv, L.Step, WorksOk;
  }

  lemma {:induction false} CarefulRunsKeepInv(s: System, acts: seq<Act>)
    requires Inv(s) && Runs(s, acts) && CarefulRun(s, acts)
    ensures Inv(Exec(s, acts))
    decreases |acts|
  {
    if acts != [] {
      StepKeepsInv(s, acts[0]);
      CarefulRunsKeepInv(Step(s, acts[0]), acts[1..]);
    }
  }

  // ---------------------------------------------------------------- theorems

  /** At most one live process is at work on the disk. */
  ghost predicate OneWorks(t: System) {
    forall p, q | p in t.works && q in t.works && L.Live(t.locks, p) && L.Live(t.locks, q) ::
      S.Critical(t.works[p]) && S.Critical(t.works[q]) ==> p == q
  }

  /**
    The last committed tree is whole on the disk: at `root`, or at `previous` while `root`
    is missing and the journal is complete.  A damaged `previous` exists only beside the
    complete new `root`.
  */
  ghost predicate LastCommitKept(st: S.Store) {
    && st.commits != []
    && var d, last := st.disk, S.Last(st.commits);
    && (d.root == S.Present(last) || (d.root == S.Absent && d.previous == S.Present(last) && d.journal == S.Valid))
    && (d.previous.Present? && d.previous.files != last ==>
          d.root == S.Present(last) && d.journal == S.Valid
          && |st.commits| > 1
          && forall n | n in d.previous.files ::
               var before := st.commits[|st.commits| - 2].tree; n in before && d.previous.files[n] == before[n])
    && (d.journal == S.Torn ==> d.root == S.Present(last) && d.previous == S.Absent)
  }

  /**
    A recovery that completes leaves exactly the last committed tree at `root`, no
    `previous` and no journal; it has also removed `staged` when it found a journal.
    "Both copies are missing" is never observed.
  */
  ghost predicate RecoveriesRight(t: System) {
    forall p | L.Live(t.locks, p) && p in t.works ::
      var w, d := t.works[p], t.store.disk;
      && t.store.commits != []
      && (w.Recovered? ==> d.root == S.Present(S.Last(t.store.commits)) && d.previous == S.Absent && d.journal == S.NoJournal)
      && (w.Recovered? && w.hadJournal ==> d.staged == S.Absent)
      && (w.ProbeStaged? ==> w.rootExists || w.previousExists)
  }

  /** A check that completes hands out exactly the last committed tree. */
  ghost predicate ReadersRight(t: System) {
    forall p | Enabled(t, Working(p, S.Proceed)) && t.works[p].Recovered? && t.works[p].round.Reading? ::
      t.store.commits != [] &&
      Step(t, Working(p, S.Proceed)).works[p] ==
        S.Leaving(if "manifest.json" in S.Last(t.store.commits) then S.Reviewed(S.Last(t.store.commits)) else S.Stopped)
  }

  lemma InvGivesAll(t: System)
    requires Inv(t)
    ensures OneWorks(t) && LastCommitKept(t.store) && RecoveriesRight(t) && ReadersRight(t)
  {
    L.InvGivesExclusion(t.locks);
    hide L.Inv, S.Chain, S.Known, S.SubTree, S.SameManifest, S.SameReadme;
  }

  lemma OneWorker(s: System, acts: seq<Act>)
    requires Init(s) && Runs(s, acts) && CarefulRun(s, acts)
    ensures OneWorks(Exec(s, acts))
  {
    InitGivesInv(s);
    CarefulRunsKeepInv(s, acts);
    InvGivesAll(Exec(s, acts));
  }

  /** Crash atomicity, however often processes failed or stopped before. */
  lemma LastCommitSurvives(s: System, acts: seq<Act>)
    requires Init(s) && Runs(s, acts) && CarefulRun(s, acts)
    ensures LastCommitKept(Exec(s, acts).store)
  {
    InitGivesInv(s);
    CarefulRunsKeepInv(s, acts);
    InvGivesAll(Exec(s, acts));
  }

  lemma RecoveryOutcome(s: System, acts: seq<Act>)
    requires Init(s) && Runs(s, acts) && CarefulRun(s, acts)
    ensures RecoveriesRight(Exec(s, acts))
  {
    InitGivesInv(s);
    CarefulRunsKeepInv(s, acts);
    InvGivesAll(Exec(s, acts));
  }

  lemma ChainOf(t: System)
    requires Inv(t)
    ensures S.Chain(t.store.commits)
  {
    hide L.Inv, S.Chain;
  }

  lemma ChainAt(cs: seq<S.Commit>, i: nat)
    requires S.Chain(cs) && 1 <= i < |cs|
    ensures "manifest.json" in cs[i].base && "manifest.json" in cs[i - 1].tree
    ensures cs[i].base["manifest.json"] == cs[i - 1].tree["manifest.json"]
    ensures "README.md" in cs[i].tree && "README.md" in cs[i - 1].tree
    ensures cs[i].tree["README.md"] == cs[i - 1].tree["README.md"]
    ensures exists j :: 0 <= j < i && cs[j].tree == cs[i].base
  {
    assert S.MANIFEST == "manifest.json" && S.README == "README.md";
    assert S.SameManifest(cs[i].base, cs[i - 1].tree) && S.SameReadme(cs[i].tree, cs[i - 1].tree);
    assert S.Known(cs[..i], cs[i].base);
    var j :| 0 <= j < i && cs[..i][j].tree == cs[i].base;
    assert cs[j].tree == cs[i].base;
  }

  /**
    No lost update.  The committed trees form a chain: each was classified against a
    tree that had been committed before, whose manifest is the manifest it replaced,
    and carries that tree's README on.
  */
  lemma CommitsFormChain(s: System, acts: seq<Act>, i: nat)
    requires Init(s) && Runs(s, acts) && CarefulRun(s, acts)
    requires 1 <= i < |Exec(s, acts).store.commits|
    ensures var cs := Exec(s, acts).store.commits;
            && "manifest.json" in cs[i].base && "manifest.json" in cs[i - 1].tree
            && cs[i].base["manifest.json"] == cs[i - 1].tree["manifest.json"]
            && "README.md" in cs[i].tree && "README.md" in cs[i - 1].tree
            && cs[i].tree["README.md"] == cs[i - 1].tree["README.md"]
            && exists j :: 0 <= j < i && cs[j].tree == cs[i].base
  {
    InitGivesInv(s);
    CarefulRunsKeepInv(s, acts);
    ChainOf(Exec(s, acts));
    hide Init, Runs, CarefulRun, Exec, Inv;
    ChainAt(Exec(s, acts).store.commits, i);
  }

  lemma ReadersSeeLastCommit(s: System, acts: seq<Act>)
    requires Init(s) && Runs(s, acts) && CarefulRun(s, acts)
    ensures ReadersRight(Exec(s, acts))
  {
    InitGivesInv(s);
    CarefulRunsKeepInv(s, acts);
    InvGivesAll(Exec(s, acts));
  }

  /** With at most two processes every run is careful. */
  lemma {:induction false} TwoAreCareful(s: System, acts: seq<Act>)
    requires Inv(s) && Runs(s, acts) && |s.locks.procs| <= 2
    ensures CarefulRun(s, acts)
    decreases |acts|
  {
    if acts != [] {
      if Careless(s, acts[0]) { L.CarelessTakesThree(s.locks, acts[0].event); }
      StepKeepsInv(s, acts[0]);
      if acts[0].Locking? { L.StepKeepsProcesses(s.locks, acts[0].event); }
      var s' := Step(s, acts[0]);
      assert |s.locks.procs| == |s.locks.procs.Keys| && |s'.locks.procs| == |s'.locks.procs.Keys|;
      hide Inv;
      TwoAreCareful(s', acts[1..]);
    }
  }

  /** Commits are never taken back, and a step adds one exactly when it is the second rename. */
  lemma CommitsOnlyGrow(s: System, a: Act)
    requires Inv(s) && Enabled(s, a)
    ensures var cs, cs' := s.store.commits, Step(s, a).store.commits;
            if a.Working? && s.works[a.pid].InstallNew? && a.move == S.Proceed
            then cs' == cs + [S.Commit(s.works[a.pid].target, s.works[a.pid].base)]
            else cs' == cs
  {
    if a.Working? { S.StepCommits(s.store, s.works[a.pid], a.move); }
  }

  /** The journal is torn and the process that was writing it is gone. */
  ghost predicate TornForGood(s: System) {
    && s.store.disk.journal == S.Torn
    && forall p | L.Live(s.locks, p) && p in s.works :: !s.works[p].FillJournal?
  }

  /** Work that goes no further than the journal, or is outside. */
  predicate BeforeJournal(w: S.Work) {
    w.Ready? || w.FindJournal? || w.ParseJournal? || (w.Leaving? && (w.next.Reviewed? || w.next.Stopped?)) || w.Reviewed? || w.Stopped?
  }

  ghost predicate Halted(s: System) {
    s.store.disk.journal == S.Torn && forall p | L.Live(s.locks, p) && p in s.works :: BeforeJournal(s.works[p])
  }

  lemma TornHalts(s: System)
    requires Inv(s) && TornForGood(s)
    ensures Halted(s) && s.store.disk.root == S.Present(S.Last(s.store.commits))
  {
    hide L.Inv, S.Chain, Phased;
  }

  lemma HaltedMove(st: S.Store, w: S.Work, m: S.Move)
    requires S.Enabled(st, w, m) && st.disk.journal == S.Torn && BeforeJournal(w)
    ensures S.Step(st, w, m).0 == st && BeforeJournal(S.Step(st, w, m).1)
  {}

  lemma HaltedStep(s: System, a: Act)
    requires Halted(s) && Enabled(s, a)
    ensures Step(s, a).store == s.store && Halted(Step(s, a))
  {
    var s' := Step(s, a);
    match a
    case Locking(e) => forall p | L.Live(s'.locks, p) ensures L.Live(s.locks, p) {}
    case Working(p, m) => HaltedMove(s.store, s.works[p], m);
  }

  lemma {:induction false} HaltedRun(s: System, acts: seq<Act>)
    requires Halted(s) && Runs(s, acts)
    ensures Exec(s, acts).store == s.store
    decreases |acts|
  {
    hide Halted;
    if acts != [] {
      HaltedStep(s, acts[0]);
      HaltedRun(Step(s, acts[0]), acts[1..]);
    }
  }

  /** A torn journal stops every later process, in every run: nothing on the disk changes any more. */
  lemma TornJournalFreezesDisk(s: System, acts: seq<Act>)
    requires Inv(s) && TornForGood(s) && Runs(s, acts)
    ensures Exec(s, acts).store == s.store
    ensures s.store.disk.root == S.Present(S.Last(s.store.commits))
  {
    TornHalts(s);
    HaltedRun(s, acts);
  }
}
