/**
  Exactly when the whole baseline protocol is safe.  Where the lock fails to exclude, two
  processes are at work on the directories: then an update can be lost, and so can the
  committed tree itself.
*/
module PublicationLimits {
  import opened Common
  import L = PublicationLock
  import K = LockLimits
  import R = LockRuns
  import S = BaselineStore
  import W = BaselineRuns
  import B = BaselineMoves
  import opened Publication

  // ---------------------------------------------------------------- careful continuations

  function Mover(a: Act): Pid {
    match a
    case Locking(e) => e.pid
    case Working(p, _) => p
  }

  ghost predicate Without(acts: seq<Act>, still: set<Pid>) {
    forall a | a in acts :: Mover(a) !in still
  }

  /** A careful run in which the processes of `still` do not move leads from s to t. */
  ghost predicate Leads(s: System, t: System, still: set<Pid>) {
    exists acts: seq<Act> :: Runs(s, acts) && CarefulRun(s, acts) && Exec(s, acts) == t && Without(acts, still)
  }

  lemma LeadsNowhere(s: System, still: set<Pid>)
    ensures Leads(s, s, still)
  {
    assert Runs(s, []) && CarefulRun(s, []) && Exec(s, []) == s && Without([], still);
  }

  lemma {:induction false} RunsJoin(s: System, acts: seq<Act>, more: seq<Act>)
    requires Runs(s, acts) && Runs(Exec(s, acts), more)
    ensures Runs(s, acts + more) && Exec(s, acts + more) == Exec(Exec(s, acts), more)
    ensures CarefulRun(s, acts) && CarefulRun(Exec(s, acts), more) ==> CarefulRun(s, acts + more)
    decreases |acts|
  {
    hide Step, Enabled, Careless;
    if acts == [] {
      assert acts + more == more;
    } else {
      RunsJoin(Step(s, acts[0]), acts[1..], more);
      assert (acts + more)[0] == acts[0] && (acts + more)[1..] == acts[1..] + more;
    }
  }

  lemma LeadsJoin(s: System, t: System, u: System, still: set<Pid>)
    requires Leads(s, t, still) && Leads(t, u, still)
    ensures Leads(s, u, still)
  {
    var acts: seq<Act> :| Runs(s, acts) && CarefulRun(s, acts) && Exec(s, acts) == t && Without(acts, still);
    var more: seq<Act> :| Runs(t, more) && CarefulRun(t, more) && Exec(t, more) == u && Without(more, still);
    RunsJoin(s, acts, more);
    assert Without(acts + more, still);
  }

  lemma OneAct(s: System, a: Act)
    requires Enabled(s, a)
    ensures Runs(s, [a]) && Exec(s, [a]) == Step(s, a) && (!Careless(s, a) ==> CarefulRun(s, [a]))
  {
    var one := [a];
    assert one[0] == a && one[1..] == [];
    hide Step, Enabled, Careless;
    assert Runs(Step(s, a), []) && Exec(Step(s, a), []) == Step(s, a) && CarefulRun(Step(s, a), []);
    assert Runs(s, one) && Exec(s, one) == Step(s, a);
  }

  lemma LeadsOn(s: System, t: System, a: Act, still: set<Pid>)
    requires Leads(s, t, still) && Enabled(t, a) && !Careless(t, a) && Mover(a) !in still
    ensures Leads(s, Step(t, a), still)
  {
    OneAct(t, a);
    assert Without([a], still);
    LeadsJoin(s, t, Step(t, a), still);
  }

  lemma LeadsKeepsInv(s: System, t: System, still: set<Pid>)
    requires Inv(s) && Leads(s, t, still)
    ensures Inv(t)
  {
    var acts: seq<Act> :| Runs(s, acts) && CarefulRun(s, acts) && Exec(s, acts) == t && Without(acts, still);
    CarefulRunsKeepInv(s, acts);
  }

  // ---------------------------------------------------------------- work under the lock

  /** A stretch of work is a careful run of the system, whoever the lock file belongs to. */
  lemma {:induction false} WorkRuns(s: System, p: Pid, ms: seq<S.Move>, still: set<Pid>)
    requires Inside(s, p) && p !in still
    requires W.Runs(s.store, s.works[p], ms) && B.Stays(s.store, s.works[p], ms)
    ensures var (st, w) := W.Exec(s.store, s.works[p], ms); Leads(s, s.(store := st, works := s.works[p := w]), still)
    decreases |ms|
  {
    hide S.Step, S.Enabled, Leads;
    LeadsNowhere(s, still);
    if ms == [] {
      assert s.works[p := s.works[p]] == s.works;
    } else {
      var a := Working(p, ms[0]);
      var s1 := Step(s, a);
      LeadsOn(s, s, a, still);
      WorkRuns(s1, p, ms[1..], still);
      var (st, w) := W.Exec(s.store, s.works[p], ms);
      assert s1.works[p := w] == s.works[p := w];
      LeadsJoin(s, s1, s.(store := st, works := s.works[p := w]), still);
    }
  }

  /** Somebody between acquiring and releasing, as far as he knows. */
  predicate Inside(t: System, p: Pid) {
    L.Live(t.locks, p) && t.locks.procs[p].pc.Holding? && p in t.works
  }

  function Worked(t: System, p: Pid, st: S.Store, w: S.Work): System {
    t.(store := st, works := t.works[p := w])
  }

  lemma WorkLeads(s: System, t: System, p: Pid, st: S.Store, w: S.Work, still: set<Pid>)
    requires Leads(s, t, still) && Inside(t, p) && p !in still && B.Moves(t.store, t.works[p], st, w)
    ensures Leads(s, Worked(t, p, st, w), still)
  {
    var ms: seq<S.Move> :| W.Runs(t.store, t.works[p], ms) && B.Stays(t.store, t.works[p], ms) && W.Exec(t.store, t.works[p], ms) == (st, w);
    WorkRuns(t, p, ms, still);
    hide Leads;
    LeadsJoin(s, t, Worked(t, p, st, w), still);
  }

  /** One call under the lock. */
  lemma CallLeads(s: System, t: System, p: Pid, still: set<Pid>)
    requires Leads(s, t, still) && Inside(t, p) && p !in still
    requires S.Enabled(t.store, t.works[p], S.Proceed) && !t.works[p].Leaving? && !t.works[p].Reviewed?
    ensures var (st, w) := S.Call(t.store, t.works[p]); Leads(s, Worked(t, p, st, w), still)
  {
    hide Leads, S.Call;
    LeadsOn(s, t, Working(p, S.Proceed), still);
  }

  // ---------------------------------------------------------------- the lock

  lemma LockOn(s: System, t: System, e: L.Event, still: set<Pid>)
    requires Leads(s, t, still) && e.pid !in still && e.pid in t.works
    requires L.Enabled(t.locks, e) && !L.Careless(t.locks, e) && Wants(t.works[e.pid], t.locks.procs[e.pid].pc, e.choice)
    ensures Leads(s, t.(locks := L.Step(t.locks, e)), still)
  {
    hide Leads;
    LeadsOn(s, t, Locking(e), still);
  }

  function Locked(t: System, p: Pid, pc: L.Pc, lock: Option<L.LockFile>, reclaim: Option<L.LockFile>, tokens: nat): System
    requires p in t.locks.procs
  {
    t.(locks := L.State(lock, reclaim, t.locks.procs[p := L.Proc(true, pc)], tokens))
  }

  /** One event of p, whose effect is known by its parts. */
  lemma LockTo(s: System, t: System, u: System, p: Pid, c: L.Choice, pc: L.Pc, lock: Option<L.LockFile>,
               reclaim: Option<L.LockFile>, tokens: nat, still: set<Pid>)
    requires p in t.locks.procs && p in u.locks.procs && u == Locked(t, p, u.locks.procs[p].pc, u.locks.lock, u.locks.reclaim, u.locks.tokens)
    requires Leads(s, u, still) && p !in still && p in u.works
    requires L.Enabled(u.locks, L.Event(p, c)) && !L.Careless(u.locks, L.Event(p, c)) && Wants(u.works[p], u.locks.procs[p].pc, c)
    requires L.Step(u.locks, L.Event(p, c)) == R.With(u.locks, p, pc, lock, reclaim, tokens)
    ensures Leads(s, Locked(t, p, pc, lock, reclaim, tokens), still)
  {
    hide Leads;
    LockOn(s, u, L.Event(p, c), still);
    assert u.locks.procs[p := L.Proc(true, pc)] == t.locks.procs[p := L.Proc(true, pc)];
  }

  /** A process that wants to take the lock and is not kept from it by a reclaim lock. */
  predicate Comes(t: System, q: Pid) {
    L.Live(t.locks, q) && L.Contends(t.locks.procs[q].pc) && q in t.works && t.works[q].Ready?
  }

  lemma ComesToTry(s: System, t: System, q: Pid, still: set<Pid>) returns (u: System)
    requires Leads(s, t, still) && Comes(t, q) && q !in still
    ensures Leads(s, u, still) && u == Locked(t, q, L.TryLock, t.locks.lock, t.locks.reclaim, t.locks.tokens)
  {
    hide Leads;
    u := t;
    if u.locks.procs[q].pc.Outside? { LockOn(s, u, L.Event(q, L.Proceed), still); u := Step(u, Locking(L.Event(q, L.Proceed))); }
    if u.locks.procs[q].pc.ReadOwner? { LockOn(s, u, L.Event(q, L.Proceed), still); u := Step(u, Locking(L.Event(q, L.Proceed))); }
    if u.locks.procs[q].pc.ProbeOwner? { LockOn(s, u, L.Event(q, L.Says(true)), still); u := Step(u, Locking(L.Event(q, L.Says(true)))); }
    assert u.locks.procs == t.locks.procs[q := L.Proc(true, L.TryLock)];
  }

  /** The state after q has created a free lock. */
  function Entered(t: System, q: Pid): System
    requires q in t.locks.procs
  {
    var mine := L.Record(q, t.locks.tokens);
    Locked(t, q, L.Holding(mine), Some(L.LockFile(mine, true)), t.locks.reclaim, t.locks.tokens + 1)
  }

  lemma Enters(s: System, t: System, q: Pid, still: set<Pid>)
    requires Leads(s, t, still) && Comes(t, q) && q !in still && t.locks.lock == None
    ensures Leads(s, Entered(t, q), still)
  {
    hide Leads;
    var mine := L.Record(q, t.locks.tokens);
    var u := ComesToTry(s, t, q, still);
    LockTo(s, t, u, q, L.Proceed, L.WriteLock(mine, None), Some(L.LockFile(mine, false)), t.locks.reclaim, t.locks.tokens + 1, still);
    u := Locked(t, q, L.WriteLock(mine, None), Some(L.LockFile(mine, false)), t.locks.reclaim, t.locks.tokens + 1);
    LockTo(s, t, u, q, L.Proceed, L.Holding(mine), Some(L.LockFile(mine, true)), t.locks.reclaim, t.locks.tokens + 1, still);
  }

  /** The state after a reclaimer has replaced the lock by its own. */
  function Reclaimed(t: System, p: Pid): System
    requires p in t.locks.procs
  {
    var mine := L.Record(p, t.locks.tokens);
    Locked(t, p, L.Holding(mine), Some(L.LockFile(mine, true)), None, t.locks.tokens + 1)
  }

  lemma Reclaims(s: System, t: System, p: Pid, r: L.Record, owner: L.Record)
    requires Leads(s, t, {}) && L.At(t.locks, p, L.RemoveStale(r, owner)) && p in t.works
    requires t.locks.lock.Some? && t.locks.reclaim == Some(L.LockFile(r, true))
    ensures Leads(s, Reclaimed(t, p), {})
  {
    hide Leads, L.Step, L.Enabled, L.Careless;
    var mine, n := L.Record(p, t.locks.tokens), t.locks.tokens + 1;
    var v := Locked(t, p, L.ReadReclaim(r, L.Return(mine)), Some(L.LockFile(mine, true)), t.locks.reclaim, n);
    Relocks(s, t, p, r, owner);
    DropsReclaim(s, v, p, r, mine);
    assert v.locks.procs[p := L.Proc(true, L.Holding(mine))] == t.locks.procs[p := L.Proc(true, L.Holding(mine))];
  }

  /** The stale lock goes and a new one comes, under the reclaim lock. */
  lemma Relocks(s: System, t: System, p: Pid, r: L.Record, owner: L.Record)
    requires Leads(s, t, {}) && L.At(t.locks, p, L.RemoveStale(r, owner)) && p in t.works
    requires t.locks.lock.Some? && t.locks.reclaim == Some(L.LockFile(r, true))
    ensures var mine := L.Record(p, t.locks.tokens);
      Leads(s, Locked(t, p, L.ReadReclaim(r, L.Return(mine)), Some(L.LockFile(mine, true)), t.locks.reclaim, t.locks.tokens + 1), {})
  {
    hide Leads;
    var mine, held, n := L.Record(p, t.locks.tokens), t.locks.reclaim, t.locks.tokens + 1;
    assert t.locks.procs[p := L.Proc(true, L.RemoveStale(r, owner))] == t.locks.procs;
    LockTo(s, t, t, p, L.Proceed, L.Relock(r), None, held, t.locks.tokens, {});
    LockTo(s, t, Locked(t, p, L.Relock(r), None, held, t.locks.tokens), p, L.Proceed,
           L.WriteLock(mine, Some(r)), Some(L.LockFile(mine, false)), held, n, {});
    LockTo(s, t, Locked(t, p, L.WriteLock(mine, Some(r)), Some(L.LockFile(mine, false)), held, n), p, L.Proceed,
           L.ReadReclaim(r, L.Return(mine)), Some(L.LockFile(mine, true)), held, n, {});
  }

  /** The reclaim lock is removed by its owner. */
  lemma DropsReclaim(s: System, t: System, p: Pid, r: L.Record, mine: L.Record)
    requires Leads(s, t, {}) && L.At(t.locks, p, L.ReadReclaim(r, L.Return(mine))) && p in t.works
    requires t.locks.reclaim == Some(L.LockFile(r, true))
    ensures Leads(s, Locked(t, p, L.Holding(mine), t.locks.lock, None, t.locks.tokens), {})
  {
    hide Leads;
    var lock, held, n := t.locks.lock, t.locks.reclaim, t.locks.tokens;
    assert t.locks.procs[p := L.Proc(true, L.ReadReclaim(r, L.Return(mine)))] == t.locks.procs;
    LockTo(s, t, t, p, L.Proceed, L.RemoveReclaim(r, L.Return(mine)), lock, held, n, {});
    LockTo(s, t, Locked(t, p, L.RemoveReclaim(r, L.Return(mine)), lock, held, n), p, L.Proceed, L.Holding(mine), lock, None, n, {});
  }

  /** The lock file is the process's own. */
  predicate Owns(t: System, p: Pid) {
    Inside(t, p) && t.locks.lock == Some(L.LockFile(t.locks.procs[p].pc.mine, true))
  }

  /** An owner whose round is over releases its lock. */
  lemma Leaves(s: System, t: System, p: Pid, still: set<Pid>)
    requires Leads(s, t, still) && Owns(t, p) && t.works[p].Leaving? && p !in still
    ensures Leads(s, Locked(t, p, L.Outside, None, t.locks.reclaim, t.locks.tokens), still)
  {
    hide Leads;
    var mine, own, held, n := t.locks.procs[p].pc.mine, t.locks.lock, t.locks.reclaim, t.locks.tokens;
    assert t.locks.procs[p := t.locks.procs[p]] == t.locks.procs;
    LockTo(s, t, t, p, L.Proceed, L.ReadOwn(mine), own, held, n, still);
    LockTo(s, t, Locked(t, p, L.ReadOwn(mine), own, held, n), p, L.Proceed, L.RemoveOwn(mine), own, held, n, still);
    LockTo(s, t, Locked(t, p, L.RemoveOwn(mine), own, held, n), p, L.Proceed, L.Outside, None, held, n, still);
  }

  // ---------------------------------------------------------------- who can publish

  /** Not yet begun, or classified against the current manifest. */
  predicate CanPublish(w: S.Work, last: S.Tree) {
    w == S.Ready(S.Reading) || (w.Ready? && w.round.Publishing? && S.SameManifest(w.round.base, last))
  }

  /** Not yet begun, or about to change the manifest. */
  predicate CanChange(w: S.Work, last: S.Tree) {
    w == S.Ready(S.Reading) || (w.Ready? && w.round.Publishing? && !S.SameManifest(w.round.want, last))
  }

  predicate Publishable(last: S.Tree) { S.MANIFEST in last && S.README in last }

  /** A disk that the next recovery makes clean. */
  ghost predicate Recoverable(st: S.Store) {
    S.DiskInv(st) && st.disk.journal != S.Torn && Publishable(S.Last(st.commits))
  }

  ghost predicate CleanStore(st: S.Store) {
    S.DiskInv(st) && B.Clean(st.disk, S.Last(st.commits)) && Publishable(S.Last(st.commits))
  }

  /** Only p has moved, and nothing was committed. */
  ghost predicate OnlyMoved(t: System, u: System, p: Pid) {
    && u.locks.procs.Keys == t.locks.procs.Keys && u.works.Keys == t.works.Keys
    && (forall q | q in t.locks.procs && q != p :: u.locks.procs[q] == t.locks.procs[q])
    && (forall q | q in t.works && q != p :: u.works[q] == t.works[q])
    && u.locks.reclaim == t.locks.reclaim && u.store.commits == t.store.commits
  }

  /** Recovery, and the round's first step after it. */
  lemma Rounds(s: System, t: System, p: Pid, still: set<Pid>) returns (u: System)
    requires Leads(s, t, still) && Inside(t, p) && t.works[p].Ready? && p !in still && Recoverable(t.store)
    requires CanPublish(t.works[p], S.Last(t.store.commits))
    ensures Leads(s, u, still) && u.locks == t.locks && OnlyMoved(t, u, p) && CleanStore(u.store)
    ensures p in u.works && u.works[p] == match t.works[p].round
      case Reading => S.Leaving(S.Reviewed(S.Last(t.store.commits)))
      case Publishing(base, want) => S.ClearStaged(base, want)
  {
    hide Leads;
    var round := t.works[p].round;
    var st := B.Recovers(t.store, round);
    WorkLeads(s, t, p, st, S.Recovered(round, t.store.disk.journal == S.Valid), still);
    var v := Worked(t, p, st, S.Recovered(round, t.store.disk.journal == S.Valid));
    CallLeads(s, v, p, still);
    var (st', w) := S.Call(v.store, v.works[p]);
    u := Worked(v, p, st', w);
  }

  /** A tree whose manifest is not that of `last`. */
  function Changed(last: S.Tree): S.Tree
    requires S.MANIFEST in last
  {
    map[S.MANIFEST := last[S.MANIFEST] + [0]]
  }

  /** A reader goes through its round, decides on a changed tree, and is back under the lock to publish it. */
  lemma Begins(s: System, t: System, p: Pid, still: set<Pid>) returns (u: System)
    requires Leads(s, t, still) && Owns(t, p) && t.works[p] == S.Ready(S.Reading) && p !in still && Recoverable(t.store)
    ensures Leads(s, u, still) && Owns(u, p) && OnlyMoved(t, u, p) && Recoverable(u.store)
    ensures var last := S.Last(t.store.commits); u.works[p] == S.Ready(S.Publishing(last, Changed(last)))
  {
    hide Leads;
    var last := S.Last(t.store.commits);
    assert S.MANIFEST in last;
    hide Recoverable, CleanStore;
    var v := Rounds(s, t, p, still);
    CleanIsRecoverable(v.store);
    Leaves(s, v, p, still);
    v := Locked(v, p, L.Outside, None, v.locks.reclaim, v.locks.tokens);
    u := Decides(s, v, p, last, still);
  }

  /** Outside the lock a reader decides on a changed tree, and takes the lock to publish it. */
  lemma Decides(s: System, t: System, p: Pid, last: S.Tree, still: set<Pid>) returns (u: System)
    requires Leads(s, t, still) && L.At(t.locks, p, L.Outside) && t.locks.lock == None && p in t.works && p !in still
    requires t.works[p] == S.Leaving(S.Reviewed(last)) && S.MANIFEST in last
    ensures Leads(s, u, still) && Owns(u, p) && OnlyMoved(t, u, p) && u.store == t.store
    ensures u.works[p] == S.Ready(S.Publishing(last, Changed(last)))
  {
    hide Leads;
    LeadsOn(s, t, Working(p, S.Proceed), still);
    var v := Step(t, Working(p, S.Proceed));
    LeadsOn(s, v, Working(p, S.Choose(Changed(last))), still);
    v := Step(v, Working(p, S.Choose(Changed(last))));
    hide Changed;
    Enters(s, v, p, still);
    u := Entered(v, p);
  }

  lemma CleanIsRecoverable(st: S.Store)
    requires CleanStore(st)
    ensures Recoverable(st)
  { }

  /** From holding its own lock, a process that can publish gets past the check of the base. */
  lemma PassesCheck(s: System, t: System, p: Pid, still: set<Pid>) returns (u: System, base: S.Tree, want: S.Tree)
    requires Leads(s, t, still) && Owns(t, p) && p !in still && Recoverable(t.store)
    requires CanPublish(t.works[p], S.Last(t.store.commits))
    ensures Leads(s, u, still) && Owns(u, p) && OnlyMoved(t, u, p) && CleanStore(u.store)
    ensures u.works[p] == S.ClearStaged(base, want) && S.SameManifest(base, S.Last(t.store.commits))
    ensures CanChange(t.works[p], S.Last(t.store.commits)) ==> !S.SameManifest(want, S.Last(t.store.commits))
  {
    hide Leads, CleanStore;
    var v, last := t, S.Last(t.store.commits);
    if t.works[p].round.Reading? {
      v := Begins(s, t, p, still);
      assert v.store.commits == t.store.commits;
    }
    base, want := v.works[p].round.base, v.works[p].round.want;
    assert Publishable(last);
    u := Rounds(s, v, p, still);
  }

  // ---------------------------------------------------------------- what two workers do to the disk

  /** The committed tree is at neither place a later recovery looks: the journal that would restore it is gone. */
  predicate LastCommitLost(st: S.Store) {
    st.disk.root == S.Absent && st.disk.journal == S.NoJournal
  }

  /** Nobody but p and q has worked, and nobody has come alive. */
  ghost predicate OthersIdle(t: System, u: System, p: Pid, q: Pid) {
    u.works.Keys == t.works.Keys
    && forall x | x in t.works && x != p && x != q :: u.works[x] == t.works[x] && (L.Live(u.locks, x) ==> L.Live(t.locks, x))
  }

  /** p recovers while q is about to rename; p has read the journal and taken away q's staged tree. */
  lemma RecoversBeside(s: System, t: System, p: Pid, still: set<Pid>)
    requires Leads(s, t, still) && Inside(t, p) && t.works[p].Ready? && p !in still
    requires S.DiskInv(t.store) && t.store.disk.journal == S.Valid && t.store.disk.previous == S.Absent && t.store.disk.staged.Present?
    requires t.store.disk.root == S.Present(S.Last(t.store.commits))
    ensures Leads(s, Worked(t, p, t.store.(disk := t.store.disk.(staged := S.Absent)), S.DropJournal(t.works[p].round)), still)
  {
    hide Leads;
    var round, st := t.works[p].round, t.store;
    B.ProbesAll(st, round);
    B.Restores(st, round);
    B.Deletes(st, S.DropCandidate(round));
    hide B.Moves;
    B.MovesJoin(st, S.Ready(round), st, S.ProbeStaged(round, true, false), st, S.DropCandidate(round));
    var end := st.(disk := st.disk.(staged := S.Absent));
    B.MovesJoin(st, S.Ready(round), st, S.DropCandidate(round), end, S.DropJournal(round));
    WorkLeads(s, t, p, end, S.DropJournal(round), still);
  }

  /**
    q stages its candidate and writes the journal; p finds that journal in its own recovery
    and drops the candidate; q renames the old root away; p removes the journal.
  */
  lemma TwoLoseTheRoot(s: System, t: System, p: Pid, q: Pid, base: S.Tree, want: S.Tree) returns (u: System)
    requires Leads(s, t, {}) && Inside(t, p) && Inside(t, q) && p != q && CleanStore(t.store)
    requires t.works[p].Ready? && t.works[q] == S.ClearStaged(base, want)
    ensures Leads(s, u, {}) && LastCommitLost(u.store) && u.store.commits == t.store.commits
    ensures Inside(u, p) && Inside(u, q) && u.works[p] == S.Recovered(t.works[p].round, true) && u.works[q].InstallNew?
    ensures u.store.disk.staged == S.Absent && OthersIdle(t, u, p, q)
  {
    hide Leads;
    var st, round := t.store, t.works[p].round;
    var target := B.Target(st, want);
    B.Stages(st, base, want);
    WorkLeads(s, t, q, st.(disk := st.disk.(staged := S.Present(target), journal := S.Valid)), S.MoveOld(base, target), {});
    u := Worked(t, q, st.(disk := st.disk.(staged := S.Present(target), journal := S.Valid)), S.MoveOld(base, target));
    RecoversBeside(s, u, p, {});
    u := Worked(u, p, u.store.(disk := u.store.disk.(staged := S.Absent)), S.DropJournal(round));
    hide CleanStore, S.DiskInv, B.Target;
    u := RootAndJournalGo(s, u, p, q, round, base, target);
  }

  /** The one renames the root away, the other removes the journal. */
  lemma RootAndJournalGo(s: System, t: System, p: Pid, q: Pid, round: S.Round, base: S.Tree, target: S.Tree) returns (u: System)
    requires Leads(s, t, {}) && Inside(t, p) && Inside(t, q) && p != q
    requires t.works[p] == S.DropJournal(round) && t.works[q] == S.MoveOld(base, target)
    requires t.store.disk.root.Present? && t.store.disk.previous == S.Absent
    ensures Leads(s, u, {}) && LastCommitLost(u.store) && u.store.commits == t.store.commits
    ensures Inside(u, p) && Inside(u, q) && u.works[p] == S.Recovered(round, true) && u.works[q].InstallNew?
    ensures u.store.disk.staged == t.store.disk.staged && OthersIdle(t, u, p, q)
  {
    hide Leads;
    CallLeads(s, t, q, {});
    u := Worked(t, q, S.Call(t.store, t.works[q]).0, S.Call(t.store, t.works[q]).1);
    CallLeads(s, u, p, {});
    u := Worked(u, p, S.Call(u.store, u.works[p]).0, S.Call(u.store, u.works[p]).1);
  }

  /** x publishes as a whole; y, which passed the same check before, publishes over it. */
  lemma TwoLoseAnUpdate(s: System, t: System, x: Pid, y: Pid) returns (u: System)
    requires Leads(s, t, {}) && Inside(t, x) && Inside(t, y) && x != y && CleanStore(t.store)
    requires t.works[x].ClearStaged? && t.works[y].ClearStaged?
    requires var last := S.Last(t.store.commits); S.SameManifest(t.works[y].base, last) && !S.SameManifest(t.works[x].want, last)
    ensures Leads(s, u, {}) && |u.store.commits| == |t.store.commits| + 2
    ensures var cs := u.store.commits; !S.SameManifest(cs[|cs| - 1].base, cs[|cs| - 2].tree)
  {
    hide Leads;
    var st, last := t.store, S.Last(t.store.commits);
    B.Publishes(st, t.works[x].base, t.works[x].want);
    var first := B.Target(st, t.works[x].want);
    var st1 := S.Store(S.Disk(S.Present(first), S.Absent, S.Absent, S.NoJournal), st.commits + [S.Commit(first, t.works[x].base)]);
    WorkLeads(s, t, x, st1, S.Leaving(S.Stopped), {});
    u := Worked(t, x, st1, S.Leaving(S.Stopped));
    var base := t.works[y].base;
    B.Publishes(st1, base, t.works[y].want);
    var second := B.Target(st1, t.works[y].want);
    var st2 := S.Store(S.Disk(S.Present(second), S.Absent, S.Absent, S.NoJournal), st1.commits + [S.Commit(second, base)]);
    WorkLeads(s, u, y, st2, S.Leaving(S.Stopped), {});
    u := Worked(u, y, st2, S.Leaving(S.Stopped));
    assert S.MANIFEST != S.README;
    assert !S.SameManifest(base, first);
  }

  // ---------------------------------------------------------------- after a careless probe

  function Dead(p: Pid): Act { Locking(K.Dead(p)) }

  /** p has been told "dead", the lock is gone, and q comes. */
  ghost predicate Loose(t: System, p: Pid, q: Pid) {
    && L.Live(t.locks, p) && t.locks.procs[p].pc.RemoveStale? && p in t.works && t.works[p].Ready?
    && t.locks.lock == None && t.locks.reclaim == Some(L.LockFile(t.locks.procs[p].pc.reclaim, true))
    && Comes(t, q) && p != q && Recoverable(t.store) && CanPublish(t.works[q], S.Last(t.store.commits))
  }

  /** q enters and passes its check; p then takes the lock away from it and is inside as well. */
  lemma BothInside(t: System, p: Pid, q: Pid) returns (u: System, base: S.Tree, want: S.Tree)
    requires Loose(t, p, q)
    ensures Leads(t, u, {}) && Owns(u, p) && Inside(u, q) && u.works[p] == t.works[p] && CleanStore(u.store)
    ensures u.store.commits == t.store.commits && OthersIdle(t, u, p, q)
    ensures u.works[q] == S.ClearStaged(base, want) && S.SameManifest(base, S.Last(t.store.commits))
    ensures CanChange(t.works[q], S.Last(t.store.commits)) ==> !S.SameManifest(want, S.Last(t.store.commits))
  {
    LeadsNowhere(t, {});
    hide Leads, CleanStore;
    var pc := t.locks.procs[p].pc;
    Enters(t, t, q, {});
    var v := Entered(t, q);
    v, base, want := PassesCheck(t, v, q, {});
    Reclaims(t, v, p, pc.reclaim, pc.owner);
    u := Reclaimed(v, p);
  }

  lemma LooseLosesTheRoot(t: System, p: Pid, q: Pid) returns (u: System)
    requires Loose(t, p, q)
    ensures Leads(t, u, {}) && LastCommitLost(u.store) && u.store.commits == t.store.commits != []
    ensures Publishable(S.Last(u.store.commits)) && OthersIdle(t, u, p, q) && u.store.disk.staged == S.Absent
    ensures Inside(u, p) && Inside(u, q) && u.works[p] == S.Recovered(t.works[p].round, true) && u.works[q].InstallNew?
  {
    var v, base, want := BothInside(t, p, q);
    u := TwoLoseTheRoot(t, v, p, q, base, want);
    hide Leads;
  }

  lemma LooseLosesAnUpdate(t: System, p: Pid, q: Pid) returns (u: System)
    requires Loose(t, p, q)
    requires var last := S.Last(t.store.commits);
      CanPublish(t.works[p], last) && (CanChange(t.works[p], last) || CanChange(t.works[q], last))
    ensures Leads(t, u, {}) && |u.store.commits| >= 2
    ensures var cs := u.store.commits; !S.SameManifest(cs[|cs| - 1].base, cs[|cs| - 2].tree)
  {
    hide Leads;
    var last := S.Last(t.store.commits);
    var v, base, want := BothInside(t, p, q);
    CleanIsRecoverable(v.store);
    var w, base', want' := PassesCheck(t, v, p, {});
    assert w.works[q] == v.works[q];
    if CanChange(t.works[p], last) { u := TwoLoseAnUpdate(t, w, p, q); } else { u := TwoLoseAnUpdate(t, w, q, p); }
  }

  // ---------------------------------------------------------------- the owner that is re-read

  /** Only the owner of the lock may be writing the journal. */
  lemma OwnerWritesJournal(s: System, d: Pid)
    requires Inv(s) && !TornForGood(s) && s.store.disk.journal == S.Torn && L.InSection(s.locks, d)
    ensures d in s.works && s.works[d].FillJournal? && s.locks.procs[d].pc.Holding?
  {
    var x :| L.Live(s.locks, x) && x in s.works && s.works[x].FillJournal?;
    WriterHolds(s, x);
    L.InvGivesExclusion(s.locks);
    hide Inv, L.Inv, TornForGood;
  }

  lemma WriterHolds(s: System, x: Pid)
    requires Inv(s) && L.Live(s.locks, x) && x in s.works && s.works[x].FillJournal?
    ensures s.locks.procs[x].pc.Holding? && L.InSection(s.locks, x)
  {
    assert WorksOk(s);
    hide Inv, S.WorkOk;
  }

  lemma ActLeads(s: System, t: System, d: Pid, m: S.Move, still: set<Pid>)
    requires Leads(s, t, still) && Inside(t, d) && d !in still && S.Enabled(t.store, t.works[d], m)
    requires !t.works[d].Leaving? && !t.works[d].Reviewed?
    ensures var (st, w) := S.Step(t.store, t.works[d], m); Leads(s, Worked(t, d, st, w), still)
  {
    hide Leads, S.Step;
    LeadsOn(s, t, Working(d, m), still);
  }

  /** Whatever the owner was doing under the lock, its round can be over with nothing committed and no torn journal. */
  lemma OwnerFails(s: System, d: Pid, still: set<Pid>) returns (u: System)
    requires Inv(s) && !TornForGood(s) && Inside(s, d) && d !in still
    ensures Leads(s, u, still) && OnlyMoved(s, u, d) && u.locks == s.locks
    ensures d in u.works && u.works[d].Leaving? && u.store.disk.journal != S.Torn
  {
    hide Leads, Inv, TornForGood, OnlyMoved, L.InSection;
    InsideIsInSection(s, d);
    if s.store.disk.journal == S.Torn { OwnerWritesJournal(s, d); }
    InsideIsAtWork(s, d);
    u := OwnerMoves(s, d, still);
    if !u.works[d].Leaving? {
      InsideAfter(s, u, d);
      ThrowsOut(s, u, d, still);
      OnlyMovedThrown(s, u, d);
      u := Worked(u, d, u.store, S.Leaving(S.Stopped));
    }
  }

  lemma InsideIsInSection(s: System, d: Pid)
    requires Inside(s, d)
    ensures L.InSection(s.locks, d)
  { }

  lemma InsideIsAtWork(s: System, d: Pid)
    requires Inv(s) && Inside(s, d)
    ensures !s.works[d].Reviewed? && !s.works[d].Stopped?
  {
    assert WorksOk(s);
    hide Inv, S.WorkOk, S.Critical;
  }

  lemma InsideAfter(s: System, u: System, d: Pid)
    requires Inside(s, d) && u.locks == s.locks && d in u.works
    ensures Inside(u, d)
  { }

  lemma OnlyMovedThrown(s: System, u: System, d: Pid)
    requires OnlyMoved(s, u, d) && d in u.works
    ensures OnlyMoved(s, Worked(u, d, u.store, S.Leaving(S.Stopped)), d)
  { }

  /** A call that may fail does, and the round is over. */
  lemma ThrowsOut(s: System, u: System, d: Pid, still: set<Pid>)
    requires Leads(s, u, still) && Inside(u, d) && d !in still && S.Critical(u.works[d])
    ensures Leads(s, Worked(u, d, u.store, S.Leaving(S.Stopped)), still)
  {
    hide Leads;
    ActLeads(s, u, d, S.Throw, still);
  }

  /** To where a call of its round may fail, past the writing of the journal. */
  lemma OwnerMoves(s: System, d: Pid, still: set<Pid>) returns (u: System)
    requires Inside(s, d) && d !in still && !s.works[d].Reviewed? && !s.works[d].Stopped?
    requires s.store.disk.journal == S.Torn ==> s.works[d].FillJournal?
    ensures Leads(s, u, still) && OnlyMoved(s, u, d) && u.locks == s.locks && u.store.disk.journal != S.Torn
    ensures d in u.works && (u.works[d].Leaving? || S.Critical(u.works[d]))
  {
    LeadsNowhere(s, still);
    hide Leads;
    u := s;
    if u.works[d].Ready? || u.works[d].FillJournal? {
      CallLeads(s, u, d, still);
      u := Worked(u, d, S.Call(u.store, u.works[d]).0, S.Call(u.store, u.works[d]).1);
    }
  }

  /** A release under way is finished. */
  lemma ReleaseEnds(s: System, d: Pid, still: set<Pid>)
    requires d in s.works && d in s.locks.procs && d !in still
    requires L.Live(s.locks, d) && (s.locks.procs[d].pc.ReadOwn? || s.locks.procs[d].pc.RemoveOwn?)
    requires s.locks.lock == Some(L.LockFile(s.locks.procs[d].pc.mine, true))
    ensures Leads(s, Locked(s, d, L.Outside, None, s.locks.reclaim, s.locks.tokens), still)
  {
    LeadsNowhere(s, still);
    hide Leads;
    var l, u := s.locks, s;
    var mine := l.procs[d].pc.mine;
    assert l.procs[d := l.procs[d]] == l.procs;
    if l.procs[d].pc.ReadOwn? {
      LockTo(s, s, u, d, L.Proceed, L.RemoveOwn(mine), l.lock, l.reclaim, l.tokens, still);
      u := Locked(s, d, L.RemoveOwn(mine), l.lock, l.reclaim, l.tokens);
    }
    LockTo(s, s, u, d, L.Proceed, L.Outside, None, l.reclaim, l.tokens, still);
  }

  /** The owner's round is over and its lock gone. */
  lemma OwnerReleases(s: System, d: Pid, still: set<Pid>) returns (u: System)
    requires Inv(s) && !TornForGood(s) && L.InSection(s.locks, d) && s.locks.lock == L.Owns(s.locks.procs[d].pc) && d !in still
    ensures Leads(s, u, still) && u.store.commits == s.store.commits && u.store.disk.journal != S.Torn
    ensures u.locks == s.locks.(lock := None, procs := s.locks.procs[d := L.Proc(true, L.Outside)])
    ensures d in u.works && u.works.Keys == s.works.Keys && forall q | q in s.works && q != d :: u.works[q] == s.works[q]
  {
    assert d in s.works by { assert WorksOk(s); }
    if s.locks.procs[d].pc.Holding? {
      u := OwnerFails(s, d, still);
      hide Leads, Inv, TornForGood;
      Leaves(s, u, d, still);
    } else {
      if s.store.disk.journal == S.Torn { OwnerWritesJournal(s, d); }
      hide Leads, Inv, TornForGood;
      ReleaseEnds(s, d, still);
      u := s;
    }
    u := Locked(u, d, L.Outside, None, s.locks.reclaim, s.locks.tokens);
  }

  /** The owner releases the lock and ends. */
  lemma OwnerGoes(s: System, d: Pid, still: set<Pid>) returns (u: System)
    requires Inv(s) && !TornForGood(s) && L.InSection(s.locks, d) && s.locks.lock == L.Owns(s.locks.procs[d].pc) && d !in still
    ensures Leads(s, u, still) && u.store.commits == s.store.commits && u.store.disk.journal != S.Torn
    ensures u.locks == s.locks.(lock := None, procs := s.locks.procs[d := L.Proc(false, L.Outside)])
    ensures u.works.Keys == s.works.Keys && forall q | q in s.works && q != d :: u.works[q] == s.works[q]
  {
    hide Leads, Inv, TornForGood;
    u := OwnerReleases(s, d, still);
    LockOn(s, u, L.Event(d, L.Crash), still);
    assert u.locks.procs[d := L.Proc(false, L.Outside)] == s.locks.procs[d := L.Proc(false, L.Outside)];
    u := u.(locks := L.Step(u.locks, L.Event(d, L.Crash)));
  }

  // ---------------------------------------------------------------- exactness of the re-read

  function Reread(p: Pid): Act { Locking(L.Event(p, L.Proceed)) }

  /** p is about to read again, under the reclaim lock, a lock that names `owner`; q comes and can publish. */
  ghost predicate AtReread(s: System, p: Pid, owner: L.Record, q: Pid) {
    && Inv(s) && !TornForGood(s) && Publishable(S.Last(s.store.commits))
    && L.Live(s.locks, p) && s.locks.procs[p].pc.RereadOwner? && s.locks.lock == Some(L.LockFile(owner, true))
    && Comes(s, q) && q != p && q != owner.pid && CanPublish(s.works[q], S.Last(s.store.commits))
  }

  /** The re-read of a running owner's lock can end with p told "dead" and the lock gone. */
  lemma RereadOfLiveOwnerLoosens(s: System, p: Pid, owner: L.Record, q: Pid) returns (t: System)
    requires AtReread(s, p, owner, q) && L.Live(s.locks, owner.pid)
    ensures Enabled(s, Reread(p)) && Leads(Step(s, Reread(p)), t, {p}) && Enabled(t, Dead(p))
    ensures Loose(Step(t, Dead(p)), p, q)
    ensures Step(t, Dead(p)).store.commits == s.store.commits
    ensures p in s.works && Step(t, Dead(p)).works[p] == s.works[p] && Step(t, Dead(p)).works[q] == s.works[q]
    ensures OthersIdle(s, Step(t, Dead(p)), owner.pid, owner.pid) && !L.Live(Step(t, Dead(p)).locks, owner.pid)
  {
    hide Leads, Inv, TornForGood, AtReread, Loose, Recoverable, OthersIdle, Step, L.Owns, L.InSection, L.OwnsReclaim;
    RereadStarts(s, p, owner, q);
    var s' := Step(s, Reread(p));
    t := OwnerGoes(s', owner.pid, {p});
    LeadsKeepsInv(s', t, {p});
    IsRecoverable(t, s, p, owner, q);
    NowLoose(s, t, p, owner, q);
  }

  lemma IsRecoverable(t: System, s: System, p: Pid, owner: L.Record, q: Pid)
    requires Inv(t) && t.store.disk.journal != S.Torn && t.store.commits == s.store.commits && AtReread(s, p, owner, q)
    ensures Recoverable(t.store)
  {
    hide WorksOk, L.Inv, S.DiskInv, TornForGood;
  }

  /** The re-read is one call of p; the owner stays where it was, with its lock. */
  lemma RereadStarts(s: System, p: Pid, owner: L.Record, q: Pid)
    requires AtReread(s, p, owner, q) && L.Live(s.locks, owner.pid)
    ensures Enabled(s, Reread(p)) && p in s.works && s.works[p].Ready? && owner.pid != p
    ensures q in s.works && q != p && q != owner.pid
    ensures s.locks.reclaim == L.OwnsReclaim(s.locks.procs[p].pc)
    ensures var s' := Step(s, Reread(p));
      && Inv(s') && !TornForGood(s') && L.InSection(s'.locks, owner.pid)
      && s'.locks.lock == L.Owns(s'.locks.procs[owner.pid].pc) && s'.locks == L.Call(s.locks, p)
      && s'.store == s.store && s'.works == s.works
  {
    assert p in s.works && s.works[p].Ready? by { assert WorksOk(s); }
    StepKeepsInv(s, Reread(p));
    StillNotTorn(s, p);
    RereadLeavesOwner(s.locks, p, owner);
    hide Inv, TornForGood, Recoverable;
  }

  lemma RereadLeavesOwner(l: L.State, p: Pid, owner: L.Record)
    requires L.Inv(l) && L.Live(l, p) && l.procs[p].pc.RereadOwner? && l.lock == Some(L.LockFile(owner, true)) && L.Live(l, owner.pid)
    ensures owner.pid != p && l.reclaim == L.OwnsReclaim(l.procs[p].pc)
    ensures var l' := L.Call(l, p);
      l'.lock == l.lock && L.Live(l', owner.pid) && l'.procs[owner.pid] == l.procs[owner.pid]
      && L.InSection(l', owner.pid) && l'.lock == L.Owns(l'.procs[owner.pid].pc)
  {
    assert L.Owns(l.procs[owner.pid].pc) == l.lock;
    hide L.Inv;
  }

  lemma StillNotTorn(s: System, p: Pid)
    requires !TornForGood(s) && Enabled(s, Reread(p)) && s.locks.procs[p].pc.RereadOwner?
    ensures !TornForGood(Step(s, Reread(p)))
  {
    if s.store.disk.journal == S.Torn {
      var x :| L.Live(s.locks, x) && x in s.works && s.works[x].FillJournal?;
      assert L.Live(Step(s, Reread(p)).locks, x);
    }
  }

  /** With the owner gone, "dead" is a possible answer, and everything is loose. */
  lemma NowLoose(s: System, t: System, p: Pid, owner: L.Record, q: Pid)
    requires AtReread(s, p, owner, q) && p in s.works && s.works[p].Ready? && L.Live(s.locks, owner.pid)
    requires s.locks.reclaim == L.OwnsReclaim(s.locks.procs[p].pc) && owner.pid != p
    requires var l := L.Call(s.locks, p);
      t.locks == l.(lock := None, procs := l.procs[owner.pid := L.Proc(false, L.Outside)])
    requires t.store.commits == s.store.commits && Recoverable(t.store)
    requires t.works.Keys == s.works.Keys && forall x | x in s.works && x != owner.pid :: t.works[x] == s.works[x]
    ensures Enabled(t, Dead(p)) && Loose(Step(t, Dead(p)), p, q)
    ensures OthersIdle(s, Step(t, Dead(p)), owner.pid, owner.pid) && !L.Live(Step(t, Dead(p)).locks, owner.pid)
    ensures Step(t, Dead(p)).works == t.works && Step(t, Dead(p)).store == t.store
  {
    hide Inv, Recoverable;
  }

  lemma {:induction false} Projects(s: System, acts: seq<Act>, still: set<Pid>) returns (es: seq<L.Event>)
    requires Runs(s, acts) && CarefulRun(s, acts) && Without(acts, still)
    ensures L.Runs(s.locks, es) && L.CarefulRun(s.locks, es) && L.Exec(s.locks, es) == Exec(s, acts).locks && K.Without(es, still)
    decreases |acts|
  {
    if acts == [] {
      es := [];
    } else {
      hide L.Step, L.Enabled, S.Step, S.Enabled, L.Careless;
      assert acts[0] in acts && Without(acts[1..], still);
      es := Projects(Step(s, acts[0]), acts[1..], still);
      if acts[0].Locking? {
        var e, rest := acts[0].event, es;
        es := [e] + rest;
        assert es[1..] == rest;
      }
    }
  }

  /** The re-read of a dead owner's lock leaves the pending probe harmless, and every continuation careful. */
  lemma RereadOfDeadOwnerKeepsInv(s: System, p: Pid, owner: L.Record, t: System, u: System)
    requires Inv(s) && L.Live(s.locks, p) && s.locks.procs[p].pc.RereadOwner? && s.locks.lock == Some(L.LockFile(owner, true))
    requires !L.Live(s.locks, owner.pid) && Enabled(s, Reread(p)) && Leads(Step(s, Reread(p)), t, {p})
    requires Enabled(t, Dead(p)) && Leads(Step(t, Dead(p)), u, {})
    ensures Inv(u)
  {
    var s' := Step(s, Reread(p));
    StepKeepsInv(s, Reread(p));
    var acts: seq<Act> :| Runs(s', acts) && CarefulRun(s', acts) && Exec(s', acts) == t && Without(acts, {p});
    var es := Projects(s', acts, {p});
    var r := s.locks.procs[p].pc.reclaim;
    K.HarmlessStart(s.locks, p, owner);
    K.HarmlessRun(s'.locks, p, r, owner, es);
    K.HarmlessIsCareful(t.locks, p, r, owner);
    LeadsKeepsInv(s', t, {p});
    StepKeepsInv(t, Dead(p));
    LeadsKeepsInv(Step(t, Dead(p)), u, {});
  }

  /** While p waits, others can bring about a state from which, p once told "dead", the last commit is lost. */
  ghost predicate LeadsToLoss(s: System, p: Pid) {
    exists t, u :: Leads(s, t, {p}) && Enabled(t, Dead(p)) && Leads(Step(t, Dead(p)), u, {}) && !LastCommitKept(u.store)
  }

  /** The same, and an update is lost: some commit was not classified against the manifest it replaces. */
  ghost predicate LeadsToLostUpdate(s: System, p: Pid) {
    exists t, u :: Leads(s, t, {p}) && Enabled(t, Dead(p)) && Leads(Step(t, Dead(p)), u, {}) && !S.Chain(u.store.commits)
  }

  /**
    Exactly when a re-read endangers the committed tree.  While another process comes that
    can publish, the re-read of a lock can lead to the loss of the last commit if and only if
    its owner is still running when it is read.  Whether p itself reads or publishes makes no difference.
  */
  lemma RereadLosesCommitIff(s: System, p: Pid, owner: L.Record, q: Pid)
    requires AtReread(s, p, owner, q)
    ensures Enabled(s, Reread(p))
    ensures LeadsToLoss(Step(s, Reread(p)), p) <==> L.Live(s.locks, owner.pid)
  {
    assert p in s.works by { assert WorksOk(s); }
    var s' := Step(s, Reread(p));
    if L.Live(s.locks, owner.pid) {
      var t := RereadOfLiveOwnerLoosens(s, p, owner, q);
      hide Leads, Loose, Enabled;
      var u := LooseLosesTheRoot(Step(t, Dead(p)), p, q);
      assert !LastCommitKept(u.store);
    } else {
      forall t, u | Leads(s', t, {p}) && Enabled(t, Dead(p)) && Leads(Step(t, Dead(p)), u, {}) ensures LastCommitKept(u.store) {
        RereadOfDeadOwnerKeepsInv(s, p, owner, t, u);
        InvGivesAll(u);
      }
    }
  }

  /**
    Exactly when a re-read endangers an update: of p and a coming process, both of which can
    publish, at least one with a changed manifest, one can overwrite the other's commit if and
    only if the owner is still running when it is read.
  */
  lemma RereadLosesUpdateIff(s: System, p: Pid, owner: L.Record, q: Pid)
    requires AtReread(s, p, owner, q) && p in s.works
    requires var last := S.Last(s.store.commits);
      CanPublish(s.works[p], last) && (CanChange(s.works[p], last) || CanChange(s.works[q], last))
    ensures Enabled(s, Reread(p))
    ensures LeadsToLostUpdate(Step(s, Reread(p)), p) <==> L.Live(s.locks, owner.pid)
  {
    var s' := Step(s, Reread(p));
    if L.Live(s.locks, owner.pid) {
      var t := RereadOfLiveOwnerLoosens(s, p, owner, q);
      var u := LooseLosesAnUpdate(Step(t, Dead(p)), p, q);
      hide Leads, Loose;
      var cs := u.store.commits;
      assert !S.Chain(cs) by { assert 1 <= |cs| - 1 < |cs|; }
    } else {
      forall t, u | Leads(s', t, {p}) && Enabled(t, Dead(p)) && Leads(Step(t, Dead(p)), u, {}) ensures S.Chain(u.store.commits) {
        RereadOfDeadOwnerKeepsInv(s, p, owner, t, u);
      }
    }
  }

  // ---------------------------------------------------------------- how many processes

  /** Some run leads from s to t. */
  ghost predicate Arrives(s: System, t: System) {
    exists acts: seq<Act> :: Runs(s, acts) && Exec(s, acts) == t
  }

  lemma ArrivesJoin(s: System, t: System, u: System)
    requires Arrives(s, t) && Arrives(t, u)
    ensures Arrives(s, u)
  {
    var acts: seq<Act> :| Runs(s, acts) && Exec(s, acts) == t;
    var more: seq<Act> :| Runs(t, more) && Exec(t, more) == u;
    RunsJoin(s, acts, more);
  }

  lemma LeadsArrives(s: System, t: System, still: set<Pid>)
    requires Leads(s, t, still)
    ensures Arrives(s, t)
  { }

  lemma RunOf(s: System, t: System) returns (acts: seq<Act>)
    requires Arrives(s, t)
    ensures Runs(s, acts) && Exec(s, acts) == t
  {
    acts :| Runs(s, acts) && Exec(s, acts) == t;
  }

  lemma ActArrives(s: System, a: Act)
    requires Enabled(s, a)
    ensures Arrives(s, Step(s, a))
  {
    OneAct(s, a);
  }

  /** Acquiring locks takes a system of readers no further than the lock. */
  lemma {:induction false} AcquiringLeads(s: System, es: seq<L.Event>)
    requires s.works.Keys == s.locks.procs.Keys && forall p | p in s.works :: s.works[p].Ready?
    requires L.Runs(s.locks, es) && L.CarefulRun(s.locks, es) && R.Acquiring(s.locks, es)
    ensures Leads(s, s.(locks := L.Exec(s.locks, es)), {})
    decreases |es|
  {
    LeadsNowhere(s, {});
    if es != [] {
      var s1 := s.(locks := L.Step(s.locks, es[0]));
      L.StepKeepsProcesses(s.locks, es[0]);
      LockOn(s, s, es[0], {});
      hide Leads, L.Step, L.Enabled, L.Careless;
      AcquiringLeads(s1, es[1..]);
      LeadsJoin(s, s1, s.(locks := L.Exec(s.locks, es)), {});
    }
  }

  function Baseline(): S.Tree { map[S.MANIFEST := [], S.README := []] }

  /** A reviewed baseline, readers outside, and one lock left over from a process that is gone. */
  function StaleStart(ps: set<Pid>, gone: Pid): System {
    System(K.StaleStart(ps, gone),
           S.Store(S.Disk(S.Present(Baseline()), S.Absent, S.Absent, S.NoJournal), [S.Commit(Baseline(), Baseline())]),
           map p | p in ps :: S.Ready(S.Reading))
  }

  /** An initial state of the processes ps. */
  predicate Starts(s: System, ps: set<Pid>) { Init(s) && s.works.Keys == ps }

  /** Readers outside, two of them on their way under a stale lock, and the third with the lock. */
  lemma RereadIsReached(ps: set<Pid>) returns (s: System, v: System, p: Pid, owner: L.Record, q: Pid)
    requires |ps| >= 3
    ensures Starts(s, ps) && Leads(s, v, {}) && AtReread(v, p, owner, q) && L.Live(v.locks, owner.pid)
    ensures v.works.Keys == ps && forall x | x in ps :: v.works[x] == S.Ready(S.Reading)
  {
    hide Inv, Init, AtReread, Leads, L.Runs, L.CarefulRun, L.Exec, R.Acquiring;
    var a, b, c := K.ThreeOf(ps);
    var gone := K.Fresh(ps);
    s := StaleStart(ps, gone);
    StaleStarts(ps, gone);
    var l := K.RereadOfRunningOwner(ps, gone, a, b);
    var es: seq<L.Event> :| L.Runs(s.locks, es) && L.CarefulRun(s.locks, es) && R.Acquiring(s.locks, es) && L.Exec(s.locks, es) == l;
    AcquiringLeads(s, es);
    v, p, owner, q := s.(locks := l), a, L.Record(b, 1), c;
    InitGivesInv(s);
    LeadsKeepsInv(s, v, {});
    ReadersAtReread(v, a, b, c);
  }

  lemma StaleStarts(ps: set<Pid>, gone: Pid)
    requires gone !in ps
    ensures Init(StaleStart(ps, gone))
  { }

  lemma ReadersAtReread(v: System, a: Pid, b: Pid, c: Pid)
    requires Inv(v) && L.At(v.locks, a, L.RereadOwner(L.Record(a, 2))) && L.At(v.locks, c, L.Outside) && c != a && c != b
    requires v.locks.lock == Some(L.LockFile(L.Record(b, 1), true)) && c in v.works && v.works[c] == S.Ready(S.Reading)
    requires v.store == StaleStart({}, 0).store
    ensures AtReread(v, a, L.Record(b, 1), c)
  {
    hide Inv;
  }

  /** Three processes can come to where two readers are loose, and every other one still waits to read. */
  lemma ThreeComeLoose(ps: set<Pid>) returns (s: System, t: System, p: Pid, q: Pid)
    requires |ps| >= 3
    ensures Starts(s, ps) && Arrives(s, t) && Loose(t, p, q) && t.works.Keys == ps
    ensures forall x | x in t.works && L.Live(t.locks, x) :: t.works[x] == S.Ready(S.Reading)
    ensures p in ps && q in ps && t.works[p] == S.Ready(S.Reading) == t.works[q]
  {
    var v: System, owner: L.Record;
    s, v, p, owner, q := RereadIsReached(ps);
    var u := RereadOfLiveOwnerLoosens(v, p, owner, q);
    t := Step(u, Dead(p));
    assert p in ps && q in ps;
    LeadsArrives(s, v, {});
    ActArrives(v, Reread(p));
    LeadsArrives(Step(v, Reread(p)), u, {p});
    ActArrives(u, Dead(p));
    hide Arrives, Leads, Inv, Loose, AtReread, Starts, Step, Enabled;
    ArrivesJoin(s, v, Step(v, Reread(p)));
    ArrivesJoin(s, Step(v, Reread(p)), u);
    ArrivesJoin(s, u, t);
  }

  /** A run of three processes, two of them at work at once, takes the committed tree away from root and the journal. */
  lemma LastCommitCanBeLost(ps: set<Pid>) returns (s: System, acts: seq<Act>)
    requires |ps| >= 3
    ensures Starts(s, ps) && Runs(s, acts)
    ensures var t := Exec(s, acts); LastCommitLost(t.store) && !LastCommitKept(t.store) && !OneWorks(t) && !RecoveriesRight(t) && !ReadersRight(t)
  {
    var t: System, p: Pid, q: Pid;
    s, t, p, q := ThreeComeLoose(ps);
    var u := LooseLosesTheRoot(t, p, q);
    LeadsArrives(t, u, {});
    hide Leads, Loose, Starts, Arrives;
    ArrivesJoin(s, t, u);
    assert Arrives(s, u);
    acts := RunOf(s, u);
    NothingHolds(u, p, q);
  }

  /** With the root gone, a reader just recovered and another worker about to rename, every promise is broken. */
  lemma NothingHolds(u: System, p: Pid, q: Pid)
    requires Inside(u, p) && Inside(u, q) && p != q && u.works[p] == S.Recovered(S.Reading, true) && u.works[q].InstallNew?
    requires LastCommitLost(u.store) && u.store.commits != [] && Publishable(S.Last(u.store.commits))
    ensures !LastCommitKept(u.store) && !OneWorks(u) && !RecoveriesRight(u) && !ReadersRight(u)
  {
    assert S.Critical(u.works[p]) && S.Critical(u.works[q]);
    assert Enabled(u, Working(p, S.Proceed)) && u.works[p].round.Reading?;
  }

  /** A run of three processes overwrites a commit with one that was classified against the tree before it. */
  lemma LostUpdateCanHappen(ps: set<Pid>) returns (s: System, acts: seq<Act>, i: nat)
    requires |ps| >= 3
    ensures Starts(s, ps) && Runs(s, acts)
    ensures var cs := Exec(s, acts).store.commits; 1 <= i < |cs| && !S.SameManifest(cs[i].base, cs[i - 1].tree)
  {
    var t: System, p: Pid, q: Pid;
    s, t, p, q := ThreeComeLoose(ps);
    var u := LooseLosesAnUpdate(t, p, q);
    LeadsArrives(t, u, {});
    hide Leads, Loose, Init;
    ArrivesJoin(s, t, u);
    acts :| Runs(s, acts) && Exec(s, acts) == u;
    i := |u.store.commits| - 1;
  }

  lemma TwoKeepInv(s: System, ps: set<Pid>, acts: seq<Act>)
    requires Starts(s, ps) && |ps| <= 2 && Runs(s, acts)
    ensures Inv(Exec(s, acts))
  {
    InitGivesInv(s);
    assert |s.locks.procs| == |s.locks.procs.Keys|;
    TwoAreCareful(s, acts);
    CarefulRunsKeepInv(s, acts);
  }

  /** In every run of every start of ps: one worker, the last commit kept, every recovery and every reader right. */
  ghost predicate AlwaysOneWorker(ps: set<Pid>) {
    forall s: System, acts: seq<Act> | Starts(s, ps) && Runs(s, acts) :: OneWorks(Exec(s, acts))
  }

  ghost predicate AlwaysKept(ps: set<Pid>) {
    forall s: System, acts: seq<Act> | Starts(s, ps) && Runs(s, acts) :: LastCommitKept(Exec(s, acts).store)
  }

  ghost predicate AlwaysRecovered(ps: set<Pid>) {
    forall s: System, acts: seq<Act> | Starts(s, ps) && Runs(s, acts) :: RecoveriesRight(Exec(s, acts))
  }

  ghost predicate AlwaysRead(ps: set<Pid>) {
    forall s: System, acts: seq<Act> | Starts(s, ps) && Runs(s, acts) :: ReadersRight(Exec(s, acts))
  }

  ghost predicate AlwaysChained(ps: set<Pid>) {
    forall s: System, acts: seq<Act> | Starts(s, ps) && Runs(s, acts) :: S.Chain(Exec(s, acts).store.commits)
  }

  /**
    Crash atomicity holds in every run, with no assumption about timing, exactly when at most
    two processes take part; so do mutual exclusion, the outcome of recovery and what readers see.
  */
  lemma CrashAtomicIffAtMostTwo(ps: set<Pid>)
    ensures AlwaysKept(ps) <==> |ps| <= 2
    ensures AlwaysOneWorker(ps) <==> |ps| <= 2
    ensures AlwaysRecovered(ps) <==> |ps| <= 2
    ensures AlwaysRead(ps) <==> |ps| <= 2
  {
    if |ps| <= 2 {
      forall s: System, acts: seq<Act> | Starts(s, ps) && Runs(s, acts)
        ensures var t := Exec(s, acts); OneWorks(t) && LastCommitKept(t.store) && RecoveriesRight(t) && ReadersRight(t)
      {
        TwoKeepInv(s, ps, acts);
        InvGivesAll(Exec(s, acts));
      }
    } else {
      var s, acts := LastCommitCanBeLost(ps);
    }
  }

  /** No update is lost in any run, with no assumption about timing, exactly when at most two processes take part. */
  lemma NoLostUpdateIffAtMostTwo(ps: set<Pid>)
    ensures AlwaysChained(ps) <==> |ps| <= 2
  {
    if |ps| <= 2 {
      forall s: System, acts: seq<Act> | Starts(s, ps) && Runs(s, acts) ensures S.Chain(Exec(s, acts).store.commits) {
        TwoKeepInv(s, ps, acts);
      }
    } else {
      var s, acts, i := LostUpdateCanHappen(ps);
      assert !S.Chain(Exec(s, acts).store.commits);
    }
  }

  // ---------------------------------------------------------------- what is lost stays lost

  /** Work that can put nothing at root again: it does not hold a staged tree or a backup in hand. */
  predicate PutsNothingBack(w: S.Work) {
    || w.Ready? || w.FindJournal? || w.Recovered? || w.Reviewed? || w.Stopped?
    || (w.Leaving? && (w.next.Reviewed? || w.next.Stopped?))
  }

  ghost predicate LostForGood(s: System) {
    LastCommitLost(s.store) && forall p | L.Live(s.locks, p) && p in s.works :: PutsNothingBack(s.works[p])
  }

  lemma LostMove(st: S.Store, w: S.Work, m: S.Move)
    requires LastCommitLost(st) && PutsNothingBack(w) && S.Enabled(st, w, m)
    ensures S.Step(st, w, m).0 == st && PutsNothingBack(S.Step(st, w, m).1)
  { }

  lemma LostStep(s: System, a: Act)
    requires LostForGood(s) && Enabled(s, a)
    ensures Step(s, a).store == s.store && LostForGood(Step(s, a))
  {
    var s' := Step(s, a);
    match a
    case Locking(e) => forall p | L.Live(s'.locks, p) ensures L.Live(s.locks, p) { OthersStand(s.locks, e, p); }
    case Working(p, m) => LostMove(s.store, s.works[p], m);
  }

  /** Once no process has the lost tree in hand, no run brings it back: recovery returns at once without a journal. */
  lemma {:induction false} LostStaysLost(s: System, acts: seq<Act>)
    requires LostForGood(s) && Runs(s, acts)
    ensures Exec(s, acts).store == s.store
    decreases |acts|
  {
    hide LostForGood;
    if acts != [] {
      LostStep(s, acts[0]);
      LostStaysLost(Step(s, acts[0]), acts[1..]);
    }
  }

  /** The rename of the other worker fails, because its candidate was taken away too. */
  function RenameFails(u: System, q: Pid): System
    requires q in u.works
  {
    Worked(u, q, u.store, S.Leaving(S.Stopped))
  }

  lemma NothingInHand(t: System, u: System, p: Pid, q: Pid)
    requires forall x | x in t.works && L.Live(t.locks, x) :: t.works[x] == S.Ready(S.Reading)
    requires OthersIdle(t, u, p, q) && p in u.works && q in u.works && u.works[p].Recovered? && LastCommitLost(u.store)
    ensures LostForGood(RenameFails(u, q))
  {
    var v := RenameFails(u, q);
    forall x | L.Live(v.locks, x) && x in v.works ensures PutsNothingBack(v.works[x]) {
      if x != p && x != q { assert L.Live(t.locks, x) && u.works[x] == t.works[x]; }
    }
  }

  lemma LoseForGood(t: System, p: Pid, q: Pid) returns (v: System)
    requires Loose(t, p, q) && forall x | x in t.works && L.Live(t.locks, x) :: t.works[x] == S.Ready(S.Reading)
    ensures Leads(t, v, {}) && LostForGood(v)
  {
    hide Leads, LostForGood, Loose, OthersIdle;
    var u := LooseLosesTheRoot(t, p, q);
    NothingInHand(t, u, p, q);
    v := RenameFails(u, q);
    CandidateIsGone(u.store, u.works[q]);
    hide S.Call, S.Enabled;
    CallLeads(t, u, q, {});
  }

  lemma CandidateIsGone(st: S.Store, w: S.Work)
    requires w.InstallNew? && st.disk.staged == S.Absent
    ensures S.Call(st, w) == (st, S.Leaving(S.Stopped)) && S.Enabled(st, w, S.Proceed)
  { }

  /** The loss can be for good. */
  lemma LossCanBeForGood(ps: set<Pid>) returns (s: System, acts: seq<Act>)
    requires |ps| >= 3
    ensures Starts(s, ps) && Runs(s, acts) && LostForGood(Exec(s, acts))
  {
    hide Leads, Loose, LostForGood, Init;
    var t: System, p: Pid, q: Pid;
    s, t, p, q := ThreeComeLoose(ps);
    var v := LoseForGood(t, p, q);
    LeadsArrives(t, v, {});
    ArrivesJoin(s, t, v);
    acts :| Runs(s, acts) && Exec(s, acts) == v;
  }

  // ---------------------------------------------------------------- what recovery leaves behind

  /** A reviewed baseline, readers outside, and no lock. */
  function CleanStart(ps: set<Pid>): System {
    StaleStart(ps, 0).(locks := L.State(None, None, map p | p in ps :: L.Proc(true, L.Outside), 0))
  }

  /** A publisher clears the staging directory and fails. */
  lemma FailsStaging(s: System, t: System, a: Pid, base: S.Tree, want: S.Tree) returns (u: System)
    requires Leads(s, t, {}) && Owns(t, a) && t.works[a] == S.ClearStaged(base, want) && CleanStore(t.store)
    ensures Leads(s, u, {}) && Owns(u, a) && OnlyMoved(t, u, a) && u.works[a] == S.Leaving(S.Stopped)
    ensures u.store == t.store.(disk := t.store.disk.(staged := S.Present(map[])))
  {
    hide Leads;
    B.Clears(t.store, base, want);
    var target := B.Target(t.store, want);
    var st := t.store.(disk := t.store.disk.(staged := S.Present(map[])));
    WorkLeads(s, t, a, st, S.FillStaged(base, target, target.Keys), {});
    u := Worked(t, a, st, S.FillStaged(base, target, target.Keys));
    hide CleanStore;
    ActLeads(s, u, a, S.Throw, {});
    u := Worked(u, a, st, S.Leaving(S.Stopped));
  }

  lemma StagedIsStillValid(st: S.Store)
    requires CleanStore(st)
    ensures var st' := st.(disk := st.disk.(staged := S.Present(map[]))); S.DiskInv(st') && st'.disk.journal == S.NoJournal
  { }

  /** A publisher fails while it stages, and gives the lock back. */
  lemma FailsWhileStaging(s: System, a: Pid) returns (u: System)
    requires Comes(s, a) && s.works[a] == S.Ready(S.Reading) && s.locks.lock == None && Recoverable(s.store)
    ensures Leads(s, u, {}) && OnlyMoved(s, u, a) && u.locks.lock == None
    ensures u.store.disk.staged.Present? && u.store.disk.journal == S.NoJournal && S.DiskInv(u.store)
  {
    hide Leads, CleanStore, S.DiskInv, Recoverable, OnlyMoved;
    LeadsNowhere(s, {});
    Enters(s, s, a, {});
    EntersAlone(s, a);
    var t := Entered(s, a);
    var base, want;
    u, base, want := PassesCheck(s, t, a, {});
    StagedIsStillValid(u.store);
    var v := FailsStaging(s, u, a, base, want);
    hide Entered;
    Leaves(s, v, a, {});
    LeavesAlone(s, t, u, v, a);
    u := Locked(v, a, L.Outside, None, v.locks.reclaim, v.locks.tokens);
  }

  lemma EntersAlone(s: System, a: Pid)
    requires Comes(s, a) && s.locks.lock == None
    ensures OnlyMoved(s, Entered(s, a), a) && Owns(Entered(s, a), a)
    ensures Entered(s, a).store == s.store && Entered(s, a).works == s.works
  { }

  lemma LeavesAlone(s: System, t: System, u: System, v: System, a: Pid)
    requires OnlyMoved(s, t, a) && OnlyMoved(t, u, a) && OnlyMoved(u, v, a) && a in v.locks.procs
    ensures OnlyMoved(s, Locked(v, a, L.Outside, None, v.locks.reclaim, v.locks.tokens), a)
  { }

  /** The next reader finds no journal, and its recovery is over with the files still there. */
  lemma ReaderRecovers(s: System, t: System, b: Pid) returns (u: System)
    requires Leads(s, t, {}) && Comes(t, b) && t.works[b] == S.Ready(S.Reading) && t.locks.lock == None
    requires S.DiskInv(t.store) && t.store.disk.journal == S.NoJournal && t.store.disk.staged.Present?
    ensures Leads(s, u, {}) && L.Live(u.locks, b)
    ensures b in u.works && u.works[b] == S.Recovered(S.Reading, false) && u.store.disk.staged.Present?
  {
    hide Leads;
    Enters(s, t, b, {});
    var st := B.Recovers(t.store, S.Reading);
    hide S.DiskInv;
    WorkLeads(s, Entered(t, b), b, st, S.Recovered(S.Reading, false), {});
    u := Worked(Entered(t, b), b, st, S.Recovered(S.Reading, false));
  }

  /** Staged files can outlive a recovery: a publisher failed before the journal, so the next reader finds none. */
  lemma StagedCanOutliveRecovery(s: System, a: Pid, b: Pid) returns (u: System)
    requires a != b && s == CleanStart({a, b})
    ensures Init(s) && s.store.disk.staged == S.Absent && Leads(s, u, {}) && L.Live(u.locks, b)
    ensures b in u.works && u.works[b] == S.Recovered(S.Reading, false) && u.store.disk.staged.Present?
  {
    assert Init(s);
    var t := FailsWhileStaging(s, a);
    assert Comes(t, b) && t.works[b] == S.Ready(S.Reading);
    hide Leads, Init, OnlyMoved, S.DiskInv, Comes;
    u := ReaderRecovers(s, t, b);
  }

  /** That is the only way: where a recovery has ended and staged files are left, it found no journal. */
  lemma StagedOutlivesOnlyWithoutJournal(s: System, acts: seq<Act>, p: Pid)
    requires Init(s) && Runs(s, acts) && CarefulRun(s, acts)
    requires var t := Exec(s, acts); L.Live(t.locks, p) && p in t.works && t.works[p].Recovered? && t.store.disk.staged.Present?
    ensures !Exec(s, acts).works[p].hadJournal
  {
    RecoveryOutcome(s, acts);
  }
}
