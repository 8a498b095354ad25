/**
  The advisory lock of scripts/ci/fresh-cargo-resolution.js: a create-exclusive
  lock file, and a second create-exclusive reclaim lock under which a lock whose
  owner has died may be deleted.

  Every transition is one file-system call or one liveness probe of one process.
  A process may stop for ever in front of any of them.  Process ids are never
  reused; that a reused pid makes a dead owner look alive is covered by probes
  that may answer "running" for a dead process.
*/
module PublicationLock {
  import opened Common

  type Pid = nat

  // The JSON record that an owner writes into its lock file.
  datatype Record = Record(pid: Pid, token: nat)

  // openSync(path, 'wx') creates the file empty; the record arrives with a later write.
  datatype LockFile = LockFile(owner: Record, written: bool)

  // What a reclaimer does once it has given the reclaim lock back: `finally` runs on every way out.
  datatype Then = Retry | Return(mine: Record) | Throw

  // Where one process stands.  `reclaim` is the record of the reclaim lock it owns,
  // `mine` the record of the publication lock it owns.
  datatype Pc =
    | Outside
    | TryLock
    | WriteLock(mine: Record, via: Option<Record>)
    | ReadOwner
    | ProbeOwner(owner: Record)
    | TryReclaim
    | WriteReclaim(reclaim: Record)
    | RereadOwner(reclaim: Record)
    | ReprobeOwner(reclaim: Record, owner: Record)
    | RemoveStale(reclaim: Record, owner: Record)
    | Relock(reclaim: Record)
    | RereadFailed(reclaim: Record)
    | ReadReclaim(reclaim: Record, then_: Then)
    | RemoveReclaim(reclaim: Record, then_: Then)
    | Holding(mine: Record)
    | ReadOwn(mine: Record)
    | RemoveOwn(mine: Record)

  datatype Proc = Proc(live: bool, pc: Pc)

  datatype State = State(
    lock: Option<LockFile>,
    reclaim: Option<LockFile>,
    procs: map<Pid, Proc>,
    tokens: nat)

  // What the environment decides about the next call of a process.
  datatype Choice =
    | Proceed               // the call happens
    | Says(running: bool)   // the liveness probe answers
    | WriteFails            // writing a fresh lock record fails
    | Crash                 // the process stops for ever

  datatype Event = Event(pid: Pid, choice: Choice)

  predicate Live(s: State, p: Pid) {
    p in s.procs && s.procs[p].live
  }

  predicate At(s: State, p: Pid, pc: Pc) {
    p in s.procs && s.procs[p] == Proc(true, pc)
  }

  /** The record of the publication lock that a process at `pc` owns, and whether it is written. */
  function Owns(pc: Pc): Option<LockFile> {
    match pc
    case WriteLock(mine, _) => Some(LockFile(mine, false))
    case Holding(mine) => Some(LockFile(mine, true))
    case ReadOwn(mine) => Some(LockFile(mine, true))
    case RemoveOwn(mine) => Some(LockFile(mine, true))
    case ReadReclaim(_, Return(mine)) => Some(LockFile(mine, true))
    case RemoveReclaim(_, Return(mine)) => Some(LockFile(mine, true))
    case _ => None
  }

  /** The record of the reclaim lock that a process at `pc` owns. */
  function OwnsReclaim(pc: Pc): Option<LockFile> {
    match pc
    case WriteReclaim(r) => Some(LockFile(r, false))
    case RereadOwner(r) => Some(LockFile(r, true))
    case RereadFailed(r) => Some(LockFile(r, true))
    case ReprobeOwner(r, _) => Some(LockFile(r, true))
    case RemoveStale(r, _) => Some(LockFile(r, true))
    case Relock(r) => Some(LockFile(r, true))
    case WriteLock(_, Some(r)) => Some(LockFile(r, true))
    case ReadReclaim(r, _) => Some(LockFile(r, true))
    case RemoveReclaim(r, _) => Some(LockFile(r, true))
    case _ => None
  }

  predicate Enabled(s: State, e: Event) {
    && Live(s, e.pid)
    && var pc := s.procs[e.pid].pc;
    match e.choice
    case Crash => true
    case Proceed => !pc.ProbeOwner? && !pc.ReprobeOwner?
    case WriteFails => pc.WriteLock? || pc.WriteReclaim?
    // The probe never calls a running process dead.
    case Says(running) => (pc.ProbeOwner? || pc.ReprobeOwner?) && (running || !Live(s, pc.owner.pid))
  }

  function Goto(s: State, p: Pid, pc: Pc): State {
    s.(procs := s.procs[p := Proc(true, pc)])
  }

  function Stop(s: State, p: Pid): State
    requires p in s.procs
  {
    s.(procs := s.procs[p := s.procs[p].(live := false)])
  }

  function Written(file: Option<LockFile>, mine: Record): Option<LockFile> {
    // The write goes through the descriptor: it cannot reach a file that replaced ours.
    match file
    case Some(LockFile(owner, _)) => if owner == mine then Some(LockFile(mine, true)) else file
    case None => None
  }

  /** One step of one process. */
  function Step(s: State, e: Event): State
    requires Enabled(s, e)
  {
    var p := e.pid;
    var pc := s.procs[p].pc;
    match e.choice
    case Crash => Stop(s, p)
    case WriteFails => FailedWrite(s, p)
    case Says(running) =>
      (match pc
       case ProbeOwner(_) => Goto(s, p, if running then TryLock else TryReclaim)
       case ReprobeOwner(r, owner) => Goto(s, p, if running then ReadReclaim(r, Retry) else RemoveStale(r, owner)))
    case Proceed => Call(s, p)
  }

  // createOwnedLock closes the descriptor, removes whatever is at the path and rethrows.
  function FailedWrite(s: State, p: Pid): State
    requires Live(s, p) && (s.procs[p].pc.WriteLock? || s.procs[p].pc.WriteReclaim?)
  {
    match s.procs[p].pc
    case WriteLock(_, Some(r)) => Goto(s.(lock := None), p, ReadReclaim(r, Throw))
    case WriteLock(_, None) => Stop(s.(lock := None), p)
    case WriteReclaim(_) => Stop(s.(reclaim := None), p)
  }

  function Call(s: State, p: Pid): State
    requires Live(s, p) && !s.procs[p].pc.ProbeOwner? && !s.procs[p].pc.ReprobeOwner?
  {
    var created := Record(p, s.tokens);
    match s.procs[p].pc
    case Outside => Goto(s, p, TryLock)
    case TryLock =>
      if s.lock.Some? then Goto(s, p, ReadOwner)
      else Goto(s.(lock := Some(LockFile(created, false)), tokens := s.tokens + 1), p, WriteLock(created, None))
    case WriteLock(mine, via) =>
      var s' := s.(lock := Written(s.lock, mine));
      Goto(s', p, if via.Some? then ReadReclaim(via.value, Return(mine)) else Holding(mine))
    case ReadOwner =>
      if s.lock.Some? && s.lock.value.written then Goto(s, p, ProbeOwner(s.lock.value.owner)) else Goto(s, p, TryLock)
    case TryReclaim =>
      if s.reclaim.Some? then s
      else Goto(s.(reclaim := Some(LockFile(created, false)), tokens := s.tokens + 1), p, WriteReclaim(created))
    case WriteReclaim(r) => Goto(s.(reclaim := Written(s.reclaim, r)), p, RereadOwner(r))
    case RereadOwner(r) =>
      if s.lock.Some? && s.lock.value.written then
        Goto(s, p, ReprobeOwner(r, s.lock.value.owner))
      else Goto(s, p, RereadFailed(r))
    case RereadFailed(r) => Goto(s, p, ReadReclaim(r, if s.lock.Some? then Throw else Retry))
    case RemoveStale(r, _) =>
      // rmSync removes whatever file is at the path now, and throws when there is none.
      if s.lock.Some? then Goto(s.(lock := None), p, Relock(r)) else Goto(s, p, ReadReclaim(r, Throw))
    case Relock(r) =>
      if s.lock.Some? then Goto(s, p, ReadReclaim(r, Retry))
      else Goto(s.(lock := Some(LockFile(created, false)), tokens := s.tokens + 1), p, WriteLock(created, Some(r)))
    case ReadReclaim(r, next) =>
      if s.reclaim == Some(LockFile(r, true)) then Goto(s, p, RemoveReclaim(r, next)) else Stop(s, p)
    case RemoveReclaim(_, next) =>
      if s.reclaim == None then Stop(s, p)
      else
        (match next
         case Retry => Goto(s.(reclaim := None), p, TryLock)
         case Return(mine) => Goto(s.(reclaim := None), p, Holding(mine))
         case Throw => Stop(s.(reclaim := None), p))
    case Holding(mine) => Goto(s, p, ReadOwn(mine))
    case ReadOwn(mine) =>
      if s.lock == Some(LockFile(mine, true)) then Goto(s, p, RemoveOwn(mine)) else Stop(s, p)
    case RemoveOwn(_) =>
      if s.lock.Some? then Goto(s.(lock := None), p, Outside) else Stop(s, p)
  }

  /** Every process is outside; both lock files may be left over from processes that are gone. */
  predicate Init(s: State) {
    && (forall p | p in s.procs :: s.procs[p] == Proc(true, Outside))
    && (s.lock.Some? ==> s.lock.value.owner.pid !in s.procs)
    && (s.reclaim.Some? ==> s.reclaim.value.owner.pid !in s.procs)
  }

  // ---------------------------------------------------------------- runs

  predicate Runs(s: State, es: seq<Event>)
    decreases |es|
  {
    es == [] || (Enabled(s, es[0]) && Runs(Step(s, es[0]), es[1..]))
  }

  function Exec(s: State, es: seq<Event>): State
    requires Runs(s, es)
    decreases |es|
  {
    if es == [] then s else Exec(Step(s, es[0]), es[1..])
  }

  /** Where a process that may still create the publication lock stands; under the reclaim lock of another it must wait. */
  predicate Contends(pc: Pc) {
    pc.Outside? || pc.TryLock? || pc.ReadOwner? || pc.ProbeOwner?
  }

  predicate Contended(s: State, p: Pid) {
    exists q | q in s.procs :: q != p && Live(s, q) && Contends(s.procs[q].pc)
  }

  /**
    A reclaimer is told "dead" too late: the lock it re-read is gone, and what it deletes
    next belongs to a running process, or to one that may still create it.
  */
  predicate Careless(s: State, e: Event) {
    && Live(s, e.pid) && e.choice == Says(false) && s.procs[e.pid].pc.ReprobeOwner?
    && if s.lock.Some? then Live(s, s.lock.value.owner.pid) else Contended(s, e.pid)
  }

  predicate CarefulRun(s: State, es: seq<Event>)
    requires Runs(s, es)
    decreases |es|
  {
    es == [] || (!Careless(s, es[0]) && CarefulRun(Step(s, es[0]), es[1..]))
  }

  /** At most one live process is between a successful acquire and its release. */
  ghost predicate Exclusion(s: State) {
    forall p, q | InSection(s, p) && InSection(s, q) :: p == q
  }

  predicate InSection(s: State, p: Pid) {
    Live(s, p) && (s.procs[p].pc.Holding? || s.procs[p].pc.ReadOwn? || s.procs[p].pc.RemoveOwn?)
  }

  // ---------------------------------------------------------------- invariant

  // A live owner's file is at the path, with the owner's pid.
  ghost predicate OwnersHold(s: State) {
    forall p | Live(s, p) && Owns(s.procs[p].pc).Some? ::
      s.lock == Owns(s.procs[p].pc) && s.lock.value.owner.pid == p
  }

  ghost predicate ReclaimersHold(s: State) {
    forall p | Live(s, p) && OwnsReclaim(s.procs[p].pc).Some? ::
      s.reclaim == OwnsReclaim(s.procs[p].pc) && s.reclaim.value.owner.pid == p
  }

  // A file that names a live process is owned by it.
  ghost predicate NamedOwn(s: State) {
    s.lock.Some? && Live(s, s.lock.value.owner.pid) ==> Owns(s.procs[s.lock.value.owner.pid].pc) == s.lock
  }

  // Only the owner itself takes away a lock that a reclaimer has re-read.
  ghost predicate ProbesStay(s: State) {
    forall p | Live(s, p) && s.procs[p].pc.ReprobeOwner? ::
      var owner := s.procs[p].pc.owner;
      owner.pid != p && (s.lock == Some(LockFile(owner, true)) || owner.pid in s.procs)
  }

  // A reclaimer about to delete faces a dead process's file, or nothing and nobody to create it.
  ghost predicate DoomedStay(s: State) {
    forall p | Live(s, p) && s.procs[p].pc.RemoveStale? ::
      if s.lock.Some? then !Live(s, s.lock.value.owner.pid) else !Contended(s, p)
  }

  ghost predicate Inv(s: State) {
    OwnersHold(s) && ReclaimersHold(s) && NamedOwn(s) && ProbesStay(s) && DoomedStay(s)
  }

  lemma CrashKeepsInv(s: State, p: Pid)
    requires Inv(s) && Live(s, p)
    ensures Inv(Stop(s, p))
  {
    var s' := Stop(s, p);
    forall q ensures Live(s', q) ==> Live(s, q) && s'.procs[q] == s.procs[q] {}
  }

  lemma AnswerKeepsInv(s: State, p: Pid, running: bool)
    requires Inv(s) && Enabled(s, Event(p, Says(running))) && !Careless(s, Event(p, Says(running)))
    ensures Inv(Step(s, Event(p, Says(running))))
  {
    var s' := Step(s, Event(p, Says(running)));
    forall q | q != p ensures Live(s', q) == Live(s, q) && (Live(s, q) ==> s'.procs[q] == s.procs[q]) {}
  }

  lemma StepKeepsInv(s: State, e: Event)
    requires Inv(s) && Enabled(s, e) && !Careless(s, e)
    ensures Inv(Step(s, e))
  {
    hide Inv;
    match e.choice
    case Crash => CrashKeepsInv(s, e.pid);
    case Says(running) => AnswerKeepsInv(s, e.pid, running);
    case WriteFails => FailedWriteKeepsInv(s, e.pid);
    case Proceed => CallKeepsInv(s, e.pid);
  }

  lemma FailedWriteKeepsInv(s: State, p: Pid)
    requires Inv(s) && Live(s, p) && (s.procs[p].pc.WriteLock? || s.procs[p].pc.WriteReclaim?)
    ensures Inv(FailedWrite(s, p))
  {
    var s' := FailedWrite(s, p);
    forall q | q != p ensures Live(s', q) == Live(s, q) && (Live(s, q) ==> s'.procs[q] == s.procs[q]) {}
  }

  lemma CallKeepsInv(s: State, p: Pid)
    requires Inv(s) && Live(s, p) && !s.procs[p].pc.ProbeOwner? && !s.procs[p].pc.ReprobeOwner?
    ensures Inv(Call(s, p))
  {
    CallKeepsOwners(s, p);
    CallKeepsReclaimers(s, p);
    CallKeepsNamed(s, p);
    CallKeepsProbes(s, p);
    CallKeepsDoomed(s, p);
  }

  lemma CallKeepsOwners(s: State, p: Pid)
    requires Inv(s) && Live(s, p) && !s.procs[p].pc.ProbeOwner? && !s.procs[p].pc.ReprobeOwner?
    ensures OwnersHold(Call(s, p))
  {
    var s' := Call(s, p);
    forall q | Live(s', q) && Owns(s'.procs[q].pc).Some?
      ensures s'.lock == Owns(s'.procs[q].pc) && s'.lock.value.owner.pid == q
    {
      if q != p { assert Live(s, q) && s.procs[q] == s'.procs[q]; }
    }
  }

  lemma CallKeepsReclaimers(s: State, p: Pid)
    requires Inv(s) && Live(s, p) && !s.procs[p].pc.ProbeOwner? && !s.procs[p].pc.ReprobeOwner?
    ensures ReclaimersHold(Call(s, p))
  {
    var s' := Call(s, p);
    forall q | Live(s', q) && OwnsReclaim(s'.procs[q].pc).Some?
      ensures s'.reclaim == OwnsReclaim(s'.procs[q].pc) && s'.reclaim.value.owner.pid == q
    {
      if q != p { assert Live(s, q) && s.procs[q] == s'.procs[q]; }
    }
  }

  lemma CallKeepsNamed(s: State, p: Pid)
    requires Inv(s) && Live(s, p) && !s.procs[p].pc.ProbeOwner? && !s.procs[p].pc.ReprobeOwner?
    ensures NamedOwn(Call(s, p))
  {
    var s' := Call(s, p);
    if s'.lock.Some? && Live(s', s'.lock.value.owner.pid) {
      var q := s'.lock.value.owner.pid;
      if q != p { assert Live(s, q) && s.procs[q] == s'.procs[q]; }
    }
  }

  lemma CallKeepsProbes(s: State, p: Pid)
    requires Inv(s) && Live(s, p) && !s.procs[p].pc.ProbeOwner? && !s.procs[p].pc.ReprobeOwner?
    ensures ProbesStay(Call(s, p))
  {
    var s' := Call(s, p);
    hide Contended;
    forall q | Live(s', q) && s'.procs[q].pc.ReprobeOwner?
      ensures var owner := s'.procs[q].pc.owner;
              owner.pid != q && (s'.lock == Some(LockFile(owner, true)) || owner.pid in s'.procs)
    {
      if q != p { assert Live(s, q) && s.procs[q] == s'.procs[q]; }
    }
  }

  lemma CallKeepsDoomed(s: State, p: Pid)
    requires Inv(s) && Live(s, p) && !s.procs[p].pc.ProbeOwner? && !s.procs[p].pc.ReprobeOwner?
    ensures DoomedStay(Call(s, p))
  {
    var s' := Call(s, p);
    forall q | Live(s', q) && s'.procs[q].pc.RemoveStale?
      ensures if s'.lock.Some? then !Live(s', s'.lock.value.owner.pid) else !Contended(s', q)
    {
      assert q != p && Live(s, q) && s.procs[q] == s'.procs[q];
      assert s'.lock == s.lock;
    }
  }

  lemma InvGivesExclusion(s: State)
    requires Inv(s)
    ensures Exclusion(s)
  {}

  lemma {:induction false} CarefulRunsKeepInv(s: State, es: seq<Event>)
    requires Inv(s) && Runs(s, es) && CarefulRun(s, es)
    ensures Inv(Exec(s, es))
    decreases |es|
  {
    if es != [] {
      StepKeepsInv(s, es[0]);
      CarefulRunsKeepInv(Step(s, es[0]), es[1..]);
    }
  }

  lemma InitGivesInv(s: State)
    requires Init(s)
    ensures Inv(s)
  {}

  /** Safety: every careful run keeps exclusion, and no deletion of a stale lock hits a running process's file. */
  lemma CarefulRunsAreSafe(s: State, es: seq<Event>, p: Pid)
    requires Init(s) && Runs(s, es) && CarefulRun(s, es)
    ensures Exclusion(Exec(s, es))
    ensures var t := Exec(s, es);
            Live(t, p) && t.procs[p].pc.RemoveStale? && t.lock.Some? ==> !Live(t, t.lock.value.owner.pid)
  {
    InitGivesInv(s);
    CarefulRunsKeepInv(s, es);
    InvGivesExclusion(Exec(s, es));
  }

  // ---------------------------------------------------------------- two processes

  /** A careless probe takes three processes: the reclaimer, the owner it re-read, and one that has the lock or may take it. */
  lemma CarelessTakesThree(s: State, e: Event)
    requires Inv(s) && Enabled(s, e) && Careless(s, e)
    ensures |s.procs| >= 3
  {
    var p, owner := e.pid, s.procs[e.pid].pc.owner;
    assert owner.pid in s.procs && !Live(s, owner.pid) && owner.pid != p;
    var q :| q in s.procs && q != p && Live(s, q);
    assert {p, q, owner.pid} <= s.procs.Keys;
    SubsetSize({p, q, owner.pid}, s.procs.Keys);
  }

  lemma SubsetSize(a: set<Pid>, b: set<Pid>)
    requires a <= b
    ensures |a| <= |b|
  {
    assert b == a + (b - a);
  }

  lemma StepKeepsProcesses(s: State, e: Event)
    requires Enabled(s, e)
    ensures Step(s, e).procs.Keys == s.procs.Keys
  {}

  /** With at most two processes every run is careful. */
  lemma {:induction false} TwoAreCareful(s: State, es: seq<Event>)
    requires Inv(s) && Runs(s, es) && |s.procs| <= 2
    ensures CarefulRun(s, es)
    decreases |es|
  {
    if es != [] {
      if Careless(s, es[0]) { CarelessTakesThree(s, es[0]); }
      StepKeepsInv(s, es[0]);
      StepKeepsProcesses(s, es[0]);
      assert |s.procs| == |s.procs.Keys| && |Step(s, es[0]).procs| == |Step(s, es[0]).procs.Keys|;
      TwoAreCareful(Step(s, es[0]), es[1..]);
    }
  }
}
