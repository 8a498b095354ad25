/**
  One process of BaselineStore without interference: whatever order a recursive delete
  or a copy takes, a run in which no call fails comes to an end, and leaves exactly
  what the uninterrupted procedures of BaselineFiles leave.
*/
module BaselineRuns {
  import opened Common
  import opened BaselineStore
  import opened BaselineFiles

  predicate Unfailing(m: Move) { !m.Throw? && !m.Choose? }

  predicate Runs(st: Store, w: Work, ms: seq<Move>)
    decreases |ms|
  {
    ms == [] || (Unfailing(ms[0]) && Enabled(st, w, ms[0]) && Runs(Step(st, w, ms[0]).0, Step(st, w, ms[0]).1, ms[1..]))
  }

  function Exec(st: Store, w: Work, ms: seq<Move>): (Store, Work)
    requires Runs(st, w, ms)
    decreases |ms|
  {
    if ms == [] then (st, w) else Exec(Step(st, w, ms[0]).0, Step(st, w, ms[0]).1, ms[1..])
  }

  // ---------------------------------------------------------------- where a run ends

  /** The renames done: the target at root and nothing else. */
  function Switch(st: Store, base: Tree, target: Tree): Store {
    Store(Disk(Present(target), Absent, Absent, NoJournal), st.commits + [Commit(target, base)])
  }

  /** From the cleared staging directory on. */
  function Install(st: Store, base: Tree, want: Tree): Store {
    if st.disk.root.Present? && README in st.disk.root.files then Switch(st, base, want[README := st.disk.root.files[README]])
    else st.(disk := st.disk.(staged := Present(map[])))
  }

  /** From a recovery that has ended, if it ended. */
  function AfterRecovery(st: Store, recovered: Option<Disk>, round: Round): Store {
    if recovered.None? then st
    else
      var now := st.(disk := recovered.value);
      match round
      case Reading => now
      case Publishing(base, want) =>
        if now.disk.root.Present? && SameManifest(now.disk.root.files, base) then Install(now, base, want) else now
  }

  /** What a run from here leaves if no call fails. */
  function Destiny(st: Store, w: Work): Store {
    match w
    case Ready(round) => AfterRecovery(st, Recovery(st.disk), round)
    case FindJournal(round) => AfterRecovery(st, Recovery(st.disk), round)
    case ParseJournal(round) => AfterRecovery(st, Recovery(st.disk), round)
    case ProbeRoot(round) => AfterRecovery(st, Recovery(st.disk), round)
    case ProbePrevious(round, _) => AfterRecovery(st, Recovery(st.disk), round)
    case ProbeStaged(round, _, _) => AfterRecovery(st, Recovery(st.disk), round)
    case Restore(round, _) => AfterRecovery(st, Recovery(st.disk), round)
    case DropBackup(round, _) => AfterRecovery(st, Recovery(st.disk), round)
    case DropCandidate(round) => AfterRecovery(st, Recovery(st.disk), round)
    case DropJournal(round) => AfterRecovery(st, Recovery(st.disk), round)
    case Recovered(round, _) => AfterRecovery(st, Some(st.disk), round)
    case ClearStaged(base, want) => Install(st, base, want)
    case MakeStaged(base, want) => Install(st, base, want)
    case CopyReadme(base, want) => Install(st, base, want)
    case FillStaged(base, target, _) => Switch(st, base, target)
    case OpenJournal(base, target) => Switch(st, base, target)
    case FillJournal(base, target) => Switch(st, base, target)
    case MoveOld(base, target) => Switch(st, base, target)
    case InstallNew(base, target) => Switch(st, base, target)
    case DropOld => st.(disk := st.disk.(previous := Absent, journal := NoJournal))
    case CloseJournal => st.(disk := st.disk.(previous := Absent, journal := NoJournal))
    case Leaving(_) => st
    case Reviewed(_) => st
    case Stopped => st
  }

  /** In the middle of recovery, even of a recursive delete, what recovery will make of the disk is settled. */
  lemma RecoveryIsSettled(st: Store, w: Work, m: Move)
    requires StoreInv(st, w) && (Probing(w) || Repairing(w)) && Enabled(st, w, m)
    ensures var (st', w') := Step(st, w, m);
      && Recovery(st'.disk) == Recovery(st.disk) && st'.commits == st.commits
      && (w'.Recovered? ==> Recovery(st.disk) == Some(st'.disk))
      && (Unfailing(m) && w'.Leaving? ==> Recovery(st.disk) == None && st' == st)
  {
    hide Chain, Known, SubTree, SameManifest, SameReadme;
  }

  lemma RecoveringKeepsRound(st: Store, w: Work, m: Move, round: Round)
    requires Enabled(st, w, m) && Unfailing(m) && Destination(w) == Some(round) && (Probing(w) || Repairing(w))
    ensures var w' := Step(st, w, m).1; Destination(w') == Some(round) || w'.Leaving?
  { }

  /** The round that a recovery serves. */
  function Destination(w: Work): Option<Round> {
    match w
    case Ready(round) => Some(round)
    case FindJournal(round) => Some(round)
    case ParseJournal(round) => Some(round)
    case ProbeRoot(round) => Some(round)
    case ProbePrevious(round, _) => Some(round)
    case ProbeStaged(round, _, _) => Some(round)
    case Restore(round, _) => Some(round)
    case DropBackup(round, _) => Some(round)
    case DropCandidate(round) => Some(round)
    case DropJournal(round) => Some(round)
    case Recovered(round, _) => Some(round)
    case _ => None
  }

  lemma DestinyOfRecovery(st: Store, w: Work)
    requires Destination(w).Some?
    ensures Destiny(st, w) == AfterRecovery(st, if w.Recovered? then Some(st.disk) else Recovery(st.disk), Destination(w).value)
  { }

  lemma RecoveryKeepsDestiny(st: Store, w: Work, m: Move)
    requires StoreInv(st, w) && (Probing(w) || Repairing(w)) && Enabled(st, w, m) && Unfailing(m)
    ensures Destiny(Step(st, w, m).0, Step(st, w, m).1) == Destiny(st, w)
  {
    var (st', w') := Step(st, w, m);
    RecoveryIsSettled(st, w, m);
    RecoveringKeepsRound(st, w, m, Destination(w).value);
    DestinyOfRecovery(st, w);
    if !w'.Leaving? { DestinyOfRecovery(st', w'); }
    hide StoreInv, Step, Recovery;
  }

  lemma StartKeepsDestiny(st: Store, w: Work)
    requires StoreInv(st, w) && (w.Ready? || w.Recovered?)
    ensures Destiny(Call(st, w).0, Call(st, w).1) == Destiny(st, w)
  {
    hide Chain, Known, SubTree, SameReadme, Current;
  }

  lemma StagingKeepsDestiny(st: Store, w: Work, m: Move)
    requires StoreInv(st, w) && Enabled(st, w, m) && Unfailing(m)
    requires w.ClearStaged? || w.MakeStaged? || w.CopyReadme? || w.FillStaged?
    ensures Destiny(Step(st, w, m).0, Step(st, w, m).1) == Destiny(st, w)
  {
    hide Chain, Known, SubTree, SameManifest, SameReadme, Recovery, AfterRecovery;
  }

  lemma SwitchingKeepsDestiny(st: Store, w: Work, m: Move)
    requires StoreInv(st, w) && Enabled(st, w, m) && Unfailing(m)
    requires !Probing(w) && !Repairing(w) && !w.Ready? && !w.Recovered?
    requires !w.ClearStaged? && !w.MakeStaged? && !w.CopyReadme? && !w.FillStaged?
    ensures Destiny(Step(st, w, m).0, Step(st, w, m).1) == Destiny(st, w)
  {
    hide Chain, Known, SubTree, SameManifest, SameReadme, Recovery, AfterRecovery, Install;
  }

  /** Every step that does not fail keeps the end of the run. */
  lemma StepKeepsDestiny(st: Store, w: Work, m: Move)
    requires StoreInv(st, w) && Enabled(st, w, m) && Unfailing(m)
    ensures Destiny(Step(st, w, m).0, Step(st, w, m).1) == Destiny(st, w)
  {
    hide StoreInv, Destiny;
    if Probing(w) || Repairing(w) {
      RecoveryKeepsDestiny(st, w, m);
    } else if w.Ready? || w.Recovered? {
      StartKeepsDestiny(st, w);
    } else if w.ClearStaged? || w.MakeStaged? || w.CopyReadme? || w.FillStaged? {
      StagingKeepsDestiny(st, w, m);
    } else {
      SwitchingKeepsDestiny(st, w, m);
    }
  }

  predicate Ended(w: Work) { w.Leaving? || w.Reviewed? || w.Stopped? }

  lemma {:induction false} RunsKeepDestiny(st: Store, w: Work, ms: seq<Move>)
    requires StoreInv(st, w) && Runs(st, w, ms)
    ensures Destiny(Exec(st, w, ms).0, Exec(st, w, ms).1) == Destiny(st, w)
    decreases |ms|
  {
    if ms != [] {
      StepKeepsInv(st, w, ms[0]);
      StepKeepsDestiny(st, w, ms[0]);
      RunsKeepDestiny(Step(st, w, ms[0]).0, Step(st, w, ms[0]).1, ms[1..]);
    }
  }

  /** The end of a publication is that of the procedure run in one piece. */
  lemma DestinyIsPublish(st: Store, base: Tree, want: Tree)
    requires DiskInv(st) && MANIFEST in base
    ensures var (outcome, after) := Publish(st.disk, want, base[MANIFEST], Completes);
      Destiny(st, Ready(Publishing(base, want))) ==
        Store(after, if outcome == Published then st.commits + [Commit(after.root.files, base)] else st.commits)
  {
    hide SubTree;
  }

  /**
    Whatever order deletes and copies take, a publication that reaches its end without a
    failing call leaves exactly the disk of the procedure, and one commit exactly when it published.
  */
  lemma RunIsPublish(st: Store, base: Tree, want: Tree, ms: seq<Move>)
    requires StoreInv(st, Ready(Publishing(base, want))) && MANIFEST in base
    requires Runs(st, Ready(Publishing(base, want)), ms) && Ended(Exec(st, Ready(Publishing(base, want)), ms).1)
    ensures var (outcome, after) := Publish(st.disk, want, base[MANIFEST], Completes);
      Exec(st, Ready(Publishing(base, want)), ms).0 ==
        Store(after, if outcome == Published then st.commits + [Commit(after.root.files, base)] else st.commits)
  {
    DiskIsOk(st, Ready(Publishing(base, want)));
    hide Publish, Runs, Exec, StoreInv, Destiny;
    RunsKeepDestiny(st, Ready(Publishing(base, want)), ms);
    DestinyIsPublish(st, base, want);
    EndIsDestiny(Exec(st, Ready(Publishing(base, want)), ms).0, Exec(st, Ready(Publishing(base, want)), ms).1);
  }

  lemma DiskIsOk(st: Store, w: Work)
    requires StoreInv(st, w)
    ensures DiskInv(st)
  {
    hide DiskInv, Chain, WorkOk;
  }

  lemma EndIsDestiny(st: Store, w: Work)
    requires Ended(w)
    ensures Destiny(st, w) == st
  { }

  /**
    An undisturbed publication, by name: it commits the candidate with the reviewed
    "README.md" exactly where the reviewed "manifest.json" is that of its base, and otherwise
    leaves the reviewed tree.
  */
  lemma RunPublishesByName(st: Store, base: Tree, want: Tree, ms: seq<Move>)
    requires StoreInv(st, Ready(Publishing(base, want))) && st.disk.journal != Torn
    requires Runs(st, Ready(Publishing(base, want)), ms) && Ended(Exec(st, Ready(Publishing(base, want)), ms).1)
    requires var last := Last(st.commits); "manifest.json" in base && "manifest.json" in last && "README.md" in last
    ensures var last, end := Last(st.commits), Exec(st, Ready(Publishing(base, want)), ms).0;
      var tree := want["README.md" := last["README.md"]];
      if base["manifest.json"] == last["manifest.json"] then
        end == Store(Disk(Present(tree), Absent, Absent, NoJournal), st.commits + [Commit(tree, base)])
      else end.disk.root == Present(last) && end.commits == st.commits
  {
    DiskIsOk(st, Ready(Publishing(base, want)));
    hide Publish, Runs, Exec, StoreInv, DiskInv;
    RunIsPublish(st, base, want, ms);
    PublicationOverLast(st, want, base["manifest.json"]);
  }

  /** A check that reaches its end leaves exactly the recovered disk, or stops at a torn journal with the disk untouched. */
  lemma RunIsRecovery(st: Store, ms: seq<Move>)
    requires StoreInv(st, Ready(Reading)) && Runs(st, Ready(Reading), ms) && Ended(Exec(st, Ready(Reading), ms).1)
    ensures Exec(st, Ready(Reading), ms).0
      == if Recovery(st.disk).Some? then st.(disk := Recovery(st.disk).value) else st
  {
    RunsKeepDestiny(st, Ready(Reading), ms);
  }

  // ---------------------------------------------------------------- every run ends

  /** A process that has not stopped has a call to make that need not fail. */
  lemma NeverStuck(st: Store, w: Work)
    requires StoreInv(st, w) && !w.Stopped?
    ensures exists m :: Unfailing(m) && !m.Scribble? && Enabled(st, w, m)
  {
    hide Chain, Known, SubTree, SameManifest, SameReadme;
    if Deleting(w) && Victim(st.disk, w).Present? && Victim(st.disk, w).files != map[] {
      var name :| name in Victim(st.disk, w).files;
      assert Enabled(st, w, Pick(name));
    } else if w.FillStaged? && w.todo != {} {
      var name :| name in w.todo;
      assert Enabled(st, w, Pick(name));
    } else {
      assert Enabled(st, w, Proceed);
    }
  }

  function Rank(w: Work): nat {
    match w
    case Ready(_) => 24
    case FindJournal(_) => 23
    case ParseJournal(_) => 22
    case ProbeRoot(_) => 21
    case ProbePrevious(_, _) => 20
    case ProbeStaged(_, _, _) => 19
    case Restore(_, _) => 18
    case DropBackup(_, _) => 17
    case DropCandidate(_) => 16
    case DropJournal(_) => 15
    case Recovered(_, _) => 14
    case ClearStaged(_, _) => 13
    case MakeStaged(_, _) => 12
    case CopyReadme(_, _) => 11
    case FillStaged(_, _, _) => 10
    case OpenJournal(_, _) => 9
    case FillJournal(_, _) => 8
    case MoveOld(_, _) => 7
    case InstallNew(_, _) => 6
    case DropOld => 5
    case CloseJournal => 4
    case Leaving(_) => 3
    case Reviewed(_) => 1
    case Stopped => 0
  }

  /** Files that a delete or a copy still has to handle. */
  function Remaining(st: Store, w: Work): nat {
    if Deleting(w) && Victim(st.disk, w).Present? then |Victim(st.disk, w).files|
    else if w.FillStaged? then |w.todo|
    else 0
  }

  lemma RecoveryDescends(st: Store, w: Work)
    requires Destination(w).Some?
    ensures Rank(Call(st, w).1) < Rank(w)
  {
    hide SameManifest;
  }

  lemma PublicationDescends(st: Store, w: Work)
    requires Destination(w).None? && !w.Stopped? && (w.Leaving? ==> w.next.Reviewed? || w.next.Stopped?)
    ensures Rank(Call(st, w).1) < Rank(w)
  { }

  lemma CallsDescend(st: Store, w: Work)
    requires StoreInv(st, w) && Enabled(st, w, Proceed)
    ensures Rank(Call(st, w).1) < Rank(w)
  {
    assert w.Leaving? ==> w.next.Reviewed? || w.next.Stopped?;
    hide StoreInv, Call, Rank;
    if Destination(w).Some? { RecoveryDescends(st, w); } else { PublicationDescends(st, w); }
  }

  lemma PicksDescend(st: Store, w: Work, name: string)
    requires Enabled(st, w, Pick(name))
    ensures var (st', w') := Step(st, w, Pick(name)); Rank(w') == Rank(w) && Remaining(st', w') < Remaining(st, w)
  {
    if Deleting(w) {
      var files := Victim(st.disk, w).files;
      assert files.Keys == (files - {name}).Keys + {name};
      assert |files| == |files.Keys| && |files - {name}| == |(files - {name}).Keys|;
    } else {
      assert w.todo == (w.todo - {name}) + {name};
    }
  }

  /** Every call that does not fail, other than a partial write, comes nearer to the end. */
  lemma StepsDescend(st: Store, w: Work, m: Move)
    requires StoreInv(st, w) && Enabled(st, w, m) && Unfailing(m) && !m.Scribble?
    ensures var (st', w') := Step(st, w, m); Rank(w') < Rank(w) || (Rank(w') == Rank(w) && Remaining(st', w') < Remaining(st, w))
  {
    hide StoreInv, Remaining, Rank, Call;
    if m.Pick? { PicksDescend(st, w, m.name); } else { CallsDescend(st, w); }
  }
}
