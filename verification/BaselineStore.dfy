/**
  What the holder of the publication lock does to the reviewed Cargo baseline:
  recoverBaselinePublication, the reading half of checkBaseline, and
  writeBaselineAtomically of scripts/ci/fresh-cargo-resolution.js, one file-system
  call at a time.  A directory is a map from file names to contents, so a
  recursive delete or a half-written copy is a map with some of the files.
*/
module BaselineStore {
  import opened Common

  type Tree = map<string, Bytes>

  const MANIFEST := "manifest.json"
  const README := "README.md"

  datatype Dir = Absent | Present(files: Tree)

  // writeFileSync first truncates: until the write ends, the journal is torn.
  datatype Journal = NoJournal | Torn | Valid

  datatype Disk = Disk(root: Dir, previous: Dir, staged: Dir, journal: Journal)

  // One published tree, with the tree its admission was classified against.
  datatype Commit = Commit(tree: Tree, base: Tree)

  // `commits` is a history variable; the program stores only the disk.
  datatype Store = Store(disk: Disk, commits: seq<Commit>)

  // Which call runs under the lock: checkBaseline, or writeBaselineAtomically for a
  // candidate `want` that was classified against `base`.
  datatype Round = Reading | Publishing(base: Tree, want: Tree)

  datatype Work =
    | Ready(round: Round)
    // recoverBaselinePublication
    | FindJournal(round: Round)
    | ParseJournal(round: Round)
    | ProbeRoot(round: Round)
    | ProbePrevious(round: Round, rootExists: bool)
    | ProbeStaged(round: Round, rootExists: bool, previousExists: bool)
    | Restore(round: Round, stagedExists: bool)
    | DropBackup(round: Round, stagedExists: bool)
    | DropCandidate(round: Round)
    | DropJournal(round: Round)
    | Recovered(round: Round, hadJournal: bool)
    // writeBaselineAtomically
    | ClearStaged(base: Tree, want: Tree)
    | MakeStaged(base: Tree, want: Tree)
    | CopyReadme(base: Tree, want: Tree)
    | FillStaged(base: Tree, target: Tree, todo: set<string>)
    | OpenJournal(base: Tree, target: Tree)
    | FillJournal(base: Tree, target: Tree)
    | MoveOld(base: Tree, target: Tree)
    | InstallNew(base: Tree, target: Tree)
    | DropOld
    | CloseJournal
    // outside the try block
    | Leaving(next: Work)
    | Reviewed(base: Tree)
    | Stopped

  datatype Move =
    | Proceed
    | Throw                                // the current call, or a check between calls, fails
    | Pick(name: string)                   // the file that a recursive delete or a copy handles next
    | Scribble(name: string, junk: Bytes)  // part of a file has been written
    | Choose(want: Tree)                   // the admission decides on a candidate

  predicate Critical(w: Work) {
    !w.Ready? && !w.Leaving? && !w.Reviewed? && !w.Stopped?
  }

  predicate Deleting(w: Work) {
    w.DropBackup? || w.DropCandidate? || w.ClearStaged? || w.DropOld?
  }

  /** The directory that a recursive delete is emptying. */
  function Victim(d: Disk, w: Work): Dir
    requires Deleting(w)
  {
    if w.DropBackup? || w.DropOld? then d.previous else d.staged
  }

  predicate Enabled(st: Store, w: Work, m: Move) {
    match m
    case Proceed => !w.Stopped? && (Deleting(w) ==> Victim(st.disk, w).Present? ==> Victim(st.disk, w).files == map[])
                    && (w.FillStaged? ==> w.todo == {})
    case Throw => Critical(w)
    case Pick(name) => (Deleting(w) && Victim(st.disk, w).Present? && name in Victim(st.disk, w).files)
                       || (w.FillStaged? && name in w.todo && name in w.target && st.disk.staged.Present?)
    case Scribble(name, _) => w.FillStaged? && name in w.todo && st.disk.staged.Present?
    case Choose(_) => w.Reviewed?
  }

  function Step(st: Store, w: Work, m: Move): (r: (Store, Work))
    requires Enabled(st, w, m)
  {
    match m
    case Proceed => Call(st, w)
    case Throw => (st, Leaving(Stopped))
    case Pick(name) => if w.FillStaged? then Fill(st, w, name, w.target[name], w.todo - {name}) else (Unlink(st, w, name), w)
    case Scribble(name, junk) => Fill(st, w, name, junk, w.todo)
    case Choose(want) => (st, Ready(Publishing(w.base, want)))
  }

  function Unlink(st: Store, w: Work, name: string): Store
    requires Deleting(w) && Victim(st.disk, w).Present?
  {
    var rest := Present(Victim(st.disk, w).files - {name});
    if w.DropBackup? || w.DropOld? then st.(disk := st.disk.(previous := rest)) else st.(disk := st.disk.(staged := rest))
  }

  function Fill(st: Store, w: Work, name: string, content: Bytes, todo: set<string>): (Store, Work)
    requires w.FillStaged? && st.disk.staged.Present?
  {
    (st.(disk := st.disk.(staged := Present(st.disk.staged.files[name := content]))), w.(todo := todo))
  }

  function Call(st: Store, w: Work): (Store, Work)
    requires !w.Stopped?
  {
    var d := st.disk;
    match w
    case Ready(round) => (st, FindJournal(round))
    case FindJournal(round) => (st, if d.journal == NoJournal then Recovered(round, false) else ParseJournal(round))
    case ParseJournal(round) => (st, if d.journal == Valid then ProbeRoot(round) else Leaving(Stopped))
    case ProbeRoot(round) => (st, ProbePrevious(round, d.root.Present?))
    case ProbePrevious(round, re) => (st, ProbeStaged(round, re, d.previous.Present?))
    case ProbeStaged(round, re, pe) =>
      var se := d.staged.Present?;
      (st, if !re && pe then Restore(round, se)
           else if re && pe then DropBackup(round, se)
           else if !re then Leaving(Stopped)
           else if se then DropCandidate(round) else DropJournal(round))
    case Restore(round, se) =>
      if d.previous.Present? && d.root.Absent? then
        (st.(disk := d.(root := d.previous, previous := Absent)), if se then DropCandidate(round) else DropJournal(round))
      else (st, Leaving(Stopped))
    case DropBackup(round, se) =>
      (st.(disk := d.(previous := Absent)), if se then DropCandidate(round) else DropJournal(round))
    case DropCandidate(round) => (st.(disk := d.(staged := Absent)), DropJournal(round))
    case DropJournal(round) => (st.(disk := d.(journal := NoJournal)), Recovered(round, true))
    case Recovered(Reading, _) =>
      (st, if d.root.Present? && MANIFEST in d.root.files then Leaving(Reviewed(d.root.files)) else Leaving(Stopped))
    case Recovered(Publishing(base, want), _) =>
      (st, if d.root.Present? && SameManifest(d.root.files, base) then ClearStaged(base, want) else Leaving(Stopped))
    case ClearStaged(base, want) => (st.(disk := d.(staged := Absent)), MakeStaged(base, want))
    case MakeStaged(base, want) =>
      if d.staged.Absent? then (st.(disk := d.(staged := Present(map[]))), CopyReadme(base, want)) else (st, Leaving(Stopped))
    case CopyReadme(base, want) =>
      if d.root.Present? && README in d.root.files then
        var target := want[README := d.root.files[README]];
        (st, FillStaged(base, target, target.Keys))
      else (st, Leaving(Stopped))
    case FillStaged(base, target, _) => (st, OpenJournal(base, target))
    case OpenJournal(base, target) => (st.(disk := d.(journal := Torn)), FillJournal(base, target))
    case FillJournal(base, target) => (st.(disk := d.(journal := Valid)), MoveOld(base, target))
    case MoveOld(base, target) =>
      if d.root.Present? && d.previous.Absent? then
        (st.(disk := d.(previous := d.root, root := Absent)), InstallNew(base, target))
      else (st, Leaving(Stopped))
    case InstallNew(base, target) =>
      if d.staged.Present? && d.root.Absent? then
        (Store(d.(root := d.staged, staged := Absent), st.commits + [Commit(d.staged.files, base)]), DropOld)
      else (st, Leaving(Stopped))
    case DropOld => (st.(disk := d.(previous := Absent)), CloseJournal)
    case CloseJournal => (st.(disk := d.(journal := NoJournal)), Leaving(Stopped))
    case Leaving(next) => (st, next)
    case Reviewed(_) => (st, Stopped)
  }

  /** The digest comparison of the publisher; equal digests stand for equal manifest bytes. */
  predicate SameManifest(t: Tree, u: Tree) {
    MANIFEST in t && MANIFEST in u && t[MANIFEST] == u[MANIFEST]
  }

  predicate SameReadme(t: Tree, u: Tree) {
    README in t && README in u && t[README] == u[README]
  }

  /** Where a call itself throws: what it reads, renames or creates is not there, is in the way, or is not as required. */
  predicate Throws(d: Disk, w: Work) {
    match w
    case ParseJournal(_) => d.journal != Valid
    case ProbeStaged(_, rootExists, previousExists) => !rootExists && !previousExists
    case Restore(_, _) => d.previous.Absent? || d.root.Present?
    case Recovered(Reading, _) => d.root.Absent? || "manifest.json" !in d.root.files
    case Recovered(Publishing(base, _), _) =>
      d.root.Absent? || "manifest.json" !in d.root.files || "manifest.json" !in base
      || d.root.files["manifest.json"] != base["manifest.json"]
    case MakeStaged(_, _) => d.staged.Present?
    case CopyReadme(_, _) => d.root.Absent? || "README.md" !in d.root.files
    case MoveOld(_, _) => d.root.Absent? || d.previous.Present?
    case InstallNew(_, _) => d.staged.Absent? || d.root.Present?
    case _ => false
  }

  /** A call that throws leaves everything as it was and ends the round; no other call ends it but the last and those outside. */
  lemma ThrowingCalls(st: Store, w: Work)
    requires !w.Stopped?
    ensures Throws(st.disk, w) ==> Call(st, w) == (st, Leaving(Stopped))
    ensures Call(st, w).1 == Leaving(Stopped) ==> Throws(st.disk, w) || w.CloseJournal? || w.Leaving?
  { }

  /** The check of the base, by name: a publication goes on exactly where the reviewed "manifest.json" is still its base's. */
  lemma BaseByName(st: Store, base: Tree, want: Tree, had: bool)
    ensures Call(st, Recovered(Publishing(base, want), had)) ==
      (st, if st.disk.root.Present? && "manifest.json" in st.disk.root.files && "manifest.json" in base
              && st.disk.root.files["manifest.json"] == base["manifest.json"]
           then ClearStaged(base, want) else Leaving(Stopped))
  { }

  /** What a completed check returns: a root with its "manifest.json". */
  lemma ReviewByName(st: Store, had: bool)
    ensures Call(st, Recovered(Reading, had)) ==
      (st, if st.disk.root.Present? && "manifest.json" in st.disk.root.files then Leaving(Reviewed(st.disk.root.files))
           else Leaving(Stopped))
  { }

  /** The staged tree, by name: the candidate with the reviewed "README.md". */
  lemma TargetByName(st: Store, base: Tree, want: Tree)
    ensures Call(st, CopyReadme(base, want)) ==
      (st, if st.disk.root.Present? && "README.md" in st.disk.root.files then
             FillStaged(base, want["README.md" := st.disk.root.files["README.md"]], want.Keys + {"README.md"})
           else Leaving(Stopped))
  {
    if st.disk.root.Present? && "README.md" in st.disk.root.files {
      assert want["README.md" := st.disk.root.files["README.md"]].Keys == want.Keys + {"README.md"};
    }
  }

  // ---------------------------------------------------------------- invariant

  predicate SubTree(t: Tree, u: Tree) {
    forall n | n in t :: n in u && t[n] == u[n]
  }

  function Last(cs: seq<Commit>): Tree
    requires cs != []
  {
    cs[|cs| - 1].tree
  }

  /** The last committed tree is whole on the disk, at `root` or - between the renames - at `previous`. */
  ghost predicate DiskInv(st: Store) {
    && st.commits != []
    && var d, last := st.disk, Last(st.commits);
    match d.journal
    case NoJournal => d.root == Present(last) && d.previous == Absent
    case Torn => d.root == Present(last) && d.previous == Absent
    case Valid =>
      || (d.root == Present(last) && d.previous == Absent)
      || (d.root == Absent && d.previous == Present(last))
      || (&& d.root == Present(last) && d.previous.Present? && |st.commits| > 1
          && SubTree(d.previous.files, st.commits[|st.commits| - 2].tree))
  }

  /** Each commit was classified against the manifest it replaced, and keeps the README. */
  ghost predicate Chain(cs: seq<Commit>) {
    forall i | 1 <= i < |cs| ::
      && SameManifest(cs[i].base, cs[i - 1].tree)
      && SameReadme(cs[i].tree, cs[i - 1].tree)
      && Known(cs[..i], cs[i].base)
  }

  /** `t` is one of the committed trees. */
  ghost predicate Known(cs: seq<Commit>, t: Tree) {
    exists i :: 0 <= i < |cs| && cs[i].tree == t
  }

  ghost predicate RoundOk(st: Store, round: Round) {
    round.Publishing? ==> Known(st.commits, round.base)
  }

  // The publisher's base is current and its target carries the current README.
  ghost predicate Current(st: Store, base: Tree, target: Tree)
    requires st.commits != []
  {
    Known(st.commits, base) && SameManifest(base, Last(st.commits)) && SameReadme(target, Last(st.commits))
  }

  /** What a process at `w` knows; for critical work this speaks of the disk. */
  ghost predicate WorkOk(st: Store, w: Work)
    requires st.commits != []
  {
    var d, last := st.disk, Last(st.commits);
    match w
    case Ready(round) => RoundOk(st, round)
    case FindJournal(round) => RoundOk(st, round)
    case ParseJournal(round) => RoundOk(st, round) && d.journal != NoJournal
    case ProbeRoot(round) => RoundOk(st, round) && d.journal == Valid
    case ProbePrevious(round, re) => RoundOk(st, round) && d.journal == Valid && re == d.root.Present?
    case ProbeStaged(round, re, pe) =>
      RoundOk(st, round) && d.journal == Valid && re == d.root.Present? && pe == d.previous.Present? && (re || pe)
    case Restore(round, se) =>
      RoundOk(st, round) && d.journal == Valid && d.root == Absent && se == d.staged.Present?
    case DropBackup(round, se) =>
      RoundOk(st, round) && d.journal == Valid && d.root == Present(last) && se == d.staged.Present?
    case DropCandidate(round) =>
      RoundOk(st, round) && d.journal == Valid && d.root == Present(last) && d.previous == Absent
    case DropJournal(round) =>
      RoundOk(st, round) && d.journal == Valid && d.root == Present(last) && d.previous == Absent && d.staged == Absent
    case Recovered(round, had) => RoundOk(st, round) && d.journal == NoJournal && (had ==> d.staged == Absent)
    case ClearStaged(base, _) => d.journal == NoJournal && Known(st.commits, base) && SameManifest(base, last)
    case MakeStaged(base, _) =>
      d.journal == NoJournal && Known(st.commits, base) && SameManifest(base, last) && d.staged == Absent
    case CopyReadme(base, _) =>
      d.journal == NoJournal && Known(st.commits, base) && SameManifest(base, last) && d.staged == Present(map[])
    case FillStaged(base, target, todo) =>
      && d.journal == NoJournal && Current(st, base, target) && d.staged.Present?
      && todo <= target.Keys && d.staged.files.Keys <= target.Keys
      && (forall n | n in target && n !in todo :: n in d.staged.files && d.staged.files[n] == target[n])
    case OpenJournal(base, target) => d.journal == NoJournal && Current(st, base, target) && d.staged == Present(target)
    case FillJournal(base, target) => d.journal == Torn && Current(st, base, target) && d.staged == Present(target)
    case MoveOld(base, target) =>
      d.journal == Valid && Current(st, base, target) && d.staged == Present(target)
      && d.root == Present(last) && d.previous == Absent
    case InstallNew(base, target) =>
      d.journal == Valid && Current(st, base, target) && d.staged == Present(target)
      && d.root == Absent && d.previous == Present(last)
    case DropOld => d.journal == Valid && d.root == Present(last)
    case CloseJournal => d.journal == Valid && d.root == Present(last) && d.previous == Absent
    case Leaving(next) => (next.Stopped? || next.Reviewed?) && (next.Reviewed? ==> Known(st.commits, next.base))
    case Reviewed(base) => Known(st.commits, base)
    case Stopped => true
  }

  ghost predicate StoreInv(st: Store, w: Work) {
    DiskInv(st) && Chain(st.commits) && WorkOk(st, w)
  }

  lemma KnownGrows(cs: seq<Commit>, c: Commit, t: Tree)
    requires Known(cs, t)
    ensures Known(cs + [c], t)
  {
    var i :| 0 <= i < |cs| && cs[i].tree == t;
    assert (cs + [c])[i].tree == t;
  }

  lemma LastIsKnown(cs: seq<Commit>)
    requires cs != []
    ensures Known(cs, Last(cs))
  {}

  predicate Recovering(w: Work) {
    || w.Ready? || w.FindJournal? || w.ParseJournal? || w.ProbeRoot? || w.ProbePrevious? || w.ProbeStaged?
    || w.Restore? || w.DropBackup? || w.DropCandidate? || w.DropJournal? || w.Recovered?
  }

  predicate Probing(w: Work) {
    w.FindJournal? || w.ParseJournal? || w.ProbeRoot? || w.ProbePrevious? || w.ProbeStaged?
  }

  predicate Repairing(w: Work) {
    w.Restore? || w.DropBackup? || w.DropCandidate? || w.DropJournal?
  }

  lemma ProbeKeepsInv(st: Store, w: Work)
    requires StoreInv(st, w) && Probing(w)
    ensures StoreInv(Call(st, w).0, Call(st, w).1)
  {
    hide Chain, Known, SubTree, SameManifest, SameReadme;
  }

  lemma RepairKeepsInv(st: Store, w: Work)
    requires StoreInv(st, w) && Enabled(st, w, Proceed) && Repairing(w)
    ensures StoreInv(Call(st, w).0, Call(st, w).1)
  {
    hide Chain, Known, SubTree, SameManifest, SameReadme;
  }

  lemma RecoveryKeepsInv(st: Store, w: Work)
    requires StoreInv(st, w) && Enabled(st, w, Proceed) && Recovering(w)
    ensures StoreInv(Call(st, w).0, Call(st, w).1)
  {
    if Probing(w) {
      ProbeKeepsInv(st, w);
    } else if Repairing(w) {
      RepairKeepsInv(st, w);
    } else {
      LastIsKnown(st.commits);
      hide Chain, Known, SubTree, SameReadme;
    }
  }

  lemma StagingKeepsInv(st: Store, w: Work)
    requires StoreInv(st, w) && Enabled(st, w, Proceed)
    requires w.ClearStaged? || w.MakeStaged? || w.CopyReadme? || w.FillStaged?
    ensures StoreInv(Call(st, w).0, Call(st, w).1)
  {
    hide Chain, SubTree;
    if w.FillStaged? { assert st.disk.staged.files == w.target; }
  }

  lemma SwitchKeepsInv(st: Store, w: Work)
    requires StoreInv(st, w) && Enabled(st, w, Proceed)
    requires w.OpenJournal? || w.FillJournal? || w.MoveOld? || w.DropOld? || w.CloseJournal? || w.Leaving? || w.Reviewed?
    ensures StoreInv(Call(st, w).0, Call(st, w).1)
  {
    hide StoreInv;
    if w.OpenJournal? || w.FillJournal? || w.MoveOld? {
      RenameKeepsInv(st, w);
    } else {
      CleanupKeepsInv(st, w);
    }
  }

  lemma RenameKeepsInv(st: Store, w: Work)
    requires StoreInv(st, w) && (w.OpenJournal? || w.FillJournal? || w.MoveOld?)
    ensures StoreInv(Call(st, w).0, Call(st, w).1)
  {
    hide Chain, Known, SubTree, SameManifest, SameReadme, RoundOk;
  }

  lemma CleanupKeepsInv(st: Store, w: Work)
    requires StoreInv(st, w) && (w.DropOld? || w.CloseJournal? || w.Leaving? || w.Reviewed?)
    ensures StoreInv(Call(st, w).0, Call(st, w).1)
  {
    hide Chain, Known, SubTree, SameManifest, SameReadme, RoundOk;
  }

  lemma InstallKeepsDisk(st: Store, w: Work)
    requires DiskInv(st) && w.InstallNew? && WorkOk(st, w)
    ensures var st' := Call(st, w).0;
      && st'.commits == st.commits + [Commit(w.target, w.base)]
      && DiskInv(st') && WorkOk(st', Call(st, w).1)
  {
    hide Known, SameManifest, SameReadme;
    var st' := Call(st, w).0;
    assert st'.commits == st.commits + [Commit(w.target, w.base)];
    assert st'.commits[|st'.commits| - 2] == st.commits[|st.commits| - 1];
    TreeIsItsOwnPart(Last(st.commits));
    hide SubTree;
  }

  lemma InstallKeepsInv(st: Store, w: Work)
    requires StoreInv(st, w) && w.InstallNew?
    ensures StoreInv(Call(st, w).0, Call(st, w).1)
  {
    InstallKeepsDisk(st, w);
    CommitKeepsChain(st.commits, Commit(w.target, w.base));
    hide Chain, Call, DiskInv;
  }

  lemma TreeIsItsOwnPart(t: Tree)
    ensures SubTree(t, t)
  { }

  lemma CallKeepsInv(st: Store, w: Work)
    requires StoreInv(st, w) && Enabled(st, w, Proceed)
    ensures StoreInv(Call(st, w).0, Call(st, w).1)
  {
    if Recovering(w) {
      RecoveryKeepsInv(st, w);
    } else if w.InstallNew? {
      InstallKeepsInv(st, w);
    } else if w.ClearStaged? || w.MakeStaged? || w.CopyReadme? || w.FillStaged? {
      StagingKeepsInv(st, w);
    } else {
      SwitchKeepsInv(st, w);
    }
  }

  lemma CommitKeepsChain(cs: seq<Commit>, c: Commit)
    requires cs != [] && Chain(cs) && Known(cs, c.base)
    requires SameManifest(c.base, Last(cs)) && SameReadme(c.tree, Last(cs))
    ensures Chain(cs + [c])
  {
    var all := cs + [c];
    forall i | 1 <= i < |all|
      ensures SameManifest(all[i].base, all[i - 1].tree) && SameReadme(all[i].tree, all[i - 1].tree)
              && Known(all[..i], all[i].base)
    {
      if i < |cs| { assert all[..i] == cs[..i]; } else { assert all[..i] == cs; }
    }
  }

  lemma StepKeepsInv(st: Store, w: Work, m: Move)
    requires StoreInv(st, w) && Enabled(st, w, m)
    ensures StoreInv(Step(st, w, m).0, Step(st, w, m).1)
  {
    hide Chain, Known, SameManifest, SameReadme;
    match m
    case Proceed => CallKeepsInv(st, w);
    case Throw =>
    case Pick(name) => if Deleting(w) { UnlinkKeepsInv(st, w, name); } else { FillKeepsInv(st, w, name, w.target[name], w.todo - {name}); }
    case Scribble(name, junk) => FillKeepsInv(st, w, name, junk, w.todo);
    case Choose(_) =>
  }

  /** A recursive delete empties only what the invariant says nothing whole about. */
  lemma UnlinkKeepsInv(st: Store, w: Work, name: string)
    requires StoreInv(st, w) && Deleting(w) && Victim(st.disk, w).Present?
    ensures StoreInv(Unlink(st, w, name), w)
  {
    hide Chain, Known, SameManifest, SameReadme;
  }

  /** A copy in progress writes only into the staged directory. */
  lemma FillKeepsInv(st: Store, w: Work, name: string, content: Bytes, todo: set<string>)
    requires StoreInv(st, w) && w.FillStaged? && st.disk.staged.Present? && name in w.todo && todo <= w.todo
    requires name !in todo ==> name in w.target && content == w.target[name] && todo == w.todo - {name}
    requires name in todo ==> todo == w.todo
    ensures StoreInv(Fill(st, w, name, content, todo).0, Fill(st, w, name, content, todo).1)
  {
    hide Chain, Known, SameManifest, SameReadme, SubTree;
  }

  /** Only the second rename commits, and it appends the whole target. */
  lemma StepCommits(st: Store, w: Work, m: Move)
    requires StoreInv(st, w) && Enabled(st, w, m)
    ensures var st' := Step(st, w, m).0;
            if w.InstallNew? && m == Proceed then st'.commits == st.commits + [Commit(w.target, w.base)]
            else st'.commits == st.commits
  {}
}
