/**
  recoverBaselinePublication and writeBaselineAtomically as one process runs them
  from start to end, on the directory entries they change in place.
*/
module BaselineFiles {
  import opened Common
  import opened BaselineStore

  // The test hook `stopAfterPhase`; Completes stands for its absence.
  datatype Phase = Prepared | OldMoved | NewInstalled | Completes

  datatype Outcome = Published | StaleBase | Interrupted | Failed

  /** What a recovery that runs to its end makes of a disk; None when it refuses. */
  function Recovery(d: Disk): Option<Disk> {
    match d.journal
    case NoJournal => Some(d)
    case Torn => None
    case Valid =>
      if d.root.Absent? && d.previous.Absent? then None
      else Some(Disk(if d.root.Present? then d.root else d.previous, Absent, Absent, NoJournal))
  }

  class Files {
    var root: Dir
    var previous: Dir
    var staged: Dir
    var journal: Journal

    ghost function Contents(): Disk
      reads this
    {
      Disk(root, previous, staged, journal)
    }

    method Recover() returns (ok: bool)
      modifies this
      ensures ok == Recovery(old(Contents())).Some?
      ensures Contents() == if ok then Recovery(old(Contents())).value else old(Contents())
    {
      if journal == NoJournal { return true; }
      if journal == Torn { return false; }
      var rootExists, previousExists, stagedExists := root.Present?, previous.Present?, staged.Present?;
      if !rootExists && previousExists {
        root, previous := previous, Absent;
      } else if rootExists && previousExists {
        previous := Absent;
      } else if !rootExists {
        return false;
      }
      if stagedExists { staged := Absent; }
      journal := NoJournal;
      return true;
    }

    /** `expected` is the manifest the candidate was classified against. */
    method WriteAtomically(want: Tree, expected: Bytes, stop: Phase) returns (outcome: Outcome)
      modifies this
      ensures (outcome, Contents()) == Publish(old(Contents()), want, expected, stop)
    {
      var ok := Recover();
      if !ok || root.Absent? || MANIFEST !in root.files { return Failed; }
      if root.files[MANIFEST] != expected { return StaleBase; }
      staged := Absent;
      staged := Present(map[]);
      if README !in root.files { return Failed; }
      staged := Present(want[README := root.files[README]]);
      journal := Torn;
      journal := Valid;
      if stop == Prepared { return Interrupted; }
      if previous.Present? { return Failed; }
      root, previous := Absent, root;
      if stop == OldMoved { return Interrupted; }
      root, staged := staged, Absent;
      if stop == NewInstalled { return Interrupted; }
      previous := Absent;
      journal := NoJournal;
      return Published;
    }
  }

  /** The disk at each interruption point of a publication of `target` over `current`; `spare` was at `previous`. */
  function Switched(current: Tree, target: Tree, stop: Phase, spare: Dir): Disk {
    match stop
    case Prepared => Disk(Present(current), spare, Present(target), Valid)
    case OldMoved => Disk(Absent, Present(current), Present(target), Valid)
    case NewInstalled => Disk(Present(target), Present(current), Absent, Valid)
    case Completes => Disk(Present(target), Absent, Absent, NoJournal)
  }

  /** A publication from recovery to its end or its interruption point. */
  function Publish(d: Disk, want: Tree, expected: Bytes, stop: Phase): (Outcome, Disk) {
    var r := Recovery(d);
    if r.None? then (Failed, d)
    else
      var now := r.value;
      if now.root.Absent? || MANIFEST !in now.root.files then (Failed, now)
      else if now.root.files[MANIFEST] != expected then (StaleBase, now)
      else if README !in now.root.files then (Failed, now.(staged := Present(map[])))
      else
        var target := want[README := now.root.files[README]];
        if stop != Prepared && now.previous.Present? then (Failed, Disk(now.root, now.previous, Present(target), Valid))
        else (if stop == Completes then Published else Interrupted, Switched(now.root.files, target, stop, now.previous))
  }

  /** Wherever a publication stops, the next recovery yields the whole old or the whole new tree and nothing else. */
  lemma InterruptedPublicationIsAtomic(current: Tree, target: Tree, stop: Phase)
    ensures Recovery(Switched(current, target, stop, Absent)) ==
            Some(Disk(Present(if stop.Prepared? || stop.OldMoved? then current else target), Absent, Absent, NoJournal))
  {}

  /** On every disk the protocol can leave, recovery refuses exactly a torn journal and otherwise restores the last commit. */
  lemma RecoveryRestoresLastCommit(st: Store)
    requires DiskInv(st)
    ensures Recovery(st.disk).None? <==> st.disk.journal == Torn
    ensures Recovery(st.disk).Some? ==>
              Recovery(st.disk).value ==
                Disk(Present(Last(st.commits)), Absent, if st.disk.journal == Valid then Absent else st.disk.staged, NoJournal)
  {}

  /**
    From every disk the protocol can leave, and wherever the publication stops, the next
    recovery finds exactly the last committed tree or exactly the new one.  The new one
    is there from the second rename on; and a publication gets under way exactly when the
    journal is whole and the committed manifest is the one its candidate was classified against.
  */
  lemma PublishThenRecover(st: Store, want: Tree, expected: Bytes, stop: Phase)
    requires DiskInv(st)
    ensures var last := Last(st.commits); var (outcome, after) := Publish(st.disk, want, expected, stop);
      && (outcome == Published || outcome == Interrupted
          <==> st.disk.journal != Torn && MANIFEST in last && README in last && last[MANIFEST] == expected)
      && (outcome == StaleBase <==> st.disk.journal != Torn && MANIFEST in last && last[MANIFEST] != expected)
      && (Recovery(after).None? <==> st.disk.journal == Torn)
      && (Recovery(after).Some? ==>
            var installed := outcome == Published || (outcome == Interrupted && stop == NewInstalled);
            && Recovery(after).value.root == Present(if installed then want[README := last[README]] else last)
            && Recovery(after).value.previous == Absent)
  {
    RecoveryRestoresLastCommit(st);
    var (outcome, after) := Publish(st.disk, want, expected, stop);
    if outcome == Interrupted || outcome == Published {
      InterruptedPublicationIsAtomic(Last(st.commits), want[README := Last(st.commits)[README]], stop);
    }
  }

  // ---------------------------------------------------------------- by name

  /**
    A publication over a whole root, by the names of the files: it compares the reviewed
    "manifest.json", keeps the reviewed "README.md", and puts the rest of the candidate at
    root.  Any other expected manifest is refused as stale, with the disk as it was.
  */
  lemma PublicationByName(root: Tree, staged: Dir, want: Tree, expected: Bytes)
    requires "manifest.json" in root && "README.md" in root
    ensures var d := Disk(Present(root), Absent, staged, NoJournal);
      Publish(d, want, expected, Completes) ==
        if expected == root["manifest.json"] then
          (Published, Disk(Present(want["README.md" := root["README.md"]]), Absent, Absent, NoJournal))
        else (StaleBase, d)
  { }

  /** From every disk that the protocol leaves, in whatever phase the last publication stopped. */
  lemma PublicationOverLast(st: Store, want: Tree, expected: Bytes)
    requires DiskInv(st) && st.disk.journal != Torn
    requires var last := Last(st.commits); "manifest.json" in last && "README.md" in last
    ensures var last := Last(st.commits); var (outcome, after) := Publish(st.disk, want, expected, Completes);
      && (outcome == Published <==> expected == last["manifest.json"]) && (outcome == StaleBase <==> expected != last["manifest.json"])
      && after.root == Present(if outcome == Published then want["README.md" := last["README.md"]] else last)
      && after.previous == Absent && after.journal == NoJournal && (outcome == Published ==> after.staged == Absent)
  {
    RecoveryRestoresLastCommit(st);
    var d := Recovery(st.disk).value;
    assert Publish(st.disk, want, expected, Completes) == Publish(d, want, expected, Completes);
    PublicationByName(Last(st.commits), d.staged, want, expected);
    hide Publish, Recovery;
  }

  /** Without one of the two files nothing is published; only the staging directory may have been emptied. */
  lemma IncompleteRootFails(root: Tree, staged: Dir, want: Tree, expected: Bytes, stop: Phase)
    requires "manifest.json" !in root || ("README.md" !in root && expected == root["manifest.json"])
    ensures var d := Disk(Present(root), Absent, staged, NoJournal);
      Publish(d, want, expected, stop) == (Failed, if "manifest.json" in root then d.(staged := Present(map[])) else d)
  { }
}
