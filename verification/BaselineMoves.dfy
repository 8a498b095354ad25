/**
  Stretches of one process's work under the publication lock, as runs of BaselineStore:
  from any disk the protocol leaves, there is a run without a failing call through each
  of them, and this is where it ends.
*/
module BaselineMoves {
  import opened BaselineStore
  import opened BaselineRuns

  /** Every step of the run is made under the lock. */
  predicate Stays(st: Store, w: Work, ms: seq<Move>)
    requires Runs(st, w, ms)
    decreases |ms|
  {
    ms == [] || (!w.Leaving? && !w.Reviewed? && Stays(Step(st, w, ms[0]).0, Step(st, w, ms[0]).1, ms[1..]))
  }

  ghost predicate Moves(st: Store, w: Work, st': Store, w': Work) {
    exists ms: seq<Move> :: Runs(st, w, ms) && Stays(st, w, ms) && Exec(st, w, ms) == (st', w')
  }

  lemma {:induction false} RunsJoin(st: Store, w: Work, ms: seq<Move>, more: seq<Move>)
    requires Runs(st, w, ms) && Stays(st, w, ms)
    requires Runs(Exec(st, w, ms).0, Exec(st, w, ms).1, more) && Stays(Exec(st, w, ms).0, Exec(st, w, ms).1, more)
    ensures Runs(st, w, ms + more) && Stays(st, w, ms + more)
    ensures Exec(st, w, ms + more) == Exec(Exec(st, w, ms).0, Exec(st, w, ms).1, more)
    decreases |ms|
  {
    hide Step, Enabled;
    if ms == [] {
      assert ms + more == more;
    } else {
      RunsJoin(Step(st, w, ms[0]).0, Step(st, w, ms[0]).1, ms[1..], more);
      assert (ms + more)[0] == ms[0] && (ms + more)[1..] == ms[1..] + more;
    }
  }

  lemma MovesNowhere(st: Store, w: Work)
    ensures Moves(st, w, st, w)
  {
    assert Runs(st, w, []) && Stays(st, w, []) && Exec(st, w, []) == (st, w);
  }

  lemma MovesJoin(st: Store, w: Work, st1: Store, w1: Work, st2: Store, w2: Work)
    requires Moves(st, w, st1, w1) && Moves(st1, w1, st2, w2)
    ensures Moves(st, w, st2, w2)
  {
    var ms: seq<Move> :| Runs(st, w, ms) && Stays(st, w, ms) && Exec(st, w, ms) == (st1, w1);
    var more: seq<Move> :| Runs(st1, w1, more) && Stays(st1, w1, more) && Exec(st1, w1, more) == (st2, w2);
    RunsJoin(st, w, ms, more);
  }

  lemma MoveOnce(st: Store, w: Work, m: Move)
    requires Enabled(st, w, m) && Unfailing(m) && !w.Leaving? && !w.Reviewed?
    ensures Moves(st, w, Step(st, w, m).0, Step(st, w, m).1)
  {
    var one, st', w' := [m], Step(st, w, m).0, Step(st, w, m).1;
    assert one[0] == m && one[1..] == [];
    hide Step, Enabled;
    assert Runs(st', w', []) && Stays(st', w', []) && Exec(st', w', []) == (st', w');
    assert Runs(st, w, one) && Stays(st, w, one) && Exec(st, w, one) == (st', w');
  }

  lemma MoveOn(st: Store, w: Work, st1: Store, w1: Work, m: Move)
    requires Moves(st, w, st1, w1) && Enabled(st1, w1, m) && Unfailing(m) && !w1.Leaving? && !w1.Reviewed?
    ensures Moves(st, w, Step(st1, w1, m).0, Step(st1, w1, m).1)
  {
    hide Moves, Step, Enabled;
    MoveOnce(st1, w1, m);
    MovesJoin(st, w, st1, w1, Step(st1, w1, m).0, Step(st1, w1, m).1);
  }

  // ---------------------------------------------------------------- loops

  lemma UnlinkedCall(st: Store, w: Work, name: string)
    requires Deleting(w) && Victim(st.disk, w).Present? && name in Victim(st.disk, w).files
    ensures Call(Unlink(st, w, name), w) == Call(st, w)
  { }

  /** A recursive delete comes to its end. */
  lemma {:induction false} Deletes(st: Store, w: Work)
    requires Deleting(w)
    ensures Moves(st, w, Call(st, w).0, Call(st, w).1)
    decreases if Victim(st.disk, w).Present? then |Victim(st.disk, w).files| else 0
  {
    hide Moves;
    var victim := Victim(st.disk, w);
    if victim.Present? && victim.files != map[] {
      var name :| name in victim.files;
      var st1 := Unlink(st, w, name);
      MoveOnce(st, w, Pick(name));
      PicksDescend(st, w, name);
      Deletes(st1, w);
      UnlinkedCall(st, w, name);
      hide Call, Unlink;
      MovesJoin(st, w, st1, w, Call(st, w).0, Call(st, w).1);
    } else {
      MoveOnce(st, w, Proceed);
    }
  }

  /** A copy comes to its end with the whole target staged. */
  lemma {:induction false} Fills(st: Store, base: Tree, target: Tree, todo: set<string>)
    requires st.disk.staged.Present? && todo <= target.Keys && st.disk.staged.files.Keys <= target.Keys
    requires forall n | n in target && n !in todo :: n in st.disk.staged.files && st.disk.staged.files[n] == target[n]
    ensures Moves(st, FillStaged(base, target, todo), st.(disk := st.disk.(staged := Present(target))), FillStaged(base, target, {}))
    decreases |todo|
  {
    hide Moves;
    var end := st.(disk := st.disk.(staged := Present(target)));
    if todo == {} {
      assert st.disk.staged.files == target;
      MovesNowhere(st, FillStaged(base, target, {}));
    } else {
      var name :| name in todo;
      var w := FillStaged(base, target, todo);
      MoveOnce(st, w, Pick(name));
      var st1 := Step(st, w, Pick(name)).0;
      Fills(st1, base, target, todo - {name});
      MovesJoin(st, w, st1, FillStaged(base, target, todo - {name}), end, FillStaged(base, target, {}));
    }
  }

  // ---------------------------------------------------------------- recovery

  /** The disk with the last committed tree at root and nothing to recover; `staged` may be left. */
  predicate Clean(d: Disk, last: Tree) {
    d.root == Present(last) && d.previous == Absent && d.journal == NoJournal
  }

  lemma ProbesAll(st: Store, round: Round)
    requires DiskInv(st) && st.disk.journal == Valid
    ensures var re, pe := st.disk.root.Present?, st.disk.previous.Present?;
      Moves(st, Ready(round), st, ProbeStaged(round, re, pe))
  {
    hide DiskInv;
    MovesNowhere(st, Ready(round));
    hide Moves;
    MoveOn(st, Ready(round), st, Ready(round), Proceed);
    MoveOn(st, Ready(round), st, FindJournal(round), Proceed);
    MoveOn(st, Ready(round), st, ParseJournal(round), Proceed);
    MoveOn(st, Ready(round), st, ProbeRoot(round), Proceed);
    MoveOn(st, Ready(round), st, ProbePrevious(round, st.disk.root.Present?), Proceed);
  }

  /** Root restored and the backup gone. */
  lemma Restores(st: Store, round: Round)
    requires DiskInv(st) && st.disk.journal == Valid
    ensures var re, pe, se := st.disk.root.Present?, st.disk.previous.Present?, st.disk.staged.Present?;
      Moves(st, ProbeStaged(round, re, pe), st.(disk := st.disk.(root := Present(Last(st.commits)), previous := Absent)),
            if se then DropCandidate(round) else DropJournal(round))
  {
    var re, pe, se := st.disk.root.Present?, st.disk.previous.Present?, st.disk.staged.Present?;
    var w := ProbeStaged(round, re, pe);
    hide Moves, SubTree;
    MoveOnce(st, w, Proceed);
    if !re {
      MoveOn(st, w, st, Restore(round, se), Proceed);
    } else if pe {
      Deletes(st, DropBackup(round, se));
      MovesJoin(st, w, st, DropBackup(round, se), Call(st, DropBackup(round, se)).0, Call(st, DropBackup(round, se)).1);
    }
  }

  lemma DropsJournal(st: Store, round: Round)
    requires st.disk.journal == Valid
    ensures var w := if st.disk.staged.Present? then DropCandidate(round) else DropJournal(round);
      Moves(st, w, st.(disk := st.disk.(staged := Absent, journal := NoJournal)), Recovered(round, true))
  {
    hide Moves;
    if st.disk.staged.Present? {
      var w := DropCandidate(round);
      Deletes(st, w);
      MoveOn(st, w, Call(st, w).0, DropJournal(round), Proceed);
    } else {
      MoveOnce(st, DropJournal(round), Proceed);
    }
  }

  /** From every disk the protocol leaves, unless the journal is torn, recovery runs to its end. */
  lemma Recovers(st: Store, round: Round) returns (st': Store)
    requires DiskInv(st) && st.disk.journal != Torn
    ensures Moves(st, Ready(round), st', Recovered(round, st.disk.journal == Valid))
    ensures st'.commits == st.commits && Clean(st'.disk, Last(st.commits)) && DiskInv(st')
    ensures st'.disk.staged == if st.disk.journal == Valid then Absent else st.disk.staged
  {
    if st.disk.journal == Valid {
      var re, pe, se := st.disk.root.Present?, st.disk.previous.Present?, st.disk.staged.Present?;
      ProbesAll(st, round);
      Restores(st, round);
      var mid := st.(disk := st.disk.(root := Present(Last(st.commits)), previous := Absent));
      DropsJournal(mid, round);
      hide Moves;
      st' := mid.(disk := mid.disk.(staged := Absent, journal := NoJournal));
      var w := if se then DropCandidate(round) else DropJournal(round);
      MovesJoin(st, Ready(round), st, ProbeStaged(round, re, pe), mid, w);
      MovesJoin(st, Ready(round), mid, w, st', Recovered(round, true));
    } else {
      hide Moves;
      st' := st;
      MoveOnce(st, Ready(round), Proceed);
      MoveOn(st, Ready(round), st, FindJournal(round), Proceed);
    }
  }

  // ---------------------------------------------------------------- publication

  function Target(st: Store, want: Tree): Tree
    requires st.disk.root.Present? && README in st.disk.root.files
  {
    want[README := st.disk.root.files[README]]
  }

  /** An empty staging directory, and the README read. */
  lemma Clears(st: Store, base: Tree, want: Tree)
    requires st.disk.root.Present? && README in st.disk.root.files
    ensures Moves(st, ClearStaged(base, want), st.(disk := st.disk.(staged := Present(map[]))),
                  FillStaged(base, Target(st, want), Target(st, want).Keys))
  {
    hide Moves;
    var w := ClearStaged(base, want);
    Deletes(st, w);
    var empty := Call(st, w).0;
    MoveOn(st, w, empty, MakeStaged(base, want), Proceed);
    MoveOn(st, w, Step(empty, MakeStaged(base, want), Proceed).0, CopyReadme(base, want), Proceed);
  }

  lemma WritesJournal(st: Store, base: Tree, target: Tree)
    ensures Moves(st, FillStaged(base, target, {}), st.(disk := st.disk.(journal := Valid)), MoveOld(base, target))
  {
    hide Moves;
    var w := FillStaged(base, target, {});
    MoveOnce(st, w, Proceed);
    MoveOn(st, w, st, OpenJournal(base, target), Proceed);
    MoveOn(st, w, Step(st, OpenJournal(base, target), Proceed).0, FillJournal(base, target), Proceed);
  }

  /** The whole target staged and the journal written. */
  lemma Stages(st: Store, base: Tree, want: Tree)
    requires st.disk.root.Present? && README in st.disk.root.files
    ensures Moves(st, ClearStaged(base, want), st.(disk := st.disk.(staged := Present(Target(st, want)), journal := Valid)),
                  MoveOld(base, Target(st, want)))
  {
    var w, target := ClearStaged(base, want), Target(st, want);
    Clears(st, base, want);
    hide Moves;
    var empty := st.(disk := st.disk.(staged := Present(map[])));
    Fills(empty, base, target, target.Keys);
    var full := empty.(disk := empty.disk.(staged := Present(target)));
    MovesJoin(st, w, empty, FillStaged(base, target, target.Keys), full, FillStaged(base, target, {}));
    WritesJournal(full, base, target);
    MovesJoin(st, w, full, FillStaged(base, target, {}), full.(disk := full.disk.(journal := Valid)), MoveOld(base, target));
  }

  /** Both renames. */
  lemma Installs(st: Store, base: Tree, target: Tree)
    requires st.disk.root.Present? && st.disk.previous == Absent && st.disk.staged == Present(target)
    ensures Moves(st, MoveOld(base, target),
                  Store(st.disk.(root := Present(target), previous := st.disk.root, staged := Absent), st.commits + [Commit(target, base)]),
                  DropOld)
  {
    hide Moves;
    MoveOnce(st, MoveOld(base, target), Proceed);
    MoveOn(st, MoveOld(base, target), Step(st, MoveOld(base, target), Proceed).0, InstallNew(base, target), Proceed);
  }

  /** The whole publication from a clean disk. */
  lemma Publishes(st: Store, base: Tree, want: Tree)
    requires st.disk.root.Present? && README in st.disk.root.files && st.disk.previous == Absent
    ensures Moves(st, ClearStaged(base, want),
                  Store(Disk(Present(Target(st, want)), Absent, Absent, NoJournal), st.commits + [Commit(Target(st, want), base)]),
                  Leaving(Stopped))
  {
    hide Moves, Target;
    var w, target := ClearStaged(base, want), Target(st, want);
    Stages(st, base, want);
    var staged := st.(disk := st.disk.(staged := Present(target), journal := Valid));
    Installs(staged, base, target);
    var switched := Store(staged.disk.(root := Present(target), previous := st.disk.root, staged := Absent), st.commits + [Commit(target, base)]);
    MovesJoin(st, w, staged, MoveOld(base, target), switched, DropOld);
    Deletes(switched, DropOld);
    var dropped := Call(switched, DropOld).0;
    MovesJoin(st, w, switched, DropOld, dropped, CloseJournal);
    MoveOn(st, w, dropped, CloseJournal, Proceed);
  }
}
