/**
  The two worklists over type graphs: transitiveReferencesFor with the closure check
  built on it (scripts/ci/public-compatibility-manifest-check.js), and the closure loop
  of discoverHaxeSurface (scripts/ci/haxe-public-surface.js).  Sorting a finished set
  of names is left out.
*/
module TypeClosure {
  // A name without an entry has no references.
  type Graph = map<string, seq<string>>

  predicate Edge(g: Graph, a: string, b: string) { a in g && b in g[a] }

  /** A walk that leaves no name of `blocked`; it may end in one. */
  ghost predicate Walk(g: Graph, blocked: set<string>, w: seq<string>) {
    && w != []
    && forall k | 0 <= k < |w| - 1 :: w[k] !in blocked && Edge(g, w[k], w[k + 1])
  }

  ghost predicate Reaches(g: Graph, blocked: set<string>, roots: seq<string>, x: string) {
    exists w :: Walk(g, blocked, w) && w[0] in roots && w[|w| - 1] == x
  }

  // ---------------------------------------------------------------- worklists

  function SeqNames(xs: seq<string>): set<string> { set x | x in xs }

  function Universe(g: Graph, roots: seq<string>): set<string> {
    SeqNames(roots) + g.Keys + set a, b | a in g.Keys && b in g[a] :: b
  }

  /** Everything found or pending is reachable, and nothing reachable can be missed. */
  ghost predicate Progress(g: Graph, blocked: set<string>, roots: seq<string>, seen: set<string>, pending: seq<string>) {
    && (forall x | x in seen || x in pending :: x in Universe(g, roots) && Reaches(g, blocked, roots, x))
    && (forall x | x in roots :: x in seen || x in pending || x in blocked)
    && (forall a, b | a in seen && a !in blocked && Edge(g, a, b) :: b in seen || b in pending || b in blocked)
    && seen !! blocked
  }

  lemma StartProgress(g: Graph, blocked: set<string>, roots: seq<string>)
    ensures Progress(g, blocked, roots, {}, roots)
  {
    forall x | x in roots ensures Reaches(g, blocked, roots, x) {
      assert Walk(g, blocked, [x]) && [x][0] in roots;
    }
  }

  lemma ReachChild(g: Graph, blocked: set<string>, roots: seq<string>, a: string, b: string)
    requires Reaches(g, blocked, roots, a) && a !in blocked && Edge(g, a, b)
    ensures Reaches(g, blocked, roots, b)
  {
    var w :| Walk(g, blocked, w) && w[0] in roots && w[|w| - 1] == a;
    assert Walk(g, blocked, w + [b]);
  }

  /** A name already seen, or blocked, is dropped. */
  lemma DropProgress(g: Graph, blocked: set<string>, roots: seq<string>, seen: set<string>, pending: seq<string>)
    requires Progress(g, blocked, roots, seen, pending) && pending != [] && (pending[0] in seen || pending[0] in blocked)
    ensures Progress(g, blocked, roots, seen, pending[1..])
  {
    assert forall x :: x in pending ==> x == pending[0] || x in pending[1..];
    hide Reaches, Universe;
  }

  /** A new name is taken, and at least its unseen children become pending. */
  lemma TakeProgress(g: Graph, blocked: set<string>, roots: seq<string>, seen: set<string>, pending: seq<string>, added: seq<string>)
    requires Progress(g, blocked, roots, seen, pending) && pending != [] && pending[0] !in seen && pending[0] !in blocked
    requires forall b | b in added :: Edge(g, pending[0], b)
    requires forall b | Edge(g, pending[0], b) :: b in added || b in seen || b == pending[0]
    ensures Progress(g, blocked, roots, seen + {pending[0]}, pending[1..] + added)
  {
    assert forall x :: x in pending ==> x == pending[0] || x in pending[1..];
    forall b | b in added ensures Reaches(g, blocked, roots, b) && b in Universe(g, roots) {
      ReachChild(g, blocked, roots, pending[0], b);
    }
    hide Reaches, Universe;
  }

  /** With nothing pending, a walk stays inside what was seen until it meets a blocked name. */
  lemma {:induction false} WalkIsSeen(g: Graph, blocked: set<string>, roots: seq<string>, seen: set<string>, w: seq<string>)
    requires Progress(g, blocked, roots, seen, []) && Walk(g, blocked, w) && w[0] in roots
    ensures w[|w| - 1] in seen || w[|w| - 1] in blocked
    decreases |w|
  {
    if |w| > 1 {
      var front := w[..|w| - 1];
      WalkIsSeen(g, blocked, roots, seen, front);
      assert Edge(g, w[|w| - 2], w[|w| - 1]);
    }
  }

  lemma FinishedIsExact(g: Graph, blocked: set<string>, roots: seq<string>, seen: set<string>)
    requires Progress(g, blocked, roots, seen, [])
    ensures forall x :: x in seen <==> Reaches(g, blocked, roots, x) && x !in blocked
  {
    forall x | Reaches(g, blocked, roots, x) && x !in blocked ensures x in seen {
      var w :| Walk(g, blocked, w) && w[0] in roots && w[|w| - 1] == x;
      WalkIsSeen(g, blocked, roots, seen, w);
    }
  }

  /** Taking a new name of the universe leaves fewer unseen ones. */
  lemma FewerUnseen(universe: set<string>, seen: set<string>, x: string)
    requires x in universe && x !in seen
    ensures |universe - (seen + {x})| < |universe - seen|
  {
    assert universe - seen == (universe - (seen + {x})) + {x};
  }

  /** The worklist of the manifest check: exactly the reachable names, on any graph. */
  method TransitiveReferences(roots: seq<string>, g: Graph) returns (seen: set<string>)
    ensures forall x :: x in seen <==> Reaches(g, {}, roots, x)
  {
    hide Progress, Universe;
    seen := {};
    var pending := roots;
    StartProgress(g, {}, roots);
    while pending != []
      invariant Progress(g, {}, roots, seen, pending)
      decreases |Universe(g, roots) - seen|, |pending|
    {
      var name := pending[0];
      if name in seen {
        DropProgress(g, {}, roots, seen, pending);
        pending := pending[1..];
      } else {
        InUniverse(g, {}, roots, seen, pending);
        FewerUnseen(Universe(g, roots), seen, name);
        var children := if name in g then g[name] else [];
        var unseen := Unseen(children, seen + {name});
        TakeProgress(g, {}, roots, seen, pending, unseen);
        seen := seen + {name};
        pending := pending[1..] + unseen;
      }
    }
    FinishedIsExact(g, {}, roots, seen);
  }

  /** The children pushed by the inner loop. */
  function Unseen(children: seq<string>, seen: set<string>): (r: seq<string>)
    ensures forall x :: x in r <==> x in children && x !in seen
  {
    if children == [] then []
    else (if children[0] !in seen then [children[0]] else []) + Unseen(children[1..], seen)
  }

  lemma InUniverse(g: Graph, blocked: set<string>, roots: seq<string>, seen: set<string>, pending: seq<string>)
    requires Progress(g, blocked, roots, seen, pending) && pending != []
    ensures pending[0] in Universe(g, roots)
  { }

  /** The worklist of the surface scanner, which skips the type itself and pushes every child. */
  method SurfaceClosure(self: string, roots: seq<string>, g: Graph) returns (closure: set<string>)
    ensures forall x :: x in closure <==> Reaches(g, {self}, roots, x) && x != self
  {
    hide Progress, Universe;
    closure := {};
    var pending := roots;
    StartProgress(g, {self}, roots);
    while pending != []
      invariant Progress(g, {self}, roots, closure, pending)
      decreases |Universe(g, roots) - closure|, |pending|
    {
      var next := pending[0];
      if next in closure || next == self {
        DropProgress(g, {self}, roots, closure, pending);
        pending := pending[1..];
      } else {
        InUniverse(g, {self}, roots, closure, pending);
        FewerUnseen(Universe(g, roots), closure, next);
        var children := if next in g then g[next] else [];
        TakeProgress(g, {self}, roots, closure, pending, children);
        closure := closure + {next};
        pending := pending[1..] + children;
      }
    }
    FinishedIsExact(g, {self}, roots, closure);
  }

  /** Not expanding the type itself loses nothing, because its references are the roots. */
  lemma SkippingSelfLosesNothing(self: string, g: Graph, x: string)
    requires self in g && x != self
    ensures Reaches(g, {self}, g[self], x) <==> Reaches(g, {}, g[self], x)
  {
    if Reaches(g, {self}, g[self], x) {
      var w :| Walk(g, {self}, w) && w[0] in g[self] && w[|w| - 1] == x;
      assert Walk(g, {}, w);
    }
    if Reaches(g, {}, g[self], x) {
      var w :| Walk(g, {}, w) && w[0] in g[self] && w[|w| - 1] == x;
      CutAtSelf(self, g, w);
    }
  }

  lemma {:induction false} CutAtSelf(self: string, g: Graph, w: seq<string>)
    requires self in g && Walk(g, {}, w) && w[0] in g[self] && w[|w| - 1] != self
    ensures Reaches(g, {self}, g[self], w[|w| - 1])
    decreases |w|
  {
    if k :| 0 <= k < |w| - 1 && w[k] == self {
      assert Edge(g, w[k], w[k + 1]);
      CutAtSelf(self, g, w[k + 1..]);
    } else {
      assert Walk(g, {self}, w);
    }
  }

  // ---------------------------------------------------------------- the closure check

  datatype Contract = Contract(admission: string, stability: string)

  datatype Operation = Operation(id: string, contract: string, typeReferences: seq<string>)

  datatype Type = Type(name: string, contract: string, directTypeReferences: seq<string>, operations: seq<Operation>)

  datatype Owner = OfType(name: string) | OfOperation(name: string, id: string)

  datatype Fault = Unresolved(owner: Owner, reference: string) | Ungoverned(owner: Owner, reference: string)

  /** new Map over the types: a later entry with the same name wins. */
  function TypesByName(types: seq<Type>): map<string, Type> {
    if types == [] then map[] else TypesByName(types[..|types| - 1])[types[|types| - 1].name := types[|types| - 1]]
  }

  function References(byName: map<string, Type>): Graph {
    map n | n in byName :: byName[n].directTypeReferences
  }

  predicate Admitted(contract: string, contracts: map<string, Contract>) {
    contract in contracts && contracts[contract].admission == "admitted"
  }

  /** A resolved type whose contract is admitted and stable. */
  predicate AdmittedStable(name: string, byName: map<string, Type>, contracts: map<string, Contract>) {
    && name in byName
    && Admitted(byName[name].contract, contracts)
    && contracts[byName[name].contract].stability in ["stable-candidate", "qualified-stable-candidate"]
  }

  function FaultOf(owner: Owner, reference: string, byName: map<string, Type>): Fault {
    if reference in byName then Ungoverned(owner, reference) else Unresolved(owner, reference)
  }

  /** A name reachable from the roots that is not an admitted stable type. */
  ghost predicate Violates(f: Fault, owner: Owner, roots: seq<string>, byName: map<string, Type>, contracts: map<string, Contract>) {
    exists x :: Reaches(References(byName), {}, roots, x) && !AdmittedStable(x, byName, contracts) && f == FaultOf(owner, x, byName)
  }

  ghost predicate ViolatesIn(f: Fault, owner: Owner, names: set<string>, byName: map<string, Type>, contracts: map<string, Contract>) {
    exists x :: x in names && !AdmittedStable(x, byName, contracts) && f == FaultOf(owner, x, byName)
  }

  /** One owner's references: each violation is reported once. */
  method Validate(owner: Owner, roots: seq<string>, byName: map<string, Type>, contracts: map<string, Contract>)
    returns (faults: seq<Fault>)
    ensures forall f :: multiset(faults)[f] == if Violates(f, owner, roots, byName, contracts) then 1 else 0
  {
    hide AdmittedStable, Reaches;
    var reachable := TransitiveReferences(roots, References(byName));
    faults := [];
    var todo, done := reachable, {};
    while todo != {}
      invariant done !! todo && done + todo == reachable
      invariant forall f :: multiset(faults)[f] == if ViolatesIn(f, owner, done, byName, contracts) then 1 else 0
      decreases todo
    {
      var x :| x in todo;
      ViolatesOneMore(owner, done, x, byName, contracts);
      todo, done := todo - {x}, done + {x};
      if !AdmittedStable(x, byName, contracts) {
        faults := faults + [FaultOf(owner, x, byName)];
      }
    }
  }

  lemma ViolatesOneMore(owner: Owner, names: set<string>, x: string, byName: map<string, Type>, contracts: map<string, Contract>)
    requires x !in names
    ensures !ViolatesIn(FaultOf(owner, x, byName), owner, names, byName, contracts)
    ensures forall f ::
      (ViolatesIn(f, owner, names + {x}, byName, contracts)
       <==> ViolatesIn(f, owner, names, byName, contracts) || (!AdmittedStable(x, byName, contracts) && f == FaultOf(owner, x, byName)))
  {
    hide AdmittedStable;
  }

  // ---------------------------------------------------------------- all owners

  // An admitted type or operation, with its references.
  type Owned = (Owner, seq<string>)

  function OperationOwners(name: string, operations: seq<Operation>, contracts: map<string, Contract>): seq<Owned> {
    if operations == [] then []
    else
      var last := operations[|operations| - 1];
      OperationOwners(name, operations[..|operations| - 1], contracts)
      + (if Admitted(last.contract, contracts) then [(OfOperation(name, last.id), last.typeReferences)] else [])
  }

  function Owners(t: Type, contracts: map<string, Contract>): seq<Owned> {
    (if Admitted(t.contract, contracts) then [(OfType(t.name), t.directTypeReferences)] else [])
    + OperationOwners(t.name, t.operations, contracts)
  }

  /** Every admitted type and every admitted operation, in the order of the manifest. */
  function AllOwners(types: seq<Type>, contracts: map<string, Contract>): seq<Owned> {
    if types == [] then []
    else AllOwners(types[..|types| - 1], contracts) + Owners(types[|types| - 1], contracts)
  }

  /** For how many of the owners a fault is a violation. */
  ghost function Occurrences(f: Fault, owners: seq<Owned>, byName: map<string, Type>, contracts: map<string, Contract>): nat {
    if owners == [] then 0
    else
      var last := owners[|owners| - 1];
      Occurrences(f, owners[..|owners| - 1], byName, contracts)
      + if Violates(f, last.0, last.1, byName, contracts) then 1 else 0
  }

  lemma {:induction false} OccurrencesAppend(f: Fault, xs: seq<Owned>, ys: seq<Owned>, byName: map<string, Type>, contracts: map<string, Contract>)
    ensures Occurrences(f, xs + ys, byName, contracts)
      == Occurrences(f, xs, byName, contracts) + Occurrences(f, ys, byName, contracts)
    decreases |ys|
  {
    hide Violates;
    if ys == [] {
      assert xs + ys == xs;
    } else {
      OccurrencesAppend(f, xs, ys[..|ys| - 1], byName, contracts);
      assert (xs + ys)[..|xs + ys| - 1] == xs + ys[..|ys| - 1];
    }
  }

  /** Faults reported as often as they occur. */
  ghost predicate Counted(faults: seq<Fault>, owners: seq<Owned>, byName: map<string, Type>, contracts: map<string, Contract>) {
    forall f :: multiset(faults)[f] == Occurrences(f, owners, byName, contracts)
  }

  lemma CountedAppend(xs: seq<Fault>, os: seq<Owned>, ys: seq<Fault>, ps: seq<Owned>, byName: map<string, Type>, contracts: map<string, Contract>)
    requires Counted(xs, os, byName, contracts) && Counted(ys, ps, byName, contracts)
    ensures Counted(xs + ys, os + ps, byName, contracts)
  {
    forall f ensures multiset(xs + ys)[f] == Occurrences(f, os + ps, byName, contracts) {
      OccurrencesAppend(f, os, ps, byName, contracts);
    }
  }

  lemma CountedOne(faults: seq<Fault>, owner: Owner, roots: seq<string>, byName: map<string, Type>, contracts: map<string, Contract>)
    requires forall f :: multiset(faults)[f] == if Violates(f, owner, roots, byName, contracts) then 1 else 0
    ensures Counted(faults, [(owner, roots)], byName, contracts)
  {
    hide Violates;
    var one: seq<Owned> := [(owner, roots)];
    assert one[..0] == [];
    forall f ensures Occurrences(f, one, byName, contracts) == if Violates(f, owner, roots, byName, contracts) then 1 else 0 { }
  }

  lemma CountedNothing(byName: map<string, Type>, contracts: map<string, Contract>)
    ensures Counted([], [], byName, contracts)
  { }

  method ValidateOwner(admitted: bool, owner: Owner, roots: seq<string>, byName: map<string, Type>, contracts: map<string, Contract>)
    returns (faults: seq<Fault>)
    ensures Counted(faults, if admitted then [(owner, roots)] else [], byName, contracts)
  {
    CountedNothing(byName, contracts);
    faults := [];
    if admitted {
      faults := Validate(owner, roots, byName, contracts);
      CountedOne(faults, owner, roots, byName, contracts);
    }
  }

  method ValidateType(t: Type, byName: map<string, Type>, contracts: map<string, Contract>) returns (faults: seq<Fault>)
    ensures Counted(faults, Owners(t, contracts), byName, contracts)
  {
    hide Counted, Admitted;
    faults := ValidateOwner(Admitted(t.contract, contracts), OfType(t.name), t.directTypeReferences, byName, contracts);
    ghost var owners: seq<Owned> := if Admitted(t.contract, contracts) then [(OfType(t.name), t.directTypeReferences)] else [];
    assert owners + OperationOwners(t.name, t.operations[..0], contracts) == owners;
    for i := 0 to |t.operations|
      invariant Counted(faults, owners + OperationOwners(t.name, t.operations[..i], contracts), byName, contracts)
    {
      var op := t.operations[i];
      var found := ValidateOwner(Admitted(op.contract, contracts), OfOperation(t.name, op.id), op.typeReferences, byName, contracts);
      ghost var before := owners + OperationOwners(t.name, t.operations[..i], contracts);
      ghost var more: seq<Owned> := if Admitted(op.contract, contracts) then [(OfOperation(t.name, op.id), op.typeReferences)] else [];
      CountedAppend(faults, before, found, more, byName, contracts);
      assert t.operations[..i + 1][..i] == t.operations[..i];
      assert before + more == owners + OperationOwners(t.name, t.operations[..i + 1], contracts);
      faults := faults + found;
    }
    assert t.operations[..|t.operations|] == t.operations;
  }

  /** Everything reachable from every admitted type or operation is an admitted stable type. */
  ghost predicate ClosureHolds(types: seq<Type>, contracts: map<string, Contract>) {
    var byName := TypesByName(types);
    forall o, x | o in AllOwners(types, contracts) && Reaches(References(byName), {}, o.1, x) :: AdmittedStable(x, byName, contracts)
  }

  /** The check reports each violation once for each owner that has it, and nothing exactly when the closure holds. */
  method ValidateAdmittedReferenceClosure(types: seq<Type>, contracts: map<string, Contract>) returns (faults: seq<Fault>)
    ensures Counted(faults, AllOwners(types, contracts), TypesByName(types), contracts)
    ensures faults == [] <==> ClosureHolds(types, contracts)
  {
    hide Counted, Owners;
    var byName := TypesByName(types);
    faults := [];
    CountedNothing(byName, contracts);
    for i := 0 to |types|
      invariant Counted(faults, AllOwners(types[..i], contracts), byName, contracts)
    {
      var found := ValidateType(types[i], byName, contracts);
      CountedAppend(faults, AllOwners(types[..i], contracts), found, Owners(types[i], contracts), byName, contracts);
      assert types[..i + 1][..i] == types[..i];
      faults := faults + found;
    }
    assert types[..|types|] == types;
    SilentIffClosed(faults, types, contracts);
  }

  /** A fault occurs for some owner exactly when it occurs at all. */
  lemma {:induction false} OccursIff(f: Fault, owners: seq<Owned>, byName: map<string, Type>, contracts: map<string, Contract>)
    ensures Occurrences(f, owners, byName, contracts) > 0 <==> exists o :: o in owners && Violates(f, o.0, o.1, byName, contracts)
    decreases |owners|
  {
    hide Violates;
    if owners != [] {
      var front, last := owners[..|owners| - 1], owners[|owners| - 1];
      OccursIff(f, front, byName, contracts);
      assert forall o :: o in owners <==> o in front || o == last;
    }
  }

  lemma SilentIffClosed(faults: seq<Fault>, types: seq<Type>, contracts: map<string, Contract>)
    requires Counted(faults, AllOwners(types, contracts), TypesByName(types), contracts)
    ensures faults == [] <==> ClosureHolds(types, contracts)
  {
    var byName, owners := TypesByName(types), AllOwners(types, contracts);
    forall f ensures f in faults <==> exists o :: o in owners && Violates(f, o.0, o.1, byName, contracts) {
      OccursIff(f, owners, byName, contracts);
      assert f in faults <==> multiset(faults)[f] > 0;
    }
    hide Counted, AllOwners, TypesByName, AdmittedStable, Reaches, References, FaultOf;
    if faults != [] {
      assert faults[0] in faults;
      var o :| o in owners && Violates(faults[0], o.0, o.1, byName, contracts);
    } else {
      forall o, x | o in owners && Reaches(References(byName), {}, o.1, x) ensures AdmittedStable(x, byName, contracts) {
        assert FaultOf(o.0, x, byName) !in faults;
        assert !Violates(FaultOf(o.0, x, byName), o.0, o.1, byName, contracts);
      }
    }
  }

  // ---------------------------------------------------------------- in the manifest's own terms

  predicate InForce(contract: string, contracts: map<string, Contract>) {
    contract in contracts && contracts[contract].admission == "admitted"
  }

  /** The entry at i is the last of its name. */
  predicate LastNamed(types: seq<Type>, i: int, name: string) {
    0 <= i < |types| && types[i].name == name && forall j | i < j < |types| :: types[j].name != name
  }

  /** The last type of a name is under an admitted contract of one of the two stable classes. */
  ghost predicate Governed(name: string, types: seq<Type>, contracts: map<string, Contract>) {
    exists i :: LastNamed(types, i, name) && InForce(types[i].contract, contracts)
      && contracts[types[i].contract].stability in {"stable-candidate", "qualified-stable-candidate"}
  }

  lemma {:induction false} LastOfName(types: seq<Type>, name: string)
    ensures name in TypesByName(types) <==> exists i :: 0 <= i < |types| && types[i].name == name
    ensures forall i | LastNamed(types, i, name) :: TypesByName(types)[name] == types[i]
    ensures name in TypesByName(types) ==> exists i :: LastNamed(types, i, name)
  {
    if types != [] {
      var n := |types| - 1;
      LastOfName(types[..n], name);
      if types[n].name == name {
        assert LastNamed(types, n, name);
      } else if name in TypesByName(types) {
        var i :| LastNamed(types[..n], i, name);
        assert LastNamed(types, i, name);
      }
      forall i | LastNamed(types, i, name) ensures TypesByName(types)[name] == types[i] {
        if i < n { assert LastNamed(types[..n], i, name); }
      }
    }
  }

  lemma GovernedIff(name: string, types: seq<Type>, contracts: map<string, Contract>)
    ensures AdmittedStable(name, TypesByName(types), contracts) <==> Governed(name, types, contracts)
  {
    LastOfName(types, name);
    hide TypesByName;
  }

  /** The owners checked are exactly the types and the operations under an admitted contract, with their own references. */
  ghost predicate ChecksOwner(o: Owned, types: seq<Type>, contracts: map<string, Contract>) {
    exists t :: t in types &&
      ((InForce(t.contract, contracts) && o == (OfType(t.name), t.directTypeReferences))
       || exists p :: p in t.operations && InForce(p.contract, contracts) && o == (OfOperation(t.name, p.id), p.typeReferences))
  }

  lemma {:induction false} OperationOwnersAre(o: Owned, name: string, operations: seq<Operation>, contracts: map<string, Contract>)
    ensures o in OperationOwners(name, operations, contracts) <==>
      exists p :: p in operations && InForce(p.contract, contracts) && o == (OfOperation(name, p.id), p.typeReferences)
  {
    if operations != [] {
      var front, last := operations[..|operations| - 1], operations[|operations| - 1];
      OperationOwnersAre(o, name, front, contracts);
      assert forall p :: p in operations <==> p in front || p == last;
    }
  }

  lemma {:induction false} OwnersAre(o: Owned, types: seq<Type>, contracts: map<string, Contract>)
    ensures o in AllOwners(types, contracts) <==> ChecksOwner(o, types, contracts)
  {
    if types != [] {
      var front, last := types[..|types| - 1], types[|types| - 1];
      OwnersAre(o, front, contracts);
      OperationOwnersAre(o, last.name, last.operations, contracts);
      assert forall t :: t in types <==> t in front || t == last;
      hide OperationOwners, InForce;
    }
  }

  /** What a fault says: the owner, and a name reachable from it that no type has, or whose type is not governed. */
  lemma FaultsAre(f: Fault, owner: Owner, roots: seq<string>, types: seq<Type>, contracts: map<string, Contract>)
    ensures var byName := TypesByName(types);
      Violates(f, owner, roots, byName, contracts) <==>
        f.owner == owner && Reaches(References(byName), {}, roots, f.reference) && !Governed(f.reference, types, contracts)
        && (f.Unresolved? <==> forall t | t in types :: t.name != f.reference)
  {
    var byName := TypesByName(types);
    GovernedIff(f.reference, types, contracts);
    LastOfName(types, f.reference);
    assert f.reference in byName <==> exists t :: t in types && t.name == f.reference;
    hide TypesByName, AdmittedStable, Governed, Reaches, References;
    if Violates(f, owner, roots, byName, contracts) {
      var x :| Reaches(References(byName), {}, roots, x) && !AdmittedStable(x, byName, contracts) && f == FaultOf(owner, x, byName);
    }
    if f.owner == owner && Reaches(References(byName), {}, roots, f.reference) && !AdmittedStable(f.reference, byName, contracts)
       && (f.Unresolved? <==> f.reference !in byName) {
      assert f == FaultOf(owner, f.reference, byName);
    }
  }
}
