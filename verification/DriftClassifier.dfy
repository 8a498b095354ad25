/**
  The classification of a candidate dependency graph against the reviewed one, in
  scripts/ci/fresh-cargo-resolution.js.  Parsers are parameters; a parser that throws
  is one that yields None.  Values are compared as their JSON text, and a sorted list
  of values as a multiset.
*/
module DriftClassifier {
  import opened Common
  import opened PackageDiff

  // ---------------------------------------------------------------- data

  datatype LockPackage = LockPackage(identity: string, name: string, version: string, source: string,
                                     checksum: Option<string>, dependencies: seq<string>)

  datatype LockData = LockData(format: nat, packages: map<string, LockPackage>)

  // parseLock keys every package by its identity.
  type LockFile = l: LockData | forall k | k in l.packages :: l.packages[k].identity == k
    witness LockData(0, map[])

  datatype Edge = Edge(name: string, package: string, kinds: seq<string>)

  datatype Node = Node(id: string, enabledFeatures: seq<string>, dependencies: seq<Edge>)

  datatype MetadataData = MetadataData(header: seq<string>, packages: seq<Package>, root: string, nodes: seq<Node>)

  // assertNormalizedMetadataShape requires every field and forbids repeated ids.
  type Metadata = m: MetadataData |
    && |m.header| == |HeaderFields|
    && UniqueIds(m.packages)
    && forall i, j | 0 <= i < j < |m.nodes| :: m.nodes[i].id != m.nodes[j].id
    witness MetadataData(seq(|HeaderFields|, i => ""), [], "", [])

  const HeaderFields: seq<string> := [
    "schemaVersion", "caseId", "contract", "fixture", "minimumSupportedRust", "resolverVersion",
    "incompatibleRustVersions", "rootPackage", "workspaceMembers", "workspaceDefaultMembers"
  ]

  datatype Category =
    | LockFormat
    | PackageChecksumChanged
    | PackageLockDependenciesChanged
    | PackageVersionChanged
    | PackageVersionChecksumChanged
    | PackageRemoved
    | PackageAdded
    | AuthorityInputChanged
    | TopologyChanged
    | MetadataPackageIdentityChanged
    | DeclaredMsrvChanged
    | EnabledFeaturesChanged
    | DeclaredDependenciesChanged
    | MetadataPackageRemoved
    | MetadataPackageAdded
    | TopologyEdgesChanged
    | TopologyNodeRemoved
    | TopologyNodeAdded
    | SerializationChanged

  datatype SortedEdge = SortedEdge(name: string, package: string, kinds: multiset<string>)

  datatype Value =
    | Undefined
    | Null
    | Text(text: string)
    | Format(format: nat)
    | Texts(texts: seq<string>)
    | Sorted(values: multiset<string>)
    | Edges(edges: multiset<SortedEdge>)
    | Digest(content: Bytes)
    | WholeLockPackage(lockPackage: LockPackage)
    | WholePackage(package: Package)
    | WholeNode(node: Node)
    | WholeEntry(contract: string, fixture: string)

  datatype Change = Change(caseId: string, category: Category, subject: string, field: string, before: Value, after: Value)

  /** compareValues. */
  function Compare(id: string, category: Category, subject: string, field: string, before: Value, after: Value): seq<Change> {
    if before == after then [] else [Change(id, category, subject, field, before, after)]
  }

  function TextOrNull(t: Option<string>): Value { if t.Some? then Text(t.value) else Null }

  // ---------------------------------------------------------------- lock files

  function SharedChanges(id: string, a: LockPackage, b: LockPackage): seq<Change> {
    Compare(id, PackageChecksumChanged, a.identity, "checksum", TextOrNull(a.checksum), TextOrNull(b.checksum))
    + Compare(id, PackageLockDependenciesChanged, a.identity, "dependencies", Texts(a.dependencies), Texts(b.dependencies))
  }

  function UpgradeChanges(id: string, a: LockPackage, b: LockPackage): seq<Change> {
    [Change(id, PackageVersionChanged, a.name + ":" + a.source, "version", Text(a.version), Text(b.version))]
    + Compare(id, PackageVersionChecksumChanged, a.name + ":" + a.source, "checksum",
              TextOrNull(a.checksum), TextOrNull(b.checksum))
  }

  function RemovedChange(id: string, p: LockPackage): Change {
    Change(id, PackageRemoved, p.identity, "identity", Text(p.identity), Null)
  }

  function AddedChange(id: string, p: LockPackage): Change {
    Change(id, PackageAdded, p.identity, "identity", Null, Text(p.identity))
  }

  predicate SameOrigin(a: LockPackage, b: LockPackage) { a.name == b.name && a.source == b.source }

  /** Packages of one lock file that the other does not have. */
  function Missing(a: LockFile, b: LockFile): set<LockPackage> {
    set k | k in a.packages && k !in b.packages :: a.packages[k]
  }

  /** One removed and one added package of the same name and source, and no other of either. */
  ghost predicate Upgrade(o: LockPackage, n: LockPackage, removed: set<LockPackage>, added: set<LockPackage>) {
    && o in removed && n in added && SameOrigin(n, o)
    && (forall x | x in removed && SameOrigin(x, o) :: x == o)
    && forall x | x in added && SameOrigin(x, o) :: x == n
  }

  ghost predicate SharedReports(c: Change, id: string, a: LockFile, b: LockFile, keys: set<string>) {
    exists k :: k in keys && k in a.packages && k in b.packages && c in SharedChanges(id, a.packages[k], b.packages[k])
  }

  ghost predicate Upgraded(o: LockPackage, removed: set<LockPackage>, added: set<LockPackage>) {
    exists n :: Upgrade(o, n, removed, added)
  }

  ghost predicate Upgrades(n: LockPackage, removed: set<LockPackage>, added: set<LockPackage>) {
    exists o :: Upgrade(o, n, removed, added)
  }

  ghost predicate UpgradeReports(c: Change, id: string, removed: set<LockPackage>, added: set<LockPackage>) {
    exists o, n :: Upgrade(o, n, removed, added) && c in UpgradeChanges(id, o, n)
  }

  ghost predicate RemovalReports(c: Change, id: string, removed: set<LockPackage>, added: set<LockPackage>) {
    exists o :: o in removed && !Upgraded(o, removed, added) && c == RemovedChange(id, o)
  }

  ghost predicate AdditionReports(c: Change, id: string, removed: set<LockPackage>, added: set<LockPackage>) {
    exists n :: n in added && !Upgrades(n, removed, added) && c == AddedChange(id, n)
  }

  /** The changes between two lock files, as a set. */
  ghost predicate LockReports(c: Change, id: string, a: LockFile, b: LockFile) {
    || c in Compare(id, LockFormat, id, "lockfileFormat", Format(a.format), Format(b.format))
    || SharedReports(c, id, a, b, a.packages.Keys)
    || UpgradeReports(c, id, Missing(a, b), Missing(b, a))
    || RemovalReports(c, id, Missing(a, b), Missing(b, a))
    || AdditionReports(c, id, Missing(a, b), Missing(b, a))
  }

  ghost predicate DistinctIdentities(xs: seq<LockPackage>) {
    forall i, j | 0 <= i < j < |xs| :: xs[i].identity != xs[j].identity
  }

  /** The loop over all identities. */
  method SharedLockChanges(id: string, a: LockFile, b: LockFile)
    returns (changes: seq<Change>, removed: seq<LockPackage>, added: seq<LockPackage>)
    ensures forall c :: c in changes <==> SharedReports(c, id, a, b, a.packages.Keys)
    ensures DistinctIdentities(removed) && DistinctIdentities(added)
    ensures forall x :: x in removed <==> x in Missing(a, b)
    ensures forall x :: x in added <==> x in Missing(b, a)
  {
    changes, removed, added := [], [], [];
    var todo := a.packages.Keys + b.packages.Keys;
    ghost var done: set<string> := {};
    while todo != {}
      invariant done !! todo && done + todo == a.packages.Keys + b.packages.Keys
      invariant forall c :: c in changes <==> SharedReports(c, id, a, b, done)
      invariant DistinctIdentities(removed) && DistinctIdentities(added)
      invariant forall x :: x in removed <==> x.identity in done && x in Missing(a, b)
      invariant forall x :: x in added <==> x.identity in done && x in Missing(b, a)
      decreases todo
    {
      var k :| k in todo;
      ghost var before := done;
      todo, done := todo - {k}, done + {k};
      if k !in a.packages {
        added := added + [b.packages[k]];
        assert forall c :: SharedReports(c, id, a, b, before) <==> SharedReports(c, id, a, b, done);
      } else if k !in b.packages {
        removed := removed + [a.packages[k]];
        assert forall c :: SharedReports(c, id, a, b, before) <==> SharedReports(c, id, a, b, done);
      } else {
        changes := changes + SharedChanges(id, a.packages[k], b.packages[k]);
        ghost var found := SharedChanges(id, a.packages[k], b.packages[k]);
        assert forall c :: SharedReports(c, id, a, b, done) <==> SharedReports(c, id, a, b, before) || c in found;
      }
    }
    assert forall c :: SharedReports(c, id, a, b, done) <==> SharedReports(c, id, a, b, a.packages.Keys);
  }

  /** A filter on name, source and the identities consumed so far. */
  function OfOrigin(xs: seq<LockPackage>, o: LockPackage, consumed: set<string>): seq<LockPackage> {
    if xs == [] then []
    else
      var x := xs[|xs| - 1];
      OfOrigin(xs[..|xs| - 1], o, consumed) + (if SameOrigin(x, o) && x.identity !in consumed then [x] else [])
  }

  lemma {:induction false} OfOriginMembers(xs: seq<LockPackage>, o: LockPackage, consumed: set<string>, x: LockPackage)
    ensures x in OfOrigin(xs, o, consumed) <==> x in xs && SameOrigin(x, o) && x.identity !in consumed
  {
    if xs != [] {
      OfOriginMembers(xs[..|xs| - 1], o, consumed, x);
      assert x in xs <==> x in xs[..|xs| - 1] || x == xs[|xs| - 1];
    }
  }

  lemma {:induction false} OfOriginDistinct(xs: seq<LockPackage>, o: LockPackage, consumed: set<string>)
    requires DistinctIdentities(xs)
    ensures DistinctIdentities(OfOrigin(xs, o, consumed))
  {
    if xs != [] {
      var front, last := xs[..|xs| - 1], xs[|xs| - 1];
      OfOriginDistinct(front, o, consumed);
      forall y | y in OfOrigin(front, o, consumed) ensures y.identity != last.identity {
        OfOriginMembers(front, o, consumed, y);
        var i :| 0 <= i < |front| && front[i] == y;
        assert xs[i] == y;
      }
    }
  }

  ghost predicate Sole(n: LockPackage, xs: seq<LockPackage>, o: LockPackage, consumed: set<string>) {
    && n in xs && SameOrigin(n, o) && n.identity !in consumed
    && forall x | x in xs && SameOrigin(x, o) && x.identity !in consumed :: x == n
  }

  lemma SoleOfOrigin(xs: seq<LockPackage>, o: LockPackage, consumed: set<string>)
    requires DistinctIdentities(xs)
    ensures |OfOrigin(xs, o, consumed)| == 1 <==> exists n :: Sole(n, xs, o, consumed)
    ensures |OfOrigin(xs, o, consumed)| == 1 ==> Sole(OfOrigin(xs, o, consumed)[0], xs, o, consumed)
  {
    var ys := OfOrigin(xs, o, consumed);
    OfOriginDistinct(xs, o, consumed);
    forall x ensures x in ys <==> x in xs && SameOrigin(x, o) && x.identity !in consumed {
      OfOriginMembers(xs, o, consumed, x);
    }
    if |ys| == 1 {
      assert ys[0] in ys && Sole(ys[0], xs, o, consumed);
    } else if |ys| > 1 {
      assert ys[0] in ys && ys[1] in ys && ys[0].identity != ys[1].identity;
    }
  }

  /** Packages consumed by the first i iterations over the removed packages. */
  ghost predicate ConsumedBy(x: LockPackage, removed: seq<LockPackage>, i: nat, R: set<LockPackage>, A: set<LockPackage>)
    requires i <= |removed|
  {
    exists j :: 0 <= j < i && Upgrade(removed[j], x, R, A)
  }

  ghost predicate UpgradeReportsBy(c: Change, id: string, removed: seq<LockPackage>, i: nat, R: set<LockPackage>, A: set<LockPackage>)
    requires i <= |removed|
  {
    exists j, n :: 0 <= j < i && Upgrade(removed[j], n, R, A) && c in UpgradeChanges(id, removed[j], n)
  }

  /** An earlier iteration consumed nothing that a package without rivals could take. */
  lemma SoleIsUpgrade(removed: seq<LockPackage>, added: seq<LockPackage>, i: nat, consumed: set<string>,
                      R: set<LockPackage>, A: set<LockPackage>, n: LockPackage)
    requires DistinctIdentities(removed) && i < |removed|
    requires forall x :: x in removed <==> x in R
    requires forall x :: x in added <==> x in A
    requires forall x | x in added :: x.identity in consumed <==> ConsumedBy(x, removed, i, R, A)
    requires Sole(removed[i], removed, removed[i], {})
    ensures Sole(n, added, removed[i], consumed) <==> Upgrade(removed[i], n, R, A)
  {
    var o := removed[i];
    forall j, x | 0 <= j < i && x in added && SameOrigin(x, o) ensures !Upgrade(removed[j], x, R, A) {
      assert removed[j] in removed && removed[j].identity != o.identity;
    }
    assert forall x | x in added && SameOrigin(x, o) :: x.identity !in consumed;
  }

  /** The guard of the loop recognises exactly the upgrades, whatever has been consumed before. */
  lemma GuardIsUpgrade(removed: seq<LockPackage>, added: seq<LockPackage>, i: nat, consumed: set<string>,
                       R: set<LockPackage>, A: set<LockPackage>)
    requires DistinctIdentities(removed) && DistinctIdentities(added) && i < |removed|
    requires forall x :: x in removed <==> x in R
    requires forall x :: x in added <==> x in A
    requires forall x | x in added :: x.identity in consumed <==> ConsumedBy(x, removed, i, R, A)
    ensures (|OfOrigin(added, removed[i], consumed)| == 1 && |OfOrigin(removed, removed[i], {})| == 1)
      <==> Upgraded(removed[i], R, A)
    ensures |OfOrigin(added, removed[i], consumed)| == 1 && |OfOrigin(removed, removed[i], {})| == 1
      ==> Upgrade(removed[i], OfOrigin(added, removed[i], consumed)[0], R, A)
  {
    var o := removed[i];
    SoleOfOrigin(added, o, consumed);
    SoleOfOrigin(removed, o, {});
    hide OfOrigin;
    hide DistinctIdentities;
    assert forall n :: Sole(n, removed, o, {}) ==> n == o;
    if Sole(o, removed, o, {}) {
      forall n ensures Sole(n, added, o, consumed) <==> Upgrade(o, n, R, A) {
        SoleIsUpgrade(removed, added, i, consumed, R, A, n);
      }
    } else {
      forall n ensures !Upgrade(o, n, R, A) { }
    }
  }

  lemma UpgradeMembers(o: LockPackage, n: LockPackage, R: set<LockPackage>, A: set<LockPackage>)
    requires Upgrade(o, n, R, A)
    ensures o in R && n in A
  { }

  lemma NothingConsumed(id: string, removed: seq<LockPackage>, R: set<LockPackage>, A: set<LockPackage>)
    ensures forall c :: !UpgradeReportsBy(c, id, removed, 0, R, A)
    ensures forall x :: !ConsumedBy(x, removed, 0, R, A)
  { }

  lemma UpgradeStep(id: string, removed: seq<LockPackage>, i: nat, R: set<LockPackage>, A: set<LockPackage>)
    requires i < |removed|
    ensures forall x :: ConsumedBy(x, removed, i + 1, R, A) <==> ConsumedBy(x, removed, i, R, A) || Upgrade(removed[i], x, R, A)
    ensures forall x, y | Upgrade(removed[i], x, R, A) && Upgrade(removed[i], y, R, A) :: x == y
    ensures forall c :: UpgradeReportsBy(c, id, removed, i, R, A) ==> UpgradeReportsBy(c, id, removed, i + 1, R, A)
    ensures forall n | Upgrade(removed[i], n, R, A) :: forall c ::
      (UpgradeReportsBy(c, id, removed, i + 1, R, A)
       <==> UpgradeReportsBy(c, id, removed, i, R, A) || c in UpgradeChanges(id, removed[i], n))
    ensures !Upgraded(removed[i], R, A)
      ==> forall c :: UpgradeReportsBy(c, id, removed, i + 1, R, A) ==> UpgradeReportsBy(c, id, removed, i, R, A)
  {
    hide UpgradeChanges, SameOrigin;
    assert forall x, y | Upgrade(removed[i], x, R, A) && Upgrade(removed[i], y, R, A) :: x == y;
    hide Upgrade;
  }

  lemma AllUpgradesReported(id: string, removed: seq<LockPackage>, R: set<LockPackage>, A: set<LockPackage>)
    requires forall x :: x in removed <==> x in R
    ensures forall c :: UpgradeReportsBy(c, id, removed, |removed|, R, A) <==> UpgradeReports(c, id, R, A)
    ensures forall x :: ConsumedBy(x, removed, |removed|, R, A) <==> Upgrades(x, R, A)
  {
    hide UpgradeChanges, SameOrigin;
    assert forall o, n :: Upgrade(o, n, R, A) ==> o in removed;
    hide Upgrade;
  }

  /** The version pairing of removed and added packages, and what it leaves over. */
  method UpgradeLockChanges(id: string, removed: seq<LockPackage>, added: seq<LockPackage>,
                            ghost R: set<LockPackage>, ghost A: set<LockPackage>)
    returns (changes: seq<Change>, consumedRemoved: set<string>, consumedAdded: set<string>)
    requires DistinctIdentities(removed) && DistinctIdentities(added)
    requires forall x :: x in removed <==> x in R
    requires forall x :: x in added <==> x in A
    ensures forall c :: c in changes <==> UpgradeReports(c, id, R, A)
    ensures forall x | x in removed :: x.identity in consumedRemoved <==> Upgraded(x, R, A)
    ensures forall x | x in added :: x.identity in consumedAdded <==> Upgrades(x, R, A)
  {
    hide OfOrigin, Upgrade, UpgradeReportsBy, ConsumedBy, UpgradeChanges;
    changes, consumedRemoved, consumedAdded := [], {}, {};
    NothingConsumed(id, removed, R, A);
    for i := 0 to |removed|
      invariant forall c :: c in changes <==> UpgradeReportsBy(c, id, removed, i, R, A)
      invariant forall j | 0 <= j < |removed| :: removed[j].identity in consumedRemoved <==> j < i && Upgraded(removed[j], R, A)
      invariant forall x | x in added :: x.identity in consumedAdded <==> ConsumedBy(x, removed, i, R, A)
    {
      var o := removed[i];
      var candidates, oldCandidates := OfOrigin(added, o, consumedAdded), OfOrigin(removed, o, {});
      GuardIsUpgrade(removed, added, i, consumedAdded, R, A);
      UpgradeStep(id, removed, i, R, A);
      if |candidates| == 1 && |oldCandidates| == 1 {
        var n := candidates[0];
        assert n in added by { assert Upgrade(o, n, R, A); UpgradeMembers(o, n, R, A); }
        consumedAdded := consumedAdded + {n.identity};
        consumedRemoved := consumedRemoved + {o.identity};
        changes := changes + UpgradeChanges(id, o, n);
      }
    }
    AllUpgradesReported(id, removed, R, A);
  }

  ghost predicate RemovalReportsBy(c: Change, id: string, removed: seq<LockPackage>, i: nat, R: set<LockPackage>, A: set<LockPackage>)
    requires i <= |removed|
  {
    exists j :: 0 <= j < i && !Upgraded(removed[j], R, A) && c == RemovedChange(id, removed[j])
  }

  ghost predicate AdditionReportsBy(c: Change, id: string, added: seq<LockPackage>, i: nat, R: set<LockPackage>, A: set<LockPackage>)
    requires i <= |added|
  {
    exists j :: 0 <= j < i && !Upgrades(added[j], R, A) && c == AddedChange(id, added[j])
  }

  /** What the version pairing leaves over. */
  method LeftoverLockChanges(id: string, removed: seq<LockPackage>, added: seq<LockPackage>,
                             consumedRemoved: set<string>, consumedAdded: set<string>,
                             ghost R: set<LockPackage>, ghost A: set<LockPackage>)
    returns (changes: seq<Change>)
    requires forall x :: x in removed <==> x in R
    requires forall x :: x in added <==> x in A
    requires forall x | x in removed :: x.identity in consumedRemoved <==> Upgraded(x, R, A)
    requires forall x | x in added :: x.identity in consumedAdded <==> Upgrades(x, R, A)
    ensures forall c :: c in changes <==> RemovalReports(c, id, R, A) || AdditionReports(c, id, R, A)
  {
    hide Upgraded, Upgrades;
    changes := [];
    for i := 0 to |removed|
      invariant forall c :: c in changes <==> RemovalReportsBy(c, id, removed, i, R, A)
    {
      if removed[i].identity !in consumedRemoved { changes := changes + [RemovedChange(id, removed[i])]; }
    }
    for i := 0 to |added|
      invariant forall c :: c in changes <==> RemovalReports(c, id, R, A) || AdditionReportsBy(c, id, added, i, R, A)
    {
      if added[i].identity !in consumedAdded { changes := changes + [AddedChange(id, added[i])]; }
    }
  }

  method LockChanges(id: string, a: LockFile, b: LockFile) returns (changes: seq<Change>)
    ensures forall c :: c in changes <==> LockReports(c, id, a, b)
  {
    changes := Compare(id, LockFormat, id, "lockfileFormat", Format(a.format), Format(b.format));
    var shared, removed, added := SharedLockChanges(id, a, b);
    ghost var R, A := Missing(a, b), Missing(b, a);
    var upgrades, consumedRemoved, consumedAdded := UpgradeLockChanges(id, removed, added, R, A);
    var leftovers := LeftoverLockChanges(id, removed, added, consumedRemoved, consumedAdded, R, A);
    changes := changes + shared + upgrades + leftovers;
  }

  // ---------------------------------------------------------------- metadata

  function PairChanges(id: string, l: Package, r: Package): seq<Change> {
    var subject := if l.id == r.id then l.id else l.name + ":" + l.source + "->" + r.source;
    Compare(id, MetadataPackageIdentityChanged, subject, "name", Text(l.name), Text(r.name))
    + Compare(id, MetadataPackageIdentityChanged, subject, "version", Text(l.version), Text(r.version))
    + Compare(id, MetadataPackageIdentityChanged, subject, "source", Text(l.source), Text(r.source))
    + Compare(id, DeclaredMsrvChanged, subject, "rustVersion", Text(l.rustVersion), Text(r.rustVersion))
    + Compare(id, EnabledFeaturesChanged, subject, "enabledFeatures",
              Sorted(multiset(l.enabledFeatures)), Sorted(multiset(r.enabledFeatures)))
    + Compare(id, DeclaredDependenciesChanged, subject, "dependencies",
              Sorted(multiset(l.dependencies)), Sorted(multiset(r.dependencies)))
  }

  /** new Map of pairs: a later pair overwrites an earlier one. */
  function NewToOldIds(ps: seq<Pair>): map<string, string> {
    if ps == [] then map[] else NewToOldIds(ps[..|ps| - 1])[ps[|ps| - 1].1.id := ps[|ps| - 1].0.id]
  }

  /** idMap.get(id) || id. */
  function Renamed(ids: map<string, string>, id: string): string {
    if id in ids && ids[id] != "" then ids[id] else id
  }

  function SortedEdges(edges: seq<Edge>, ids: map<string, string>): multiset<SortedEdge> {
    if edges == [] then multiset{}
    else
      SortedEdges(edges[1..], ids)
      + multiset{SortedEdge(edges[0].name, Renamed(ids, edges[0].package), multiset(edges[0].kinds))}
  }

  function FindNode(nodes: seq<Node>, id: string): Option<Node> {
    if nodes == [] then None else if nodes[0].id == id then Some(nodes[0]) else FindNode(nodes[1..], id)
  }

  function NodeChanges(id: string, l: Package, left: Option<Node>, right: Option<Node>, ids: map<string, string>): seq<Change> {
    if left.None? || right.None? then []
    else
      Compare(id, EnabledFeaturesChanged, l.id, "resolvedEnabledFeatures",
              Sorted(multiset(left.value.enabledFeatures)), Sorted(multiset(right.value.enabledFeatures)))
      + Compare(id, TopologyEdgesChanged, l.id, "dependencies",
                Edges(SortedEdges(left.value.dependencies, map[])), Edges(SortedEdges(right.value.dependencies, ids)))
  }

  function HeaderCategory(field: string): (r: Category)
    ensures r == TopologyChanged || r == AuthorityInputChanged
  {
    if field == "rootPackage" || "workspace" <= field then TopologyChanged else AuthorityInputChanged
  }

  function HeaderChange(id: string, o: Metadata, n: Metadata, k: nat): seq<Change>
    requires k < |HeaderFields|
  {
    Compare(id, HeaderCategory(HeaderFields[k]), id, HeaderFields[k], Text(o.header[k]), Text(n.header[k]))
  }

  function RootChange(id: string, o: Metadata, n: Metadata, ids: map<string, string>): seq<Change> {
    Compare(id, TopologyChanged, id, "resolvedGraph.root", Text(o.root), Text(Renamed(ids, n.root)))
  }

  function LeftOnlyChanges(id: string, l: Package, o: Metadata): seq<Change> {
    [Change(id, MetadataPackageRemoved, l.id, "id", Text(l.id), Null)]
    + (if FindNode(o.nodes, l.id).Some? then [Change(id, TopologyNodeRemoved, l.id, "node", Text(l.id), Null)] else [])
  }

  function RightOnlyChanges(id: string, r: Package, n: Metadata): seq<Change> {
    [Change(id, MetadataPackageAdded, r.id, "id", Null, Text(r.id))]
    + (if FindNode(n.nodes, r.id).Some? then [Change(id, TopologyNodeAdded, r.id, "node", Null, Text(r.id))] else [])
  }

  function PairedChanges(id: string, l: Package, r: Package, o: Metadata, n: Metadata, ids: map<string, string>): seq<Change> {
    PairChanges(id, l, r) + NodePairChanges(id, (l, r), o, n, ids)
  }

  ghost predicate HeaderReports(c: Change, id: string, o: Metadata, n: Metadata) {
    exists k :: 0 <= k < |HeaderFields| && c in HeaderChange(id, o, n, k)
  }

  ghost predicate PairReports(c: Change, id: string, o: Metadata, n: Metadata, ids: map<string, string>) {
    exists l, r :: Paired(l, r, o.packages, n.packages) && c in PairedChanges(id, l, r, o, n, ids)
  }

  ghost predicate HasRightPartner(l: Package, o: Metadata, n: Metadata) {
    exists r :: r in n.packages && Paired(l, r, o.packages, n.packages)
  }

  ghost predicate HasLeftPartner(r: Package, o: Metadata, n: Metadata) {
    exists l :: l in o.packages && Paired(l, r, o.packages, n.packages)
  }

  ghost predicate LeftOnlyReports(c: Change, id: string, o: Metadata, n: Metadata) {
    exists l :: l in o.packages && !HasRightPartner(l, o, n) && c in LeftOnlyChanges(id, l, o)
  }

  ghost predicate RightOnlyReports(c: Change, id: string, o: Metadata, n: Metadata) {
    exists r :: r in n.packages && !HasLeftPartner(r, o, n) && c in RightOnlyChanges(id, r, n)
  }

  /** The changes between two metadata files, as a set. */
  ghost predicate MetadataReports(c: Change, id: string, o: Metadata, n: Metadata) {
    var ids := NewToOldIds(Pairs(o.packages, n.packages));
    || HeaderReports(c, id, o, n)
    || c in RootChange(id, o, n, ids)
    || PairReports(c, id, o, n, ids)
    || LeftOnlyReports(c, id, o, n)
    || RightOnlyReports(c, id, o, n)
  }

  method HeaderChanges(id: string, o: Metadata, n: Metadata) returns (changes: seq<Change>)
    ensures forall c :: c in changes <==> HeaderReports(c, id, o, n)
  {
    hide HeaderChange;
    changes := [];
    for i := 0 to |HeaderFields|
      invariant forall c :: c in changes <==> exists k :: 0 <= k < i && c in HeaderChange(id, o, n, k)
    {
      changes := changes + HeaderChange(id, o, n, i);
    }
  }

  method PackagePairChanges(id: string, pairs: seq<Pair>) returns (changes: seq<Change>)
    ensures forall c :: c in changes <==> exists j :: 0 <= j < |pairs| && c in PairChanges(id, pairs[j].0, pairs[j].1)
  {
    hide PairChanges;
    changes := [];
    for i := 0 to |pairs|
      invariant forall c :: c in changes <==> exists j :: 0 <= j < i && c in PairChanges(id, pairs[j].0, pairs[j].1)
    {
      changes := changes + PairChanges(id, pairs[i].0, pairs[i].1);
    }
  }

  function NodePairChanges(id: string, p: Pair, o: Metadata, n: Metadata, ids: map<string, string>): seq<Change> {
    NodeChanges(id, p.0, FindNode(o.nodes, p.0.id), FindNode(n.nodes, p.1.id), ids)
  }

  method GraphPairChanges(id: string, pairs: seq<Pair>, o: Metadata, n: Metadata, ids: map<string, string>)
    returns (changes: seq<Change>)
    ensures forall c :: c in changes <==> exists j :: 0 <= j < |pairs| && c in NodePairChanges(id, pairs[j], o, n, ids)
  {
    hide NodePairChanges;
    changes := [];
    for i := 0 to |pairs|
      invariant forall c :: c in changes <==> exists j :: 0 <= j < i && c in NodePairChanges(id, pairs[j], o, n, ids)
    {
      changes := changes + NodePairChanges(id, pairs[i], o, n, ids);
    }
  }

  method LeftOnlyAll(id: string, leftOnly: seq<Package>, o: Metadata) returns (changes: seq<Change>)
    ensures forall c :: c in changes <==> exists j :: 0 <= j < |leftOnly| && c in LeftOnlyChanges(id, leftOnly[j], o)
  {
    changes := [];
    for i := 0 to |leftOnly|
      invariant forall c :: c in changes <==> exists j :: 0 <= j < i && c in LeftOnlyChanges(id, leftOnly[j], o)
    {
      changes := changes + LeftOnlyChanges(id, leftOnly[i], o);
    }
  }

  method RightOnlyAll(id: string, rightOnly: seq<Package>, n: Metadata) returns (changes: seq<Change>)
    ensures forall c :: c in changes <==> exists j :: 0 <= j < |rightOnly| && c in RightOnlyChanges(id, rightOnly[j], n)
  {
    changes := [];
    for i := 0 to |rightOnly|
      invariant forall c :: c in changes <==> exists j :: 0 <= j < i && c in RightOnlyChanges(id, rightOnly[j], n)
    {
      changes := changes + RightOnlyChanges(id, rightOnly[i], n);
    }
  }

  ghost predicate PairReportsBy(c: Change, id: string, ps: seq<Pair>, o: Metadata, n: Metadata, ids: map<string, string>) {
    exists j :: 0 <= j < |ps| && c in PairedChanges(id, ps[j].0, ps[j].1, o, n, ids)
  }

  lemma PairReportsByIndex(c: Change, id: string, ps: seq<Pair>, o: Metadata, n: Metadata, ids: map<string, string>)
    requires forall l, r :: (l, r) in ps <==> Paired(l, r, o.packages, n.packages)
    ensures PairReports(c, id, o, n, ids) <==> PairReportsBy(c, id, ps, o, n, ids)
  {
    hide Paired, PairedChanges;
    if PairReports(c, id, o, n, ids) {
      var l, r :| Paired(l, r, o.packages, n.packages) && c in PairedChanges(id, l, r, o, n, ids);
      assert (l, r) in ps;
      var j :| 0 <= j < |ps| && ps[j] == (l, r);
      assert c in PairedChanges(id, ps[j].0, ps[j].1, o, n, ids);
    }
    if PairReportsBy(c, id, ps, o, n, ids) {
      var j :| 0 <= j < |ps| && c in PairedChanges(id, ps[j].0, ps[j].1, o, n, ids);
      assert (ps[j].0, ps[j].1) in ps;
    }
  }

  lemma LeftoversByIndex(o: Metadata, n: Metadata)
    ensures forall l :: l in LeftOnly(o.packages, n.packages) <==> l in o.packages && !HasRightPartner(l, o, n)
    ensures forall r :: r in RightOnly(o.packages, n.packages) <==> r in n.packages && !HasLeftPartner(r, o, n)
  {
    forall l ensures l in LeftOnly(o.packages, n.packages) <==> l in o.packages && !HasRightPartner(l, o, n) {
      LeftOnlyMembers(o.packages, n.packages, l);
    }
    forall r ensures r in RightOnly(o.packages, n.packages) <==> r in n.packages && !HasLeftPartner(r, o, n) {
      RightOnlyMembers(o.packages, n.packages, r);
    }
  }

  method MetadataChanges(id: string, o: Metadata, n: Metadata) returns (changes: seq<Change>)
    ensures forall c :: c in changes <==> MetadataReports(c, id, o, n)
  {
    var headers := HeaderChanges(id, o, n);
    var pairs, leftOnly, rightOnly := LogicalPackagePairs(o.packages, n.packages);
    var ids := NewToOldIds(pairs);
    var packages := PackagePairChanges(id, pairs);
    var graph := GraphPairChanges(id, pairs, o, n, ids);
    var removed := LeftOnlyAll(id, leftOnly, o);
    var added := RightOnlyAll(id, rightOnly, n);
    changes := headers + packages + RootChange(id, o, n, ids) + graph + removed + added;
    LeftoversByIndex(o, n);
    hide LeftOnly, RightOnly, Pairs, Paired, HasLeftPartner, HasRightPartner, LeftOnlyChanges, RightOnlyChanges;
    hide PairChanges, NodePairChanges, HeaderReports, RootChange;
    forall l, r ensures (l, r) in pairs <==> Paired(l, r, o.packages, n.packages) { PairsMembers(o.packages, n.packages, l, r); }
    forall c ensures c in packages || c in graph <==> PairReports(c, id, o, n, ids) {
      PairReportsByIndex(c, id, pairs, o, n, ids);
      hide PairReports;
    }
    assert forall c :: c in removed <==> LeftOnlyReports(c, id, o, n);
    assert forall c :: c in added <==> RightOnlyReports(c, id, o, n);
  }

  // ---------------------------------------------------------------- when nothing is reported

  lemma EmptyIff(changes: seq<Change>)
    ensures (forall c :: c !in changes) <==> changes == []
  {
    if changes != [] { assert changes[0] in changes; }
  }

  /** The same format, the same identities, and for each the same checksum and dependencies. */
  predicate LocksAgree(a: LockFile, b: LockFile) {
    && a.format == b.format && a.packages.Keys == b.packages.Keys
    && forall k | k in a.packages ::
      && k in b.packages
      && a.packages[k].checksum == b.packages[k].checksum
      && a.packages[k].dependencies == b.packages[k].dependencies
  }

  lemma SharedNothing(id: string, a: LockFile, b: LockFile, k: string)
    requires k in a.packages && k in b.packages
    ensures SharedChanges(id, a.packages[k], b.packages[k]) == []
      <==> (a.packages[k].checksum == b.packages[k].checksum && a.packages[k].dependencies == b.packages[k].dependencies)
  { }

  /** A package found on one side only is reported, as an upgrade or on its own. */
  lemma MissingIsReported(id: string, R: set<LockPackage>, A: set<LockPackage>, o: LockPackage)
    requires o in R
    ensures exists c :: UpgradeReports(c, id, R, A) || RemovalReports(c, id, R, A)
  {
    if Upgraded(o, R, A) {
      var n :| Upgrade(o, n, R, A);
      assert UpgradeReports(UpgradeChanges(id, o, n)[0], id, R, A);
    } else {
      assert RemovalReports(RemovedChange(id, o), id, R, A);
    }
  }

  lemma AdditionIsReported(id: string, R: set<LockPackage>, A: set<LockPackage>, n: LockPackage)
    requires n in A
    ensures exists c :: UpgradeReports(c, id, R, A) || AdditionReports(c, id, R, A)
  {
    if Upgrades(n, R, A) {
      var o :| Upgrade(o, n, R, A);
      assert UpgradeReports(UpgradeChanges(id, o, n)[0], id, R, A);
    } else {
      assert AdditionReports(AddedChange(id, n), id, R, A);
    }
  }

  lemma OneSidedIsReported(id: string, a: LockFile, b: LockFile, k: string)
    requires (k in a.packages && k !in b.packages) || (k in b.packages && k !in a.packages)
    ensures exists c :: LockReports(c, id, a, b)
  {
    var R, A := Missing(a, b), Missing(b, a);
    if k in a.packages {
      assert a.packages[k] in R;
      MissingIsReported(id, R, A, a.packages[k]);
      var c :| UpgradeReports(c, id, R, A) || RemovalReports(c, id, R, A);
      assert LockReports(c, id, a, b);
    } else {
      assert b.packages[k] in A;
      AdditionIsReported(id, R, A, b.packages[k]);
      var c :| UpgradeReports(c, id, R, A) || AdditionReports(c, id, R, A);
      assert LockReports(c, id, a, b);
    }
  }

  lemma SharedIsReported(id: string, a: LockFile, b: LockFile, k: string)
    requires k in a.packages && k in b.packages
    requires a.packages[k].checksum != b.packages[k].checksum || a.packages[k].dependencies != b.packages[k].dependencies
    ensures exists c :: LockReports(c, id, a, b)
  {
    SharedNothing(id, a, b, k);
    var found := SharedChanges(id, a.packages[k], b.packages[k]);
    assert found[0] in found && SharedReports(found[0], id, a, b, a.packages.Keys);
    assert LockReports(found[0], id, a, b);
  }

  lemma AgreementIsSilent(id: string, a: LockFile, b: LockFile)
    requires LocksAgree(a, b)
    ensures forall c :: !LockReports(c, id, a, b)
  {
    assert Missing(a, b) == {} == Missing(b, a);
    forall k | k in a.packages ensures SharedChanges(id, a.packages[k], b.packages[k]) == [] { SharedNothing(id, a, b, k); }
    hide SharedChanges;
  }

  /** The differ of lock files reports nothing exactly when they agree. */
  lemma NoLockChangeIff(id: string, a: LockFile, b: LockFile)
    ensures (forall c :: !LockReports(c, id, a, b)) <==> LocksAgree(a, b)
  {
    if LocksAgree(a, b) {
      AgreementIsSilent(id, a, b);
    } else if a.format != b.format {
      assert LockReports(Change(id, LockFormat, id, "lockfileFormat", Format(a.format), Format(b.format)), id, a, b);
    } else if a.packages.Keys != b.packages.Keys {
      var k :| (k in a.packages && k !in b.packages) || (k in b.packages && k !in a.packages);
      OneSidedIsReported(id, a, b, k);
    } else {
      var k :| k in a.packages
        && (a.packages[k].checksum != b.packages[k].checksum || a.packages[k].dependencies != b.packages[k].dependencies);
      SharedIsReported(id, a, b, k);
    }
  }

  predicate PackagesAgree(l: Package, r: Package) {
    && l.name == r.name && l.version == r.version && l.source == r.source && l.rustVersion == r.rustVersion
    && multiset(l.enabledFeatures) == multiset(r.enabledFeatures)
    && multiset(l.dependencies) == multiset(r.dependencies)
  }

  predicate NodesAgree(left: Option<Node>, right: Option<Node>, ids: map<string, string>) {
    left.Some? && right.Some? ==>
      && multiset(left.value.enabledFeatures) == multiset(right.value.enabledFeatures)
      && SortedEdges(left.value.dependencies, map[]) == SortedEdges(right.value.dependencies, ids)
  }

  /** Packages correspond one to one; paired packages and graph nodes agree up to order and renamed ids. */
  ghost predicate MetadataAgree(o: Metadata, n: Metadata) {
    var ids := NewToOldIds(Pairs(o.packages, n.packages));
    && o.header == n.header
    && o.root == Renamed(ids, n.root)
    && AllPaired(o, n)
    && PairsAgree(o, n, ids)
  }

  ghost predicate AllPaired(o: Metadata, n: Metadata) {
    (forall l | l in o.packages :: HasRightPartner(l, o, n)) && (forall r | r in n.packages :: HasLeftPartner(r, o, n))
  }

  ghost predicate PairsAgree(o: Metadata, n: Metadata, ids: map<string, string>) {
    forall l, r | Paired(l, r, o.packages, n.packages) ::
      PackagesAgree(l, r) && NodesAgree(FindNode(o.nodes, l.id), FindNode(n.nodes, r.id), ids)
  }

  lemma CompareSilentIff(id: string, category: Category, subject: string, field: string, before: Value, after: Value)
    ensures Compare(id, category, subject, field, before, after) == [] <==> before == after
  { }

  lemma PackageSilentIff(id: string, l: Package, r: Package)
    ensures PairChanges(id, l, r) == [] <==> PackagesAgree(l, r)
  {
    forall category, subject, field, before, after
      ensures Compare(id, category, subject, field, before, after) == [] <==> before == after
    {
      CompareSilentIff(id, category, subject, field, before, after);
    }
    hide Compare;
  }

  lemma NodeSilentIff(id: string, l: Package, left: Option<Node>, right: Option<Node>, ids: map<string, string>)
    ensures NodeChanges(id, l, left, right, ids) == [] <==> NodesAgree(left, right, ids)
  {
    hide SortedEdges;
  }

  lemma PairNothing(id: string, l: Package, r: Package, o: Metadata, n: Metadata, ids: map<string, string>)
    ensures PairedChanges(id, l, r, o, n, ids) == []
      <==> PackagesAgree(l, r) && NodesAgree(FindNode(o.nodes, l.id), FindNode(n.nodes, r.id), ids)
  {
    hide FindNode, NodesAgree, PackagesAgree, UniqueIds, NodeChanges, PairChanges;
    PackageSilentIff(id, l, r);
    NodeSilentIff(id, l, FindNode(o.nodes, l.id), FindNode(n.nodes, r.id), ids);
  }

  lemma NoHeaderChangeIff(id: string, o: Metadata, n: Metadata)
    ensures (forall c :: !HeaderReports(c, id, o, n)) <==> o.header == n.header
  {
    if o.header != n.header {
      var k :| 0 <= k < |HeaderFields| && o.header[k] != n.header[k];
      var found := HeaderChange(id, o, n, k);
      assert found[0] in found && HeaderReports(found[0], id, o, n);
    }
  }

  lemma NoPairChangeIff(id: string, o: Metadata, n: Metadata, ids: map<string, string>)
    ensures (forall c :: !PairReports(c, id, o, n, ids))
      <==> PairsAgree(o, n, ids)
  {
    forall l, r ensures PairedChanges(id, l, r, o, n, ids) == []
      <==> PackagesAgree(l, r) && NodesAgree(FindNode(o.nodes, l.id), FindNode(n.nodes, r.id), ids)
    {
      PairNothing(id, l, r, o, n, ids);
    }
    hide Paired, PairedChanges, NodesAgree, PackagesAgree, FindNode;
    if forall c :: !PairReports(c, id, o, n, ids) {
      forall l, r | Paired(l, r, o.packages, n.packages) ensures PairedChanges(id, l, r, o, n, ids) == [] {
        assert forall c :: c in PairedChanges(id, l, r, o, n, ids) ==> PairReports(c, id, o, n, ids);
        EmptyIff(PairedChanges(id, l, r, o, n, ids));
      }
    }
  }

  lemma NoLeftoverChangeIff(id: string, o: Metadata, n: Metadata)
    ensures (forall c :: !LeftOnlyReports(c, id, o, n) && !RightOnlyReports(c, id, o, n)) <==> AllPaired(o, n)
  {
    hide HasRightPartner, HasLeftPartner;
    if l :| l in o.packages && !HasRightPartner(l, o, n) {
      assert LeftOnlyReports(LeftOnlyChanges(id, l, o)[0], id, o, n);
    }
    if r :| r in n.packages && !HasLeftPartner(r, o, n) {
      assert RightOnlyReports(RightOnlyChanges(id, r, n)[0], id, o, n);
    }
  }

  /** The differ of metadata reports nothing exactly when the graphs agree. */
  lemma NoMetadataChangeIff(id: string, o: Metadata, n: Metadata)
    ensures (forall c :: !MetadataReports(c, id, o, n)) <==> MetadataAgree(o, n)
  {
    var ids := NewToOldIds(Pairs(o.packages, n.packages));
    NoHeaderChangeIff(id, o, n);
    NoPairChangeIff(id, o, n, ids);
    NoLeftoverChangeIff(id, o, n);
    EmptyIff(RootChange(id, o, n, ids));
    assert RootChange(id, o, n, ids) == [] <==> o.root == Renamed(ids, n.root);
    hide PairsAgree, AllPaired, HeaderReports, PairReports, LeftOnlyReports, RightOnlyReports, RootChange, Pairs, NewToOldIds, Renamed;
    hide UniqueIds;
    if forall c :: !MetadataReports(c, id, o, n) {
      forall c ensures !HeaderReports(c, id, o, n) && c !in RootChange(id, o, n, ids) && !PairReports(c, id, o, n, ids)
        && !LeftOnlyReports(c, id, o, n) && !RightOnlyReports(c, id, o, n)
      {
        assert !MetadataReports(c, id, o, n);
      }
      assert MetadataAgree(o, n);
    }
  }

  lemma {:induction false} RenamingByEqualPairs(ps: seq<Pair>, id: string)
    requires forall p | p in ps :: p.0 == p.1
    ensures Renamed(NewToOldIds(ps), id) == id
  {
    if ps != [] { RenamingByEqualPairs(ps[..|ps| - 1], id); }
  }

  lemma {:induction false} EdgesUnderIdentity(edges: seq<Edge>, ids: map<string, string>)
    requires forall id :: Renamed(ids, id) == id
    ensures SortedEdges(edges, ids) == SortedEdges(edges, map[])
  {
    if edges != [] { EdgesUnderIdentity(edges[1..], ids); }
  }

  /** Equal packages are paired with themselves and nothing is renamed. */
  lemma SamePackagesPair(o: Metadata, n: Metadata)
    requires o.packages == n.packages
    ensures forall l, r :: Paired(l, r, o.packages, n.packages) <==> l in o.packages && l == r
    ensures forall id :: Renamed(NewToOldIds(Pairs(o.packages, n.packages)), id) == id
    ensures AllPaired(o, n)
  {
    var ps := Pairs(o.packages, n.packages);
    forall l, r ensures Paired(l, r, o.packages, n.packages) <==> l in o.packages && l == r {
      if Paired(l, r, o.packages, n.packages) && l.id == r.id { SameIdSamePackage(o.packages, l, r); }
    }
    forall p | p in ps ensures p.0 == p.1 { PairsMembers(o.packages, n.packages, p.0, p.1); }
    forall id ensures Renamed(NewToOldIds(ps), id) == id { RenamingByEqualPairs(ps, id); }
    forall l | l in o.packages ensures HasRightPartner(l, o, n) && HasLeftPartner(l, o, n) {
      assert Paired(l, l, o.packages, n.packages);
    }
  }

  /** Nodes compare as they are, where both files have one; a node on one side only is not compared. */
  ghost predicate SharedNodesAgree(o: Metadata, n: Metadata) {
    forall p | p in o.packages :: NodesAgree(FindNode(o.nodes, p.id), FindNode(n.nodes, p.id), map[])
  }

  lemma NodesUnderIdentity(left: Option<Node>, right: Option<Node>, ids: map<string, string>)
    requires forall id :: Renamed(ids, id) == id
    ensures NodesAgree(left, right, ids) <==> NodesAgree(left, right, map[])
  {
    if right.Some? { EdgesUnderIdentity(right.value.dependencies, ids); }
  }

  /**
    What the differ does not see.  Files with equal packages agree exactly when their
    headers, roots and shared nodes do, whatever nodes one of them has and the other lacks.
  */
  lemma SamePackagesAgreeIff(o: Metadata, n: Metadata)
    requires o.packages == n.packages
    ensures MetadataAgree(o, n) <==> o.header == n.header && o.root == n.root && SharedNodesAgree(o, n)
  {
    var ids := NewToOldIds(Pairs(o.packages, n.packages));
    SamePackagesPair(o, n);
    forall p | p in o.packages
      ensures NodesAgree(FindNode(o.nodes, p.id), FindNode(n.nodes, p.id), ids)
        <==> NodesAgree(FindNode(o.nodes, p.id), FindNode(n.nodes, p.id), map[])
    {
      NodesUnderIdentity(FindNode(o.nodes, p.id), FindNode(n.nodes, p.id), ids);
    }
    hide Paired, NodesAgree, FindNode, Pairs, NewToOldIds, AllPaired, Renamed, UniqueIds;
    assert forall p | p in o.packages :: PackagesAgree(p, p);
  }

  lemma MetadataAgreesWithItself(m: Metadata)
    ensures MetadataAgree(m, m)
  {
    SamePackagesAgreeIff(m, m);
    hide MetadataAgree;
  }

  lemma {:induction false} FindWithout(nodes: seq<Node>, k: nat, id: string)
    requires k < |nodes| && id != nodes[k].id
    ensures FindNode(nodes[..k] + nodes[k + 1..], id) == FindNode(nodes, id)
    decreases |nodes|
  {
    if k == 0 {
      assert nodes[..k] + nodes[k + 1..] == nodes[1..];
    } else {
      var rest := nodes[1..];
      assert (nodes[..k] + nodes[k + 1..])[1..] == rest[..k - 1] + rest[k..];
      assert (nodes[..k] + nodes[k + 1..])[0] == nodes[0];
      FindWithout(rest, k - 1, id);
    }
  }

  lemma {:induction false} FindsNothing(nodes: seq<Node>, id: string)
    requires forall i | 0 <= i < |nodes| :: nodes[i].id != id
    ensures FindNode(nodes, id) == None
  {
    if nodes != [] { FindsNothing(nodes[1..], id); }
  }

  /** A graph that has lost one of its nodes still agrees with the graph that has it. */
  lemma LostNodeIsNotSeen(o: Metadata, n: Metadata, k: nat)
    requires k < |o.nodes| && n == o.(nodes := o.nodes[..k] + o.nodes[k + 1..])
    ensures n.nodes != o.nodes && MetadataAgree(o, n)
  {
    var lost := o.nodes[k].id;
    forall p | p in o.packages ensures NodesAgree(FindNode(o.nodes, p.id), FindNode(n.nodes, p.id), map[]) {
      if p.id == lost { FindsNothing(n.nodes, lost); } else { FindWithout(o.nodes, k, p.id); }
    }
    SamePackagesAgreeIff(o, n);
    hide MetadataAgree;
  }

  // ---------------------------------------------------------------- renamed graphs

  lemma {:induction false} LaterPairsKeepIds(ps: seq<Pair>, q: Pair)
    requires UniqueIds(Seconds(ps)) && q in ps
    ensures q.1.id in NewToOldIds(ps) && NewToOldIds(ps)[q.1.id] == q.0.id
    decreases |ps|
  {
    var front, last := ps[..|ps| - 1], ps[|ps| - 1];
    SidesAt(ps);
    SidesAt(front);
    if q in front {
      forall i, j | 0 <= i < j < |front| ensures Seconds(front)[i].id != Seconds(front)[j].id {
        assert Seconds(ps)[i].id != Seconds(ps)[j].id;
      }
      LaterPairsKeepIds(front, q);
      var i :| 0 <= i < |front| && front[i] == q;
      assert Seconds(ps)[i].id != Seconds(ps)[|ps| - 1].id;
    }
  }

  /** The renaming of new ids undoes every pair. */
  lemma RenamingFollowsPairs(o: Metadata, n: Metadata, l: Package, r: Package)
    requires Paired(l, r, o.packages, n.packages) && l.id != ""
    ensures Renamed(NewToOldIds(Pairs(o.packages, n.packages)), r.id) == l.id
  {
    PairsMembers(o.packages, n.packages, l, r);
    SecondsUnique(o.packages, n.packages);
    LaterPairsKeepIds(Pairs(o.packages, n.packages), (l, r));
  }

  /** The same dependency, on the package that is paired with the old one. */
  ghost predicate Follows(a: Edge, b: Edge, o: Metadata, n: Metadata) {
    && a.name == b.name && multiset(a.kinds) == multiset(b.kinds)
    && exists l, r :: Paired(l, r, o.packages, n.packages) && l.id == a.package && r.id == b.package && l.id != ""
  }

  /** Upgraded packages do not disturb the topology: edges that follow their packages to new ids compare as equal. */
  lemma {:induction false} RenamedEdgesAgree(olds: seq<Edge>, news: seq<Edge>, o: Metadata, n: Metadata)
    requires |olds| == |news| && forall i | 0 <= i < |olds| :: Follows(olds[i], news[i], o, n)
    ensures SortedEdges(olds, map[]) == SortedEdges(news, NewToOldIds(Pairs(o.packages, n.packages)))
  {
    hide Paired, Pairs, UniqueIds, NewToOldIds;
    if olds != [] {
      RenamedEdgesAgree(olds[1..], news[1..], o, n);
      assert Follows(olds[0], news[0], o, n);
      var l, r :| Paired(l, r, o.packages, n.packages) && l.id == olds[0].package && r.id == news[0].package && l.id != "";
      RenamingFollowsPairs(o, n, l, r);
    }
  }
}
