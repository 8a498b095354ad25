/**
  What a classification says, entry by entry: for each category, the case, subject, field,
  old and new value, and the difference between the two files that it stands for.
*/
module DriftEntries {
  import opened Common
  import opened PackageDiff
  import opened DriftClassifier
  import opened DriftReport

  // ---------------------------------------------------------------- lock files

  /** p is in file a and not in b, and nothing else of its name and source is. */
  ghost predicate Alone(p: LockPackage, a: LockFile, b: LockFile) {
    && p.identity in a.packages && a.packages[p.identity] == p && p.identity !in b.packages
    && forall k | k in a.packages && k !in b.packages && a.packages[k].name == p.name && a.packages[k].source == p.source ::
      k == p.identity
  }

  /** The new version n of a package o. */
  ghost predicate Replaces(n: LockPackage, o: LockPackage, a: LockFile, b: LockFile) {
    Alone(o, a, b) && Alone(n, b, a) && o.name == n.name && o.source == n.source
  }

  lemma ReplacesIsUpgrade(n: LockPackage, o: LockPackage, a: LockFile, b: LockFile)
    ensures Replaces(n, o, a, b) <==> Upgrade(o, n, Missing(a, b), Missing(b, a))
  {
    var R, A := Missing(a, b), Missing(b, a);
    if Upgrade(o, n, R, A) {
      forall k | k in a.packages && k !in b.packages && a.packages[k].name == o.name && a.packages[k].source == o.source
        ensures k == o.identity
      {
        assert a.packages[k] in R && SameOrigin(a.packages[k], o);
      }
      forall k | k in b.packages && k !in a.packages && b.packages[k].name == n.name && b.packages[k].source == n.source
        ensures k == n.identity
      {
        assert b.packages[k] in A && SameOrigin(b.packages[k], o);
      }
    }
  }

  function Checksum(p: LockPackage): Value { if p.checksum.Some? then Text(p.checksum.value) else Null }

  /** The entries about two lock files, category by category. */
  ghost predicate LockEntry(c: Change, id: string, a: LockFile, b: LockFile) {
    c.caseId == id &&
    match c.category
    case LockFormat =>
      && a.format != b.format && c.subject == id && c.field == "lockfileFormat"
      && c.before == Format(a.format) && c.after == Format(b.format)
    case PackageChecksumChanged =>
      && c.subject in a.packages && c.subject in b.packages && c.field == "checksum"
      && a.packages[c.subject].checksum != b.packages[c.subject].checksum
      && c.before == Checksum(a.packages[c.subject]) && c.after == Checksum(b.packages[c.subject])
    case PackageLockDependenciesChanged =>
      && c.subject in a.packages && c.subject in b.packages && c.field == "dependencies"
      && a.packages[c.subject].dependencies != b.packages[c.subject].dependencies
      && c.before == Texts(a.packages[c.subject].dependencies) && c.after == Texts(b.packages[c.subject].dependencies)
    case PackageVersionChanged =>
      exists o, n :: Replaces(n, o, a, b) && c.subject == o.name + ":" + o.source && c.field == "version"
                     && c.before == Text(o.version) && c.after == Text(n.version)
    case PackageVersionChecksumChanged =>
      exists o, n :: Replaces(n, o, a, b) && o.checksum != n.checksum && c.subject == o.name + ":" + o.source && c.field == "checksum"
                     && c.before == Checksum(o) && c.after == Checksum(n)
    case PackageRemoved =>
      && c.subject in a.packages && c.subject !in b.packages && c.field == "identity"
      && (!exists n :: Replaces(n, a.packages[c.subject], a, b)) && c.before == Text(c.subject) && c.after == Null
    case PackageAdded =>
      && c.subject in b.packages && c.subject !in a.packages && c.field == "identity"
      && (!exists o :: Replaces(b.packages[c.subject], o, a, b)) && c.before == Null && c.after == Text(c.subject)
    case _ => false
  }

  lemma SharedFields(c: Change, id: string, p: LockPackage, q: LockPackage)
    ensures c in SharedChanges(id, p, q) <==>
      && c.caseId == id && c.subject == p.identity && c.before != c.after
      && ((c.category == PackageChecksumChanged && c.field == "checksum" && c.before == Checksum(p) && c.after == Checksum(q))
          || (c.category == PackageLockDependenciesChanged && c.field == "dependencies"
              && c.before == Texts(p.dependencies) && c.after == Texts(q.dependencies)))
  {
    InCompare(c, id, PackageChecksumChanged, p.identity, "checksum", TextOrNull(p.checksum), TextOrNull(q.checksum));
    InCompare(c, id, PackageLockDependenciesChanged, p.identity, "dependencies", Texts(p.dependencies), Texts(q.dependencies));
    hide Compare;
  }

  lemma ChecksumsDiffer(p: LockPackage, q: LockPackage)
    ensures Checksum(p) == Checksum(q) <==> p.checksum == q.checksum
  { }

  lemma SharedEntries(c: Change, id: string, a: LockFile, b: LockFile)
    ensures SharedReports(c, id, a, b, a.packages.Keys) <==>
      LockEntry(c, id, a, b) && (c.category.PackageChecksumChanged? || c.category.PackageLockDependenciesChanged?)
  {
    hide Replaces, SharedChanges, Checksum;
    if SharedReports(c, id, a, b, a.packages.Keys) {
      var k :| k in a.packages.Keys && k in a.packages && k in b.packages && c in SharedChanges(id, a.packages[k], b.packages[k]);
      SharedFields(c, id, a.packages[k], b.packages[k]);
      ChecksumsDiffer(a.packages[k], b.packages[k]);
      assert c.subject == k;
    }
    if LockEntry(c, id, a, b) && (c.category.PackageChecksumChanged? || c.category.PackageLockDependenciesChanged?) {
      var k := c.subject;
      SharedFields(c, id, a.packages[k], b.packages[k]);
      ChecksumsDiffer(a.packages[k], b.packages[k]);
      assert c in SharedChanges(id, a.packages[k], b.packages[k]);
    }
  }

  lemma UpgradeEntries(c: Change, id: string, a: LockFile, b: LockFile)
    ensures UpgradeReports(c, id, Missing(a, b), Missing(b, a)) <==>
      LockEntry(c, id, a, b) && (c.category.PackageVersionChanged? || c.category.PackageVersionChecksumChanged?)
  {
    hide Replaces, Upgrade, Missing;
    var R, A := Missing(a, b), Missing(b, a);
    if UpgradeReports(c, id, R, A) {
      var o, n :| Upgrade(o, n, R, A) && c in UpgradeChanges(id, o, n);
      ReplacesIsUpgrade(n, o, a, b);
    }
    if LockEntry(c, id, a, b) && c.category.PackageVersionChanged? {
      var o, n :| Replaces(n, o, a, b) && c.subject == o.name + ":" + o.source && c.field == "version"
                  && c.before == Text(o.version) && c.after == Text(n.version);
      ReplacesIsUpgrade(n, o, a, b);
      assert c in UpgradeChanges(id, o, n);
    }
    if LockEntry(c, id, a, b) && c.category.PackageVersionChecksumChanged? {
      var o, n :| Replaces(n, o, a, b) && o.checksum != n.checksum && c.subject == o.name + ":" + o.source && c.field == "checksum"
                  && c.before == Checksum(o) && c.after == Checksum(n);
      ReplacesIsUpgrade(n, o, a, b);
      assert c in UpgradeChanges(id, o, n);
    }
  }

  lemma RemovalEntries(c: Change, id: string, a: LockFile, b: LockFile)
    ensures RemovalReports(c, id, Missing(a, b), Missing(b, a)) <==> LockEntry(c, id, a, b) && c.category.PackageRemoved?
    ensures AdditionReports(c, id, Missing(a, b), Missing(b, a)) <==> LockEntry(c, id, a, b) && c.category.PackageAdded?
  {
    var R, A := Missing(a, b), Missing(b, a);
    forall o, n ensures Replaces(n, o, a, b) <==> Upgrade(o, n, R, A) { ReplacesIsUpgrade(n, o, a, b); }
    hide Replaces, Upgrade;
    forall o ensures Upgraded(o, R, A) <==> exists n :: Replaces(n, o, a, b) { }
    forall n ensures Upgrades(n, R, A) <==> exists o :: Replaces(n, o, a, b) { }
    hide Upgraded, Upgrades;
    if LockEntry(c, id, a, b) && c.category.PackageRemoved? { assert a.packages[c.subject] in R; }
    if LockEntry(c, id, a, b) && c.category.PackageAdded? { assert b.packages[c.subject] in A; }
  }

  /** A change between two lock files is reported exactly when it is such an entry. */
  lemma LockReportsAreEntries(c: Change, id: string, a: LockFile, b: LockFile)
    ensures LockReports(c, id, a, b) <==> LockEntry(c, id, a, b)
  {
    SharedEntries(c, id, a, b);
    UpgradeEntries(c, id, a, b);
    RemovalEntries(c, id, a, b);
    hide SharedReports, UpgradeReports, RemovalReports, AdditionReports, Replaces, Missing;
  }

  // ---------------------------------------------------------------- metadata

  /** The header fields in the order of the comparison; the last three are about the workspace. */
  lemma HeaderFieldsAre()
    ensures HeaderFields[..7] == ["schemaVersion", "caseId", "contract", "fixture", "minimumSupportedRust",
                                  "resolverVersion", "incompatibleRustVersions"]
    ensures HeaderFields[7..] == ["rootPackage", "workspaceMembers", "workspaceDefaultMembers"]
  { }

  /** How a pair of packages is named: by its id, or by name and both sources. */
  function PairName(l: Package, r: Package): string {
    if l.id == r.id then l.id else l.name + ":" + l.source + "->" + r.source
  }

  /** A field of a pair of packages, with its old and its new value. */
  ghost predicate PairField(c: Change, l: Package, r: Package) {
    && c.subject == PairName(l, r) && c.before != c.after
    && match c.category
       case MetadataPackageIdentityChanged =>
         || (c.field == "name" && c.before == Text(l.name) && c.after == Text(r.name))
         || (c.field == "version" && c.before == Text(l.version) && c.after == Text(r.version))
         || (c.field == "source" && c.before == Text(l.source) && c.after == Text(r.source))
       case DeclaredMsrvChanged => c.field == "rustVersion" && c.before == Text(l.rustVersion) && c.after == Text(r.rustVersion)
       case EnabledFeaturesChanged =>
         c.field == "enabledFeatures"
         && c.before == Sorted(multiset(l.enabledFeatures)) && c.after == Sorted(multiset(r.enabledFeatures))
       case DeclaredDependenciesChanged =>
         c.field == "dependencies" && c.before == Sorted(multiset(l.dependencies)) && c.after == Sorted(multiset(r.dependencies))
       case _ => false
  }

  /** A field of the nodes that both files have for a pair of packages. */
  ghost predicate NodeField(c: Change, l: Package, x: Node, y: Node, ids: map<string, string>) {
    && c.subject == l.id && c.before != c.after
    && match c.category
       case EnabledFeaturesChanged =>
         c.field == "resolvedEnabledFeatures"
         && c.before == Sorted(multiset(x.enabledFeatures)) && c.after == Sorted(multiset(y.enabledFeatures))
       case TopologyEdgesChanged =>
         c.field == "dependencies"
         && c.before == Edges(SortedEdges(x.dependencies, map[])) && c.after == Edges(SortedEdges(y.dependencies, ids))
       case _ => false
  }

  ghost predicate HasNode(m: Metadata, id: string) { exists x :: x in m.nodes && x.id == id }

  ghost predicate HeaderEntry(c: Change, id: string, o: Metadata, n: Metadata) {
    exists k :: 0 <= k < |HeaderFields| && o.header[k] != n.header[k]
      && c == Change(id, if k < 7 then AuthorityInputChanged else TopologyChanged, id, HeaderFields[k], Text(o.header[k]), Text(n.header[k]))
  }

  ghost predicate NodesField(c: Change, l: Package, r: Package, o: Metadata, n: Metadata, ids: map<string, string>) {
    exists x, y :: x in o.nodes && x.id == l.id && y in n.nodes && y.id == r.id && NodeField(c, l, x, y, ids)
  }

  ghost predicate PairEntry(c: Change, id: string, o: Metadata, n: Metadata, ids: map<string, string>) {
    && c.caseId == id
    && exists l, r :: Paired(l, r, o.packages, n.packages) && (PairField(c, l, r) || NodesField(c, l, r, o, n, ids))
  }

  /** A package that one file has no partner for, and its node, if there is one. */
  ghost predicate LoneEntry(c: Change, id: string, p: Package, m: Metadata, added: bool) {
    && c.caseId == id && c.subject == p.id
    && c.before == (if added then Null else Text(p.id)) && c.after == (if added then Text(p.id) else Null)
    && ((c.category == (if added then MetadataPackageAdded else MetadataPackageRemoved) && c.field == "id")
        || (c.category == (if added then TopologyNodeAdded else TopologyNodeRemoved) && c.field == "node" && HasNode(m, p.id)))
  }

  /** The entries about two metadata files; new ids are read as the old ones of their pairs. */
  ghost predicate MetadataEntry(c: Change, id: string, o: Metadata, n: Metadata) {
    var ids := NewToOldIds(Pairs(o.packages, n.packages));
    || HeaderEntry(c, id, o, n)
    || (o.root != Renamed(ids, n.root)
        && c == Change(id, TopologyChanged, id, "resolvedGraph.root", Text(o.root), Text(Renamed(ids, n.root))))
    || PairEntry(c, id, o, n, ids)
    || (exists l :: l in o.packages && !HasRightPartner(l, o, n) && LoneEntry(c, id, l, o, false))
    || (exists r :: r in n.packages && !HasLeftPartner(r, o, n) && LoneEntry(c, id, r, n, true))
  }

  lemma {:induction false} FindNodeIff(nodes: seq<Node>, id: string, x: Node)
    requires forall i, j | 0 <= i < j < |nodes| :: nodes[i].id != nodes[j].id
    ensures FindNode(nodes, id) == Some(x) <==> x in nodes && x.id == id
    ensures FindNode(nodes, id).Some? <==> exists y :: y in nodes && y.id == id
  {
    if nodes != [] {
      FindNodeIff(nodes[1..], id, x);
      assert forall y :: y in nodes <==> y == nodes[0] || y in nodes[1..];
    }
  }

  lemma HeaderEntries(c: Change, id: string, o: Metadata, n: Metadata)
    ensures HeaderReports(c, id, o, n) <==> HeaderEntry(c, id, o, n)
  {
    hide UniqueIds;
    forall k | 0 <= k < |HeaderFields|
      ensures HeaderCategory(HeaderFields[k]) == if k < 7 then AuthorityInputChanged else TopologyChanged
    {
      HeaderCategoryIs(k);
    }
    hide HeaderCategory;
    if HeaderReports(c, id, o, n) {
      var k :| 0 <= k < |HeaderFields| && c in HeaderChange(id, o, n, k);
    }
    if HeaderEntry(c, id, o, n) {
      var k :| 0 <= k < |HeaderFields| && o.header[k] != n.header[k] && c ==
        Change(id, if k < 7 then AuthorityInputChanged else TopologyChanged, id, HeaderFields[k], Text(o.header[k]), Text(n.header[k]));
      assert c in HeaderChange(id, o, n, k);
    }
  }

  lemma HeaderCategoryIs(k: nat)
    requires k < |HeaderFields|
    ensures HeaderCategory(HeaderFields[k]) == if k < 7 then AuthorityInputChanged else TopologyChanged
  {
    if k < 7 {
      assert HeaderFields[k][0] != 'w';
      assert "workspace"[0] == 'w';
    } else {
      assert k == 7 || k == 8 || k == 9;
      assert k > 7 ==> HeaderFields[k][..9] == "workspace";
    }
  }

  lemma InSix(c: Change, u: seq<Change>, v: seq<Change>, w: seq<Change>, x: seq<Change>, y: seq<Change>, z: seq<Change>)
    ensures c in u + v + w + x + y + z <==> c in u || c in v || c in w || c in x || c in y || c in z
  { }

  lemma PairFields(c: Change, id: string, l: Package, r: Package)
    ensures c in PairChanges(id, l, r) <==> c.caseId == id && PairField(c, l, r)
  {
    var subject := PairName(l, r);
    var names, versions, sources := (Text(l.name), Text(r.name)), (Text(l.version), Text(r.version)), (Text(l.source), Text(r.source));
    var msrvs := (Text(l.rustVersion), Text(r.rustVersion));
    var features := (Sorted(multiset(l.enabledFeatures)), Sorted(multiset(r.enabledFeatures)));
    var needs := (Sorted(multiset(l.dependencies)), Sorted(multiset(r.dependencies)));
    InCompare(c, id, MetadataPackageIdentityChanged, subject, "name", names.0, names.1);
    InCompare(c, id, MetadataPackageIdentityChanged, subject, "version", versions.0, versions.1);
    InCompare(c, id, MetadataPackageIdentityChanged, subject, "source", sources.0, sources.1);
    InCompare(c, id, DeclaredMsrvChanged, subject, "rustVersion", msrvs.0, msrvs.1);
    InCompare(c, id, EnabledFeaturesChanged, subject, "enabledFeatures", features.0, features.1);
    InCompare(c, id, DeclaredDependenciesChanged, subject, "dependencies", needs.0, needs.1);
    hide Compare;
    InSix(c, Compare(id, MetadataPackageIdentityChanged, subject, "name", names.0, names.1),
          Compare(id, MetadataPackageIdentityChanged, subject, "version", versions.0, versions.1),
          Compare(id, MetadataPackageIdentityChanged, subject, "source", sources.0, sources.1),
          Compare(id, DeclaredMsrvChanged, subject, "rustVersion", msrvs.0, msrvs.1),
          Compare(id, EnabledFeaturesChanged, subject, "enabledFeatures", features.0, features.1),
          Compare(id, DeclaredDependenciesChanged, subject, "dependencies", needs.0, needs.1));
  }

  lemma InCompare(c: Change, id: string, category: Category, subject: string, field: string, before: Value, after: Value)
    ensures c in Compare(id, category, subject, field, before, after) <==>
      before != after && c == Change(id, category, subject, field, before, after)
  { }

  lemma NodeFieldsOf(c: Change, id: string, l: Package, x: Node, y: Node, ids: map<string, string>)
    ensures c in NodeChanges(id, l, Some(x), Some(y), ids) <==> c.caseId == id && NodeField(c, l, x, y, ids)
  {
    hide SortedEdges;
  }

  lemma NodeFields(c: Change, id: string, l: Package, r: Package, o: Metadata, n: Metadata, ids: map<string, string>)
    ensures c in NodePairChanges(id, (l, r), o, n, ids) <==> c.caseId == id && NodesField(c, l, r, o, n, ids)
  {
    var left, right := FindNode(o.nodes, l.id), FindNode(n.nodes, r.id);
    forall x ensures left == Some(x) <==> x in o.nodes && x.id == l.id { FindNodeIff(o.nodes, l.id, x); }
    forall y ensures right == Some(y) <==> y in n.nodes && y.id == r.id { FindNodeIff(n.nodes, r.id, y); }
    if left.Some? && right.Some? { NodeFieldsOf(c, id, l, left.value, right.value, ids); }
    hide FindNode, NodeField, UniqueIds;
    if left.Some? && right.Some? { hide NodeChanges; }
  }

  lemma PairEntries(c: Change, id: string, o: Metadata, n: Metadata, ids: map<string, string>)
    ensures PairReports(c, id, o, n, ids) <==> PairEntry(c, id, o, n, ids)
  {
    forall l, r
      ensures c in PairedChanges(id, l, r, o, n, ids) <==>
        c.caseId == id && (PairField(c, l, r) || NodesField(c, l, r, o, n, ids))
    {
      PairFields(c, id, l, r);
      NodeFields(c, id, l, r, o, n, ids);
      hide PairField, NodesField, PairChanges, NodePairChanges;
    }
    hide PairedChanges, PairField, NodesField, Paired, UniqueIds;
  }

  lemma LoneEntries(c: Change, id: string, p: Package, m: Metadata)
    ensures c in LeftOnlyChanges(id, p, m) <==> LoneEntry(c, id, p, m, false)
    ensures c in RightOnlyChanges(id, p, m) <==> LoneEntry(c, id, p, m, true)
  {
    FindNodeIff(m.nodes, p.id, Node(p.id, [], []));
    hide FindNode, UniqueIds;
  }

  /** A change between two metadata files is reported exactly when it is such an entry. */
  lemma MetadataReportsAreEntries(c: Change, id: string, o: Metadata, n: Metadata)
    ensures MetadataReports(c, id, o, n) <==> MetadataEntry(c, id, o, n)
  {
    var ids := NewToOldIds(Pairs(o.packages, n.packages));
    HeaderEntries(c, id, o, n);
    PairEntries(c, id, o, n, ids);
    forall p ensures c in LeftOnlyChanges(id, p, o) <==> LoneEntry(c, id, p, o, false) { LoneEntries(c, id, p, o); }
    forall p ensures c in RightOnlyChanges(id, p, n) <==> LoneEntry(c, id, p, n, true) { LoneEntries(c, id, p, n); }
    hide HeaderReports, HeaderEntry, PairReports, PairEntry, LoneEntry, LeftOnlyChanges, RightOnlyChanges, UniqueIds;
    hide HasRightPartner, HasLeftPartner, Pairs, NewToOldIds, Renamed;
  }

  // ---------------------------------------------------------------- whole cases, bytes and authority

  /** A value that stands on one side, with null on the other. */
  predicate OneSided(c: Change, id: string, added: bool, v: Value) {
    c.caseId == id && c.before == (if added then Null else v) && c.after == (if added then v else Null)
  }

  ghost predicate FixedEntry(c: Change, e: Entry, added: bool, format: nat, root: string) {
    c.subject == e.id &&
    ((c.category == AuthorityInputChanged && c.field == "case" && OneSided(c, e.id, added, WholeEntry(e.contract, e.fixture)))
     || (c.category == LockFormat && c.field == "lockfileFormat" && OneSided(c, e.id, added, Format(format)))
     || (c.category == TopologyChanged && c.field == "resolvedGraph.root" && OneSided(c, e.id, added, Text(root))))
  }

  predicate HeaderFieldEntry(c: Change, id: string, added: bool, k: nat, text: string)
    requires k < |HeaderFields|
  {
    && c.category == (if k < 7 then AuthorityInputChanged else TopologyChanged) && c.subject == id && c.field == HeaderFields[k]
    && OneSided(c, id, added, Text(text))
  }

  predicate LockPackageEntry(c: Change, id: string, added: bool, p: LockPackage) {
    && c.category == (if added then PackageAdded else PackageRemoved) && c.subject == p.identity && c.field == "package"
    && OneSided(c, id, added, WholeLockPackage(p))
  }

  predicate PackageEntry(c: Change, id: string, added: bool, p: Package) {
    && c.category == (if added then MetadataPackageAdded else MetadataPackageRemoved) && c.subject == p.id && c.field == "package"
    && OneSided(c, id, added, WholePackage(p))
  }

  predicate NodeEntry(c: Change, id: string, added: bool, x: Node) {
    && c.category == (if added then TopologyNodeAdded else TopologyNodeRemoved) && c.subject == x.id && c.field == "node"
    && OneSided(c, id, added, WholeNode(x))
  }

  lemma LockPackageEntries(c: Change, id: string, added: bool, p: LockPackage)
    ensures c == WholePackageChange(id, added, p) <==> LockPackageEntry(c, id, added, p)
  { }

  lemma PackageEntries(c: Change, id: string, added: bool, p: Package)
    ensures c == WholeMetadataPackageChange(id, added, p) <==> PackageEntry(c, id, added, p)
  { }

  lemma NodeEntries(c: Change, id: string, added: bool, x: Node)
    ensures c == WholeNodeChange(id, added, x) <==> NodeEntry(c, id, added, x)
  { }

  lemma FixedEntries(c: Change, e: Entry, added: bool, lock: LockFile, m: Metadata)
    ensures c in WholeFixedChanges(e, added, lock, m) <==> FixedEntry(c, e, added, lock.format, m.root)
  {
    hide UniqueIds;
    FixedListEntries(c, e, added, lock.format, m.root);
    hide FixedEntry, Sided;
  }

  lemma FixedListEntries(c: Change, e: Entry, added: bool, format: nat, root: string)
    ensures c in [Sided(e.id, added, AuthorityInputChanged, e.id, "case", WholeEntry(e.contract, e.fixture)),
                  Sided(e.id, added, LockFormat, e.id, "lockfileFormat", Format(format)),
                  Sided(e.id, added, TopologyChanged, e.id, "resolvedGraph.root", Text(root))]
      <==> FixedEntry(c, e, added, format, root)
  { }

  lemma HeaderFieldEntries(c: Change, id: string, added: bool, m: Metadata, k: nat)
    requires k < |HeaderFields|
    ensures c == WholeHeaderChange(id, added, m, k) <==> HeaderFieldEntry(c, id, added, k, m.header[k])
  {
    HeaderCategoryIs(k);
    hide UniqueIds, HeaderCategory;
  }

  /** The entries about a case on one side only. */
  ghost predicate WholeCaseEntry(c: Change, e: Entry, added: bool, lock: LockFile, m: Metadata) {
    || FixedEntry(c, e, added, lock.format, m.root)
    || (exists k :: 0 <= k < |HeaderFields| && HeaderFieldEntry(c, e.id, added, k, m.header[k]))
    || (exists k :: k in lock.packages && LockPackageEntry(c, e.id, added, lock.packages[k]))
    || (exists k :: 0 <= k < |m.packages| && PackageEntry(c, e.id, added, m.packages[k]))
    || (exists k :: 0 <= k < |m.nodes| && NodeEntry(c, e.id, added, m.nodes[k]))
  }

  /** A change of a case on one side only is reported exactly when it is such an entry. */
  lemma WholeReportsAreEntries(c: Change, e: Entry, added: bool, lock: LockFile, m: Metadata)
    ensures WholeReports(c, e, added, lock, m) <==> WholeCaseEntry(c, e, added, lock, m)
  {
    hide UniqueIds, WholeFixedChanges, WholeHeaderChange, WholePackageChange, WholeMetadataPackageChange, WholeNodeChange;
    hide FixedEntry, HeaderFieldEntry, LockPackageEntry, PackageEntry, NodeEntry;
    FixedEntries(c, e, added, lock, m);
    forall k | 0 <= k < |HeaderFields|
      ensures c == WholeHeaderChange(e.id, added, m, k) <==> HeaderFieldEntry(c, e.id, added, k, m.header[k])
    {
      HeaderFieldEntries(c, e.id, added, m, k);
    }
    forall k | k in lock.packages
      ensures c == WholePackageChange(e.id, added, lock.packages[k]) <==> LockPackageEntry(c, e.id, added, lock.packages[k])
    {
      LockPackageEntries(c, e.id, added, lock.packages[k]);
    }
    forall k | 0 <= k < |m.packages|
      ensures c == WholeMetadataPackageChange(e.id, added, m.packages[k]) <==> PackageEntry(c, e.id, added, m.packages[k])
    {
      PackageEntries(c, e.id, added, m.packages[k]);
    }
    forall k | 0 <= k < |m.nodes| ensures c == WholeNodeChange(e.id, added, m.nodes[k]) <==> NodeEntry(c, e.id, added, m.nodes[k]) {
      NodeEntries(c, e.id, added, m.nodes[k]);
    }
  }

  /** The byte change of a case: the digests of the two files one after the other, on either side. */
  lemma ByteEntry(id: string, before: Artifact, after: Artifact)
    ensures var c := ByteChange(id, before, after);
      && c.caseId == id && c.category == SerializationChanged && c.subject == id && c.field == "bytes"
      && c.before == Digest(before.lock + before.metadata) && c.after == Digest(after.lock + after.metadata)
  { }

  /** The entries about authority: the policy digest, and for each current case the digest of its inputs. */
  lemma AuthorityReportsAreEntries(c: Change, a: Authority, ids: set<string>)
    ensures AuthorityReports(c, a, ids) <==>
      c.category == AuthorityInputChanged && c.subject == c.caseId && c.before != c.after &&
      ((c.caseId == "<policy>" && c.field == "policySha256" && c.before == Text(a.oldPolicy) && c.after == Text(a.newPolicy))
       || (c.caseId in ids && c.field == "resolutionInputSha256"
           && c.before == (if c.caseId in a.oldInputs && a.oldInputs[c.caseId] != "" then Text(a.oldInputs[c.caseId]) else Null)
           && c.after == (if c.caseId in a.newInputs then Text(a.newInputs[c.caseId]) else Undefined)))
  {
    if c.caseId in ids && c in InputChange(a, c.caseId) { assert AuthorityReports(c, a, ids); }
  }
}
