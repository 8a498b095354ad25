/**
  Whole classifications in scripts/ci/fresh-cargo-resolution.js: one case against its
  reviewed artifacts, cases that exist on one side only, the authority digests, and the
  verdict.  The final sort of the changes only reorders them and is left out.
*/
module DriftReport {
  import opened Common
  import opened PackageDiff
  import opened DriftClassifier

  // ---------------------------------------------------------------- one case

  datatype Artifact = Artifact(lock: Bytes, metadata: Bytes)

  // parseLock, and parseJsonBytes followed by assertNormalizedMetadataShape; None where they throw.
  datatype Parsers = Parsers(lock: Bytes -> Option<LockFile>, metadata: Bytes -> Option<Metadata>)

  predicate Parses(x: Artifact, p: Parsers) {
    p.lock(x.lock).Some? && p.metadata(x.metadata).Some?
  }

  /** A change seen in the parsed files. */
  ghost predicate VisibleChange(c: Change, id: string, before: Artifact, after: Artifact, p: Parsers)
    requires Parses(before, p) && Parses(after, p)
  {
    || LockReports(c, id, p.lock(before.lock).value, p.lock(after.lock).value)
    || MetadataReports(c, id, p.metadata(before.metadata).value, p.metadata(after.metadata).value)
  }

  function ByteChange(id: string, before: Artifact, after: Artifact): Change {
    Change(id, SerializationChanged, id, "bytes", Digest(before.lock + before.metadata), Digest(after.lock + after.metadata))
  }

  ghost predicate CaseReports(c: Change, id: string, before: Artifact, after: Artifact, p: Parsers)
    requires Parses(before, p) && Parses(after, p)
  {
    || VisibleChange(c, id, before, after, p)
    || (c == ByteChange(id, before, after) && before != after && forall d :: !VisibleChange(d, id, before, after, p))
  }

  method ClassifyCase(id: string, before: Artifact, after: Artifact, p: Parsers) returns (r: Option<seq<Change>>)
    ensures r.Some? <==> Parses(before, p) && Parses(after, p)
    ensures r.Some? ==> forall c :: c in r.value <==> CaseReports(c, id, before, after, p)
  {
    var beforeLock, afterLock := p.lock(before.lock), p.lock(after.lock);
    if beforeLock.None? || afterLock.None? { return None; }
    var changes := LockChanges(id, beforeLock.value, afterLock.value);
    var oldMeta, newMeta := p.metadata(before.metadata), p.metadata(after.metadata);
    if oldMeta.None? || newMeta.None? { return None; }
    var metadataChanges := MetadataChanges(id, oldMeta.value, newMeta.value);
    changes := changes + metadataChanges;
    hide LockReports, MetadataReports;
    assert forall c :: c in changes <==> VisibleChange(c, id, before, after, p);
    EmptyIff(changes);
    if changes == [] && (before.lock != after.lock || before.metadata != after.metadata) {
      changes := changes + [ByteChange(id, before, after)];
    }
    return Some(changes);
  }

  /** Nothing visible exactly when both parsed files agree. */
  lemma NothingVisibleIff(id: string, before: Artifact, after: Artifact, p: Parsers)
    requires Parses(before, p) && Parses(after, p)
    ensures (forall c :: !VisibleChange(c, id, before, after, p))
      <==> (LocksAgree(p.lock(before.lock).value, p.lock(after.lock).value)
            && MetadataAgree(p.metadata(before.metadata).value, p.metadata(after.metadata).value))
  {
    NoLockChangeIff(id, p.lock(before.lock).value, p.lock(after.lock).value);
    NoMetadataChangeIff(id, p.metadata(before.metadata).value, p.metadata(after.metadata).value);
    hide LockReports, MetadataReports, LocksAgree, MetadataAgree;
    if forall c :: !VisibleChange(c, id, before, after, p) {
      forall c ensures !LockReports(c, id, p.lock(before.lock).value, p.lock(after.lock).value)
        && !MetadataReports(c, id, p.metadata(before.metadata).value, p.metadata(after.metadata).value)
      {
        assert !VisibleChange(c, id, before, after, p);
      }
    }
  }

  /** A case is reported unchanged exactly when its lock and metadata bytes are identical. */
  lemma CaseSilentIff(id: string, before: Artifact, after: Artifact, p: Parsers)
    requires Parses(before, p) && Parses(after, p)
    ensures (forall c :: !CaseReports(c, id, before, after, p)) <==> before == after
  {
    NothingVisibleIff(id, before, after, p);
    if before == after { MetadataAgreesWithItself(p.metadata(before.metadata).value); }
    hide VisibleChange, LocksAgree, MetadataAgree;
    if forall c :: !CaseReports(c, id, before, after, p) {
      forall c ensures !VisibleChange(c, id, before, after, p) { assert !CaseReports(c, id, before, after, p); }
      assert !CaseReports(ByteChange(id, before, after), id, before, after, p);
    }
  }

  // ---------------------------------------------------------------- what cannot be admitted

  /** Some package identity is in both lock files with different checksums. */
  predicate ChecksumIncident(a: LockFile, b: LockFile) {
    exists k :: k in a.packages && k in b.packages && a.packages[k].checksum != b.packages[k].checksum
  }

  /** Different bytes whose parsed contents agree. */
  ghost predicate UnclassifiedBytes(before: Artifact, after: Artifact, p: Parsers)
    requires Parses(before, p) && Parses(after, p)
  {
    && before != after
    && LocksAgree(p.lock(before.lock).value, p.lock(after.lock).value)
    && MetadataAgree(p.metadata(before.metadata).value, p.metadata(after.metadata).value)
  }

  predicate Blocking(c: Change) { c.category == PackageChecksumChanged || c.category == SerializationChanged }

  lemma PairChangesNeverBlock(c: Change, id: string, l: Package, r: Package)
    requires c in PairChanges(id, l, r)
    ensures !Blocking(c)
  { }

  lemma NodeChangesNeverBlock(c: Change, id: string, l: Package, left: Option<Node>, right: Option<Node>, ids: map<string, string>)
    requires c in NodeChanges(id, l, left, right, ids)
    ensures !Blocking(c)
  {
    hide SortedEdges;
  }

  lemma PairReportsNeverBlock(c: Change, id: string, o: Metadata, n: Metadata, ids: map<string, string>)
    requires PairReports(c, id, o, n, ids)
    ensures !Blocking(c)
  {
    hide Paired, UniqueIds, FindNode, PairChanges, NodeChanges;
    var l, r :| Paired(l, r, o.packages, n.packages) && c in PairedChanges(id, l, r, o, n, ids);
    if c in PairChanges(id, l, r) {
      PairChangesNeverBlock(c, id, l, r);
    } else {
      NodeChangesNeverBlock(c, id, l, FindNode(o.nodes, l.id), FindNode(n.nodes, r.id), ids);
    }
  }

  lemma MetadataChangesNeverBlock(c: Change, id: string, o: Metadata, n: Metadata)
    requires MetadataReports(c, id, o, n)
    ensures !Blocking(c)
  {
    hide FindNode, Paired, Pairs, NewToOldIds, PairReports, UniqueIds, Renamed, HasLeftPartner, HasRightPartner;
    var ids := NewToOldIds(Pairs(o.packages, n.packages));
    if PairReports(c, id, o, n, ids) { PairReportsNeverBlock(c, id, o, n, ids); }
  }

  lemma BlockingLockChange(c: Change, id: string, a: LockFile, b: LockFile)
    requires LockReports(c, id, a, b) && Blocking(c)
    ensures ChecksumIncident(a, b)
  {
    hide Upgrade, Upgrades, Upgraded, Missing;
    assert SharedReports(c, id, a, b, a.packages.Keys);
  }

  lemma IncidentIsReported(id: string, a: LockFile, b: LockFile)
    requires ChecksumIncident(a, b)
    ensures exists c :: LockReports(c, id, a, b) && Blocking(c)
  {
    var k :| k in a.packages && k in b.packages && a.packages[k].checksum != b.packages[k].checksum;
    var c := SharedChanges(id, a.packages[k], b.packages[k])[0];
    assert SharedReports(c, id, a, b, a.packages.Keys);
    assert LockReports(c, id, a, b) && Blocking(c);
  }

  lemma BlockingChangeHasCause(c: Change, id: string, before: Artifact, after: Artifact, p: Parsers)
    requires Parses(before, p) && Parses(after, p) && CaseReports(c, id, before, after, p) && Blocking(c)
    ensures ChecksumIncident(p.lock(before.lock).value, p.lock(after.lock).value) || UnclassifiedBytes(before, after, p)
  {
    var a, b := p.lock(before.lock).value, p.lock(after.lock).value;
    var o, n := p.metadata(before.metadata).value, p.metadata(after.metadata).value;
    NothingVisibleIff(id, before, after, p);
    hide LockReports, MetadataReports, LocksAgree, MetadataAgree, ChecksumIncident, UniqueIds;
    if LockReports(c, id, a, b) {
      BlockingLockChange(c, id, a, b);
    } else if MetadataReports(c, id, o, n) {
      MetadataChangesNeverBlock(c, id, o, n);
    }
  }

  lemma IncidentBlocks(id: string, before: Artifact, after: Artifact, p: Parsers)
    requires Parses(before, p) && Parses(after, p)
    requires ChecksumIncident(p.lock(before.lock).value, p.lock(after.lock).value)
    ensures exists c :: CaseReports(c, id, before, after, p) && Blocking(c)
  {
    var a, b := p.lock(before.lock).value, p.lock(after.lock).value;
    IncidentIsReported(id, a, b);
    hide LockReports, MetadataReports, ChecksumIncident, UniqueIds;
    var c :| LockReports(c, id, a, b) && Blocking(c);
    assert CaseReports(c, id, before, after, p) && Blocking(c);
  }

  lemma UnclassifiedBytesBlock(id: string, before: Artifact, after: Artifact, p: Parsers)
    requires Parses(before, p) && Parses(after, p) && UnclassifiedBytes(before, after, p)
    ensures exists c :: CaseReports(c, id, before, after, p) && Blocking(c)
  {
    NothingVisibleIff(id, before, after, p);
    hide VisibleChange, LocksAgree, MetadataAgree, UniqueIds;
    var c := ByteChange(id, before, after);
    assert CaseReports(c, id, before, after, p) && Blocking(c);
  }

  /** A case blocks admission exactly when a shared package changed its checksum or only the bytes differ. */
  lemma CaseBlocksIff(id: string, before: Artifact, after: Artifact, p: Parsers)
    requires Parses(before, p) && Parses(after, p)
    ensures (exists c :: CaseReports(c, id, before, after, p) && Blocking(c))
      <==> (ChecksumIncident(p.lock(before.lock).value, p.lock(after.lock).value) || UnclassifiedBytes(before, after, p))
  {
    hide CaseReports, ChecksumIncident, UnclassifiedBytes, UniqueIds;
    if c :| CaseReports(c, id, before, after, p) && Blocking(c) { BlockingChangeHasCause(c, id, before, after, p); }
    if ChecksumIncident(p.lock(before.lock).value, p.lock(after.lock).value) { IncidentBlocks(id, before, after, p); }
    if UnclassifiedBytes(before, after, p) { UnclassifiedBytesBlock(id, before, after, p); }
  }

  // ---------------------------------------------------------------- what is seen only as bytes

  /** The case is reported, and its byte change is all there is. */
  ghost predicate OnlyBytesReported(id: string, before: Artifact, after: Artifact, p: Parsers)
    requires Parses(before, p) && Parses(after, p)
  {
    forall c :: CaseReports(c, id, before, after, p) <==> c == ByteChange(id, before, after)
  }

  lemma LockChangesAreNotOfBytes(c: Change, id: string, a: LockFile, b: LockFile)
    requires LockReports(c, id, a, b)
    ensures c.category != SerializationChanged
  {
    hide Upgrade, Upgrades, Upgraded, Missing;
  }

  lemma ByteChangeIsNotVisible(id: string, before: Artifact, after: Artifact, p: Parsers)
    requires Parses(before, p) && Parses(after, p)
    ensures !VisibleChange(ByteChange(id, before, after), id, before, after, p)
  {
    var c := ByteChange(id, before, after);
    var a, b := p.lock(before.lock).value, p.lock(after.lock).value;
    var o, n := p.metadata(before.metadata).value, p.metadata(after.metadata).value;
    hide LockReports, MetadataReports, UniqueIds;
    if LockReports(c, id, a, b) { LockChangesAreNotOfBytes(c, id, a, b); }
    if MetadataReports(c, id, o, n) { MetadataChangesNeverBlock(c, id, o, n); }
  }

  /** Only the bytes are reported exactly when they differ although both parsed files agree. */
  lemma OnlyBytesReportedIff(id: string, before: Artifact, after: Artifact, p: Parsers)
    requires Parses(before, p) && Parses(after, p)
    ensures OnlyBytesReported(id, before, after, p) <==> UnclassifiedBytes(before, after, p)
  {
    ByteChangeIsNotVisible(id, before, after, p);
    NothingVisibleIff(id, before, after, p);
    hide VisibleChange, LocksAgree, MetadataAgree, UniqueIds;
    var c := ByteChange(id, before, after);
    if OnlyBytesReported(id, before, after, p) {
      assert CaseReports(c, id, before, after, p);
    }
  }

  /**
    The differences that are seen only as bytes, where locks agree and packages are equal:
    exactly those that leave header, root and shared nodes alone - the order of the file, and
    every node that only one of the files has.
  */
  lemma SamePackagesOnlyBytesIff(id: string, before: Artifact, after: Artifact, p: Parsers)
    requires Parses(before, p) && Parses(after, p) && LocksAgree(p.lock(before.lock).value, p.lock(after.lock).value)
    requires p.metadata(before.metadata).value.packages == p.metadata(after.metadata).value.packages
    ensures var o, n := p.metadata(before.metadata).value, p.metadata(after.metadata).value;
      (OnlyBytesReported(id, before, after, p) <==>
        before != after && o.header == n.header && o.root == n.root && SharedNodesAgree(o, n))
  {
    OnlyBytesReportedIff(id, before, after, p);
    SamePackagesAgreeIff(p.metadata(before.metadata).value, p.metadata(after.metadata).value);
    hide OnlyBytesReported, MetadataAgree, SharedNodesAgree, LocksAgree;
  }

  // ---------------------------------------------------------------- cases on one side only

  datatype Entry = Entry(id: string, contract: string, fixture: string)

  function Sided(id: string, added: bool, category: Category, subject: string, field: string, v: Value): Change {
    Change(id, category, subject, field, if added then Null else v, if added then v else Null)
  }

  function WholePackageChange(id: string, added: bool, p: LockPackage): Change {
    Sided(id, added, if added then PackageAdded else PackageRemoved, p.identity, "package", WholeLockPackage(p))
  }

  function WholeHeaderChange(id: string, added: bool, m: Metadata, k: nat): Change
    requires k < |HeaderFields|
  {
    Sided(id, added, HeaderCategory(HeaderFields[k]), id, HeaderFields[k], Text(m.header[k]))
  }

  function WholeMetadataPackageChange(id: string, added: bool, p: Package): Change {
    Sided(id, added, if added then MetadataPackageAdded else MetadataPackageRemoved, p.id, "package", WholePackage(p))
  }

  function WholeNodeChange(id: string, added: bool, n: Node): Change {
    Sided(id, added, if added then TopologyNodeAdded else TopologyNodeRemoved, n.id, "node", WholeNode(n))
  }

  function WholeFixedChanges(e: Entry, added: bool, lock: LockFile, m: Metadata): seq<Change> {
    [Sided(e.id, added, AuthorityInputChanged, e.id, "case", WholeEntry(e.contract, e.fixture)),
     Sided(e.id, added, LockFormat, e.id, "lockfileFormat", Format(lock.format)),
     Sided(e.id, added, TopologyChanged, e.id, "resolvedGraph.root", Text(m.root))]
  }

  /** Every field, package and node of the case, each on its own. */
  ghost predicate WholeReports(c: Change, e: Entry, added: bool, lock: LockFile, m: Metadata) {
    || c in WholeFixedChanges(e, added, lock, m)
    || (exists k :: k in lock.packages && c == WholePackageChange(e.id, added, lock.packages[k]))
    || WholeMetadataReports(c, e.id, added, m)
  }

  ghost predicate WholeMetadataReports(c: Change, id: string, added: bool, m: Metadata) {
    || (exists k :: 0 <= k < |HeaderFields| && c == WholeHeaderChange(id, added, m, k))
    || (exists k :: 0 <= k < |m.packages| && c == WholeMetadataPackageChange(id, added, m.packages[k]))
    || (exists k :: 0 <= k < |m.nodes| && c == WholeNodeChange(id, added, m.nodes[k]))
  }

  method LockPackageChanges(id: string, added: bool, lock: LockFile) returns (changes: seq<Change>)
    ensures forall c :: c in changes <==> exists k :: k in lock.packages && c == WholePackageChange(id, added, lock.packages[k])
  {
    changes := [];
    var todo, done := lock.packages.Keys, {};
    while todo != {}
      invariant done !! todo && done + todo == lock.packages.Keys
      invariant forall c :: c in changes <==> exists k :: k in done && c == WholePackageChange(id, added, lock.packages[k])
      decreases todo
    {
      var k :| k in todo;
      todo, done := todo - {k}, done + {k};
      changes := changes + [WholePackageChange(id, added, lock.packages[k])];
    }
  }

  method WholeMetadataChanges(id: string, added: bool, m: Metadata) returns (changes: seq<Change>)
    ensures forall c :: c in changes <==> WholeMetadataReports(c, id, added, m)
  {
    hide WholeHeaderChange, WholeMetadataPackageChange, WholeNodeChange, UniqueIds;
    var headers: seq<Change> := [];
    for i := 0 to |HeaderFields|
      invariant forall c :: c in headers <==> exists k :: 0 <= k < i && c == WholeHeaderChange(id, added, m, k)
    {
      headers := headers + [WholeHeaderChange(id, added, m, i)];
    }
    var packages: seq<Change> := [];
    for i := 0 to |m.packages|
      invariant forall c :: c in packages <==> exists k :: 0 <= k < i && c == WholeMetadataPackageChange(id, added, m.packages[k])
    {
      packages := packages + [WholeMetadataPackageChange(id, added, m.packages[i])];
    }
    var nodes: seq<Change> := [];
    for i := 0 to |m.nodes|
      invariant forall c :: c in nodes <==> exists k :: 0 <= k < i && c == WholeNodeChange(id, added, m.nodes[k])
    {
      nodes := nodes + [WholeNodeChange(id, added, m.nodes[i])];
    }
    changes := headers + packages + nodes;
  }

  method ClassifyWholeCase(e: Entry, artifact: Option<Artifact>, added: bool, p: Parsers) returns (r: Option<seq<Change>>)
    ensures r.Some? <==> artifact.Some? && Parses(artifact.value, p)
    ensures r.Some? ==> var lock, m := p.lock(artifact.value.lock).value, p.metadata(artifact.value.metadata).value;
      forall c :: c in r.value <==> WholeReports(c, e, added, lock, m)
  {
    if artifact.None? { return None; }
    var parsedLock := p.lock(artifact.value.lock);
    if parsedLock.None? { return None; }
    var parsed := p.metadata(artifact.value.metadata);
    if parsed.None? { return None; }
    var lock, m := parsedLock.value, parsed.value;
    var lockChanges := LockPackageChanges(e.id, added, lock);
    hide WholeFixedChanges;
    var metadataChanges := WholeMetadataChanges(e.id, added, m);
    return Some(WholeFixedChanges(e, added, lock, m) + lockChanges + metadataChanges);
  }

  lemma SidedNeverBlocks(id: string, added: bool)
    ensures forall category, subject, field, v :: Sided(id, added, category, subject, field, v).category == category
  { }

  lemma WholeMetadataNeverBlocks(c: Change, id: string, added: bool, m: Metadata)
    requires WholeMetadataReports(c, id, added, m)
    ensures !Blocking(c)
  {
    SidedNeverBlocks(id, added);
    hide UniqueIds, Sided, HeaderCategory;
    if k :| 0 <= k < |HeaderFields| && c == WholeHeaderChange(id, added, m, k) {
      assert c.category == HeaderCategory(HeaderFields[k]);
    }
  }

  lemma WholeCaseNeverBlocks(c: Change, e: Entry, added: bool, lock: LockFile, m: Metadata)
    requires WholeReports(c, e, added, lock, m)
    ensures !Blocking(c)
  {
    hide UniqueIds, WholeMetadataReports, WholeFixedChanges, WholePackageChange, Blocking;
    if WholeMetadataReports(c, e.id, added, m) { WholeMetadataNeverBlocks(c, e.id, added, m); }
    if c in WholeFixedChanges(e, added, lock, m) { WholeFixedNeverBlocks(c, e, added, lock, m); }
    if k :| k in lock.packages && c == WholePackageChange(e.id, added, lock.packages[k]) {
      WholePackageNeverBlocks(e.id, added, lock.packages[k]);
    }
  }

  lemma FixedNeverBlocks(c: Change, id: string, added: bool, entry: Value, format: Value, root: Value)
    requires c in [Sided(id, added, AuthorityInputChanged, id, "case", entry),
                   Sided(id, added, LockFormat, id, "lockfileFormat", format),
                   Sided(id, added, TopologyChanged, id, "resolvedGraph.root", root)]
    ensures !Blocking(c)
  { }

  lemma WholeFixedNeverBlocks(c: Change, e: Entry, added: bool, lock: LockFile, m: Metadata)
    requires c in WholeFixedChanges(e, added, lock, m)
    ensures !Blocking(c)
  {
    hide UniqueIds, Sided, Blocking;
    FixedNeverBlocks(c, e.id, added, WholeEntry(e.contract, e.fixture), Format(lock.format), Text(m.root));
  }

  lemma WholePackageNeverBlocks(id: string, added: bool, p: LockPackage)
    ensures !Blocking(WholePackageChange(id, added, p))
  { }

  /** A case on one side only is always reported, and never blocks admission. */
  lemma WholeCaseIsDrift(e: Entry, added: bool, lock: LockFile, m: Metadata)
    ensures exists c :: WholeReports(c, e, added, lock, m)
    ensures forall c | WholeReports(c, e, added, lock, m) :: !Blocking(c)
  {
    assert WholeReports(WholeFixedChanges(e, added, lock, m)[0], e, added, lock, m) by { hide UniqueIds, WholeMetadataReports; }
    hide WholeReports, UniqueIds, Blocking;
    forall c | WholeReports(c, e, added, lock, m) ensures !Blocking(c) { WholeCaseNeverBlocks(c, e, added, lock, m); }
  }

  // ---------------------------------------------------------------- the whole comparison

  // classifyArtifacts, with new Map over the cases of each policy.
  datatype Comparison = Comparison(reviewed: map<string, Entry>, current: map<string, Entry>,
                                   before: map<string, Artifact>, after: map<string, Artifact>, parsers: Parsers)

  // options.baselineManifest with the digests of the current policy and inputs.
  datatype Authority = Authority(oldPolicy: string, newPolicy: string,
                                 oldInputs: map<string, string>, newInputs: map<string, string>)

  datatype Relation = Match | Drift

  datatype Classification = Classification(relation: Relation, admissible: bool, changes: seq<Change>)

  function Lookup(m: map<string, Artifact>, id: string): Option<Artifact> {
    if id in m then Some(m[id]) else None
  }

  /** Every case has the artifacts it needs, and they parse. */
  predicate CaseClassifiable(id: string, w: Comparison)
    requires id in w.reviewed || id in w.current
  {
    && (id in w.reviewed ==> id in w.before && Parses(w.before[id], w.parsers))
    && (id in w.current ==> id in w.after && Parses(w.after[id], w.parsers))
  }

  ghost predicate ComparisonReports(c: Change, id: string, w: Comparison)
    requires (id in w.reviewed || id in w.current) && CaseClassifiable(id, w)
  {
    if id !in w.reviewed then
      WholeReports(c, w.current[id], true, w.parsers.lock(w.after[id].lock).value, w.parsers.metadata(w.after[id].metadata).value)
    else if id !in w.current then
      WholeReports(c, w.reviewed[id], false, w.parsers.lock(w.before[id].lock).value, w.parsers.metadata(w.before[id].metadata).value)
    else
      CaseReports(c, id, w.before[id], w.after[id], w.parsers)
  }

  /** oldInputs.get(id) || null. */
  function OldInput(a: Authority, id: string): Value {
    if id in a.oldInputs && a.oldInputs[id] != "" then Text(a.oldInputs[id]) else Null
  }

  function NewInput(a: Authority, id: string): Value {
    if id in a.newInputs then Text(a.newInputs[id]) else Undefined
  }

  function PolicyChange(a: Authority): seq<Change> {
    Compare("<policy>", AuthorityInputChanged, "<policy>", "policySha256", Text(a.oldPolicy), Text(a.newPolicy))
  }

  function InputChange(a: Authority, id: string): seq<Change> {
    Compare(id, AuthorityInputChanged, id, "resolutionInputSha256", OldInput(a, id), NewInput(a, id))
  }

  ghost predicate AuthorityReports(c: Change, a: Authority, ids: set<string>) {
    c in PolicyChange(a) || exists id :: id in ids && c in InputChange(a, id)
  }

  /** The same policy digest, and for every current case the same recorded input digest. */
  predicate SameAuthority(a: Authority, ids: set<string>) {
    a.oldPolicy == a.newPolicy && forall id | id in ids :: OldInput(a, id) == NewInput(a, id)
  }

  method ClassifyOne(id: string, w: Comparison) returns (r: Option<seq<Change>>)
    requires id in w.reviewed || id in w.current
    ensures r.Some? <==> CaseClassifiable(id, w)
    ensures r.Some? ==> forall c :: c in r.value <==> ComparisonReports(c, id, w)
  {
    hide WholeReports, CaseReports;
    if id !in w.reviewed {
      r := ClassifyWholeCase(w.current[id], Lookup(w.after, id), true, w.parsers);
    } else if id !in w.current {
      r := ClassifyWholeCase(w.reviewed[id], Lookup(w.before, id), false, w.parsers);
    } else if id !in w.before || id !in w.after {
      r := None;
    } else {
      r := ClassifyCase(id, w.before[id], w.after[id], w.parsers);
    }
  }

  method AuthorityChanges(a: Authority, ids: set<string>) returns (changes: seq<Change>)
    ensures forall c :: c in changes <==> AuthorityReports(c, a, ids)
  {
    hide InputChange;
    changes := PolicyChange(a);
    var todo, done := ids, {};
    while todo != {}
      invariant done !! todo && done + todo == ids
      invariant forall c :: c in changes <==> AuthorityReports(c, a, done)
      decreases todo
    {
      var id :| id in todo;
      todo, done := todo - {id}, done + {id};
      changes := changes + InputChange(a, id);
    }
  }

  lemma AuthoritySilentIff(a: Authority, ids: set<string>)
    ensures (forall c :: !AuthorityReports(c, a, ids)) <==> SameAuthority(a, ids)
    ensures forall c | AuthorityReports(c, a, ids) :: !Blocking(c)
  {
    if a.oldPolicy != a.newPolicy { assert AuthorityReports(PolicyChange(a)[0], a, ids); }
    if id :| id in ids && OldInput(a, id) != NewInput(a, id) { assert AuthorityReports(InputChange(a, id)[0], a, ids); }
  }

  /** The bytes of a case are the same on both sides. */
  predicate SameBytes(id: string, w: Comparison) {
    id in w.reviewed && id in w.current && id in w.before && id in w.after && w.before[id] == w.after[id]
  }

  /** A shared case that cannot be admitted. */
  ghost predicate BlockedCase(id: string, w: Comparison)
    requires (id in w.reviewed || id in w.current) && CaseClassifiable(id, w)
  {
    && id in w.reviewed && id in w.current
    && (ChecksumIncident(w.parsers.lock(w.before[id].lock).value, w.parsers.lock(w.after[id].lock).value)
        || UnclassifiedBytes(w.before[id], w.after[id], w.parsers))
  }

  lemma ComparisonSilentIff(id: string, w: Comparison)
    requires (id in w.reviewed || id in w.current) && CaseClassifiable(id, w)
    ensures (forall c :: !ComparisonReports(c, id, w)) <==> SameBytes(id, w)
  {
    hide WholeReports, CaseReports;
    if id !in w.reviewed {
      var lock, m := w.parsers.lock(w.after[id].lock).value, w.parsers.metadata(w.after[id].metadata).value;
      WholeCaseIsDrift(w.current[id], true, lock, m);
      var c :| WholeReports(c, w.current[id], true, lock, m);
      assert ComparisonReports(c, id, w);
    } else if id !in w.current {
      var lock, m := w.parsers.lock(w.before[id].lock).value, w.parsers.metadata(w.before[id].metadata).value;
      WholeCaseIsDrift(w.reviewed[id], false, lock, m);
      var c :| WholeReports(c, w.reviewed[id], false, lock, m);
      assert ComparisonReports(c, id, w);
    } else {
      CaseSilentIff(id, w.before[id], w.after[id], w.parsers);
      assert forall c :: ComparisonReports(c, id, w) <==> CaseReports(c, id, w.before[id], w.after[id], w.parsers);
    }
  }

  lemma ComparisonBlocksIff(id: string, w: Comparison)
    requires (id in w.reviewed || id in w.current) && CaseClassifiable(id, w)
    ensures (exists c :: ComparisonReports(c, id, w) && Blocking(c)) <==> BlockedCase(id, w)
  {
    hide WholeReports, CaseReports, ChecksumIncident, UnclassifiedBytes, Blocking;
    if id !in w.reviewed {
      WholeCaseIsDrift(w.current[id], true, w.parsers.lock(w.after[id].lock).value, w.parsers.metadata(w.after[id].metadata).value);
    } else if id !in w.current {
      WholeCaseIsDrift(w.reviewed[id], false, w.parsers.lock(w.before[id].lock).value, w.parsers.metadata(w.before[id].metadata).value);
    } else {
      CaseBlocksIff(id, w.before[id], w.after[id], w.parsers);
      assert forall c :: ComparisonReports(c, id, w) <==> CaseReports(c, id, w.before[id], w.after[id], w.parsers);
    }
  }

  ghost predicate ReportedFor(c: Change, ids: set<string>, w: Comparison)
    requires forall id | id in ids :: (id in w.reviewed || id in w.current) && CaseClassifiable(id, w)
  {
    exists id :: id in ids && ComparisonReports(c, id, w)
  }

  /** The loop over the cases of both policies. */
  method ClassifyAll(w: Comparison) returns (r: Option<seq<Change>>)
    ensures r.Some? <==> forall id | id in w.reviewed.Keys + w.current.Keys :: CaseClassifiable(id, w)
    ensures r.Some? ==> forall c :: c in r.value <==> ReportedFor(c, w.reviewed.Keys + w.current.Keys, w)
  {
    hide ComparisonReports, CaseClassifiable;
    var changes: seq<Change> := [];
    var todo, done := w.reviewed.Keys + w.current.Keys, {};
    while todo != {}
      invariant done !! todo && done + todo == w.reviewed.Keys + w.current.Keys
      invariant forall id | id in done :: CaseClassifiable(id, w)
      invariant forall c :: c in changes <==> ReportedFor(c, done, w)
      decreases todo
    {
      var id :| id in todo;
      var found := ClassifyOne(id, w);
      if found.None? { return None; }
      todo, done := todo - {id}, done + {id};
      changes := changes + found.value;
    }
    return Some(changes);
  }

  ghost predicate Classifiable(w: Comparison) {
    forall id | id in w.reviewed.Keys + w.current.Keys :: CaseClassifiable(id, w)
  }

  /** Everything a classification reports. */
  ghost predicate Reported(c: Change, w: Comparison, authority: Option<Authority>)
    requires Classifiable(w)
  {
    || ReportedFor(c, w.reviewed.Keys + w.current.Keys, w)
    || (authority.Some? && AuthorityReports(c, authority.value, w.current.Keys))
  }

  /** The same cases with the same bytes, and the same authority digests. */
  predicate SameEverything(w: Comparison, authority: Option<Authority>) {
    && w.reviewed.Keys == w.current.Keys
    && (forall id | id in w.current.Keys :: SameBytes(id, w))
    && (authority.Some? ==> SameAuthority(authority.value, w.current.Keys))
  }

  lemma CasesSilentIff(ids: set<string>, w: Comparison)
    requires forall id | id in ids :: (id in w.reviewed || id in w.current) && CaseClassifiable(id, w)
    ensures (forall c :: !ReportedFor(c, ids, w)) <==> forall id | id in ids :: SameBytes(id, w)
  {
    forall id | id in ids ensures (forall c :: !ComparisonReports(c, id, w)) <==> SameBytes(id, w) {
      ComparisonSilentIff(id, w);
    }
    hide ComparisonReports, CaseClassifiable, SameBytes;
    if id :| id in ids && !SameBytes(id, w) {
      var c :| ComparisonReports(c, id, w);
      assert ReportedFor(c, ids, w);
    }
  }

  lemma NothingReportedIff(w: Comparison, authority: Option<Authority>)
    requires Classifiable(w)
    ensures (forall c :: !Reported(c, w, authority)) <==> SameEverything(w, authority)
  {
    var ids := w.reviewed.Keys + w.current.Keys;
    if authority.Some? { AuthoritySilentIff(authority.value, w.current.Keys); }
    CasesSilentIff(ids, w);
    assert (forall id | id in ids :: SameBytes(id, w))
      <==> w.reviewed.Keys == w.current.Keys && forall id | id in w.current.Keys :: SameBytes(id, w);
    hide ReportedFor, CaseClassifiable, AuthorityReports, SameAuthority, SameBytes;
    if forall c :: !Reported(c, w, authority) {
      forall c ensures !ReportedFor(c, ids, w) { assert !Reported(c, w, authority); }
      if authority.Some? {
        forall c ensures !AuthorityReports(c, authority.value, w.current.Keys) { assert !Reported(c, w, authority); }
      }
    }
  }

  lemma BlockedIff(w: Comparison, authority: Option<Authority>)
    requires Classifiable(w)
    ensures (exists c :: Reported(c, w, authority) && Blocking(c))
      <==> exists id :: id in w.reviewed.Keys + w.current.Keys && BlockedCase(id, w)
  {
    var ids := w.reviewed.Keys + w.current.Keys;
    if authority.Some? { AuthoritySilentIff(authority.value, w.current.Keys); }
    forall id | id in ids ensures (exists c :: ComparisonReports(c, id, w) && Blocking(c)) <==> BlockedCase(id, w) {
      ComparisonBlocksIff(id, w);
    }
    hide ComparisonReports, CaseClassifiable, AuthorityReports, BlockedCase, Blocking;
    if c :| Reported(c, w, authority) && Blocking(c) {
      var id :| id in ids && ComparisonReports(c, id, w);
      assert BlockedCase(id, w);
    }
    if id :| id in ids && BlockedCase(id, w) {
      var c :| ComparisonReports(c, id, w) && Blocking(c);
      assert Reported(c, w, authority);
    }
  }

  /**
    A classification says "match" exactly when both sides have the same cases with the
    same lock and metadata bytes and the same authority digests.  It is admissible exactly
    when no shared case changed the checksum of an unchanged package identity or differs
    only in its bytes.
  */
  method ClassifyArtifacts(w: Comparison, authority: Option<Authority>) returns (r: Option<Classification>)
    ensures r.Some? <==> Classifiable(w)
    ensures r.Some? ==> (r.value.relation == Match <==> SameEverything(w, authority))
    ensures r.Some? ==> (r.value.admissible <==> forall id | id in w.reviewed.Keys + w.current.Keys :: !BlockedCase(id, w))
    ensures r.Some? ==> forall c :: c in r.value.changes <==> Reported(c, w, authority)
  {
    hide ComparisonReports, CaseClassifiable;
    var all := ClassifyAll(w);
    if all.None? { return None; }
    var changes := all.value;
    if authority.Some? {
      var authorityChanges := AuthorityChanges(authority.value, w.current.Keys);
      changes := changes + authorityChanges;
    }
    assert forall c :: c in changes <==> Reported(c, w, authority);
    EmptyIff(changes);
    NothingReportedIff(w, authority);
    BlockedIff(w, authority);
    hide Reported, SameEverything, BlockedCase, Blocking;
    var blocked := exists c :: c in changes && Blocking(c);
    return Some(Classification(if changes == [] then Match else Drift, !blocked, changes));
  }
}
