/**
  collectFiles of scripts/release/deterministic-zip.js: walk a directory tree in
  per-directory order, then sort all files by their full path.
*/
module ZipFiles {
  import opened Common
  import opened ZipFormat
  import opened ZipArchive
  import opened ZipRoundTrip
  import opened ZipPrograms

  datatype Node = File(bytes: Octets) | Directory(listing: seq<Listed>) | Link | Special

  datatype Listed = Listed(name: Name, node: Node)

  datatype WalkError = LinkFound | SpecialFound | UnsafeName | DuplicateName

  // ---------------------------------------------------------------- order

  /** compareEntryNames: JavaScript compares strings by UTF-16 code units. */
  predicate Less(a: Name, b: Name) {
    b != [] && (a == [] || a[0] < b[0] || (a[0] == b[0] && Less(a[1..], b[1..])))
  }

  lemma {:induction false} LessIsIrreflexive(a: Name)
    ensures !Less(a, a)
  {
    if a != [] { LessIsIrreflexive(a[1..]); }
  }

  lemma {:induction false} LessIsTotal(a: Name, b: Name)
    ensures Less(a, b) || a == b || Less(b, a)
    ensures !(Less(a, b) && Less(b, a)) && !Less(a, a)
  {
    LessIsIrreflexive(a);
    if a != [] && b != [] && a[0] == b[0] {
      LessIsTotal(a[1..], b[1..]);
      if a[1..] == b[1..] { assert a == [a[0]] + a[1..] == b; }
    }
  }

  lemma {:induction false} LessIsTransitive(a: Name, b: Name, c: Name)
    requires Less(a, b) && Less(b, c)
    ensures Less(a, c)
  {
    if a != [] && a[0] == b[0] && b[0] == c[0] { LessIsTransitive(a[1..], b[1..], c[1..]); }
  }

  function Insert(x: Listed, xs: seq<Listed>): seq<Listed> {
    if xs == [] || !Less(xs[0].name, x.name) then [x] + xs else [xs[0]] + Insert(x, xs[1..])
  }

  function Sort(xs: seq<Listed>): (r: seq<Listed>)
    ensures multiset(r) == multiset(xs)
    ensures forall x :: x in r <==> x in xs
  {
    if xs == [] then []
    else
      InsertAdds(xs[0], Sort(xs[1..]));
      assert xs == [xs[0]] + xs[1..];
      var r := Insert(xs[0], Sort(xs[1..]));
      assert forall x :: x in r <==> x in multiset(r);
      assert forall x :: x in xs <==> x in multiset(xs);
      r
  }

  lemma {:induction false} InsertAdds(x: Listed, xs: seq<Listed>)
    ensures multiset(Insert(x, xs)) == multiset{x} + multiset(xs)
  {
    if !(xs == [] || !Less(xs[0].name, x.name)) {
      InsertAdds(x, xs[1..]);
      assert xs == [xs[0]] + xs[1..];
    }
  }

  /** In order, equal names next to each other. */
  predicate InOrder(xs: seq<Listed>) {
    forall i, j | 0 <= i < j < |xs| :: !Less(xs[j].name, xs[i].name)
  }

  predicate StrictlyInOrder(xs: seq<Listed>) {
    forall i, j | 0 <= i < j < |xs| :: Less(xs[i].name, xs[j].name)
  }

  lemma GoesInFront(x: Listed, xs: seq<Listed>)
    requires InOrder(xs) && xs != [] && !Less(xs[0].name, x.name)
    ensures InOrder([x] + xs)
  {
    forall j | 0 <= j < |xs| ensures !Less(xs[j].name, x.name) {
      if Less(xs[j].name, x.name) {
        LessIsTotal(xs[0].name, xs[j].name);
        if Less(xs[0].name, xs[j].name) { LessIsTransitive(xs[0].name, xs[j].name, x.name); }
      }
    }
  }

  lemma StillLeast(x: Listed, xs: seq<Listed>)
    requires InOrder(xs) && xs != [] && Less(xs[0].name, x.name)
    ensures forall y | y in Insert(x, xs[1..]) :: !Less(y.name, xs[0].name)
  {
    hide Insert;
    InsertAdds(x, xs[1..]);
    LessIsTotal(x.name, xs[0].name);
    forall y | y in Insert(x, xs[1..]) ensures !Less(y.name, xs[0].name) {
      assert y in multiset(Insert(x, xs[1..]));
      if y != x {
        assert y in xs[1..];
        var k :| 0 <= k < |xs[1..]| && xs[1..][k] == y;
        assert xs[k + 1] == y;
      }
    }
  }

  lemma {:induction false} InsertKeepsOrder(x: Listed, xs: seq<Listed>)
    requires InOrder(xs)
    ensures InOrder(Insert(x, xs))
  {
    hide Less;
    if xs == [] {
    } else if !Less(xs[0].name, x.name) {
      GoesInFront(x, xs);
    } else {
      InsertKeepsOrder(x, xs[1..]);
      StillLeast(x, xs);
    }
  }

  lemma {:induction false} SortSorts(xs: seq<Listed>)
    ensures InOrder(Sort(xs))
  {
    if xs != [] {
      SortSorts(xs[1..]);
      InsertKeepsOrder(xs[0], Sort(xs[1..]));
    }
  }

  predicate DistinctNames(xs: seq<Listed>) {
    forall i, j | 0 <= i < j < |xs| :: xs[i].name != xs[j].name
  }

  lemma OrderedAndDistinct(xs: seq<Listed>)
    requires InOrder(xs) && DistinctNames(xs)
    ensures StrictlyInOrder(xs)
  {
    forall i, j | 0 <= i < j < |xs| ensures Less(xs[i].name, xs[j].name) { LessIsTotal(xs[i].name, xs[j].name); }
  }

  /** A set of files has only one strictly ordered list. */
  lemma {:induction false} OrderIsUnique(xs: seq<Listed>, ys: seq<Listed>)
    requires StrictlyInOrder(xs) && StrictlyInOrder(ys)
    requires forall x :: x in xs <==> x in ys
    ensures xs == ys
  {
    SameEmptiness(xs, ys);
    if xs != [] {
      assert xs[0] in xs;
      FirstIsLeast(xs, ys);
      FirstIsLeast(ys, xs);
      LessIsTotal(xs[0].name, ys[0].name);
      assert xs[0] == ys[0];
      forall x ensures x in xs[1..] <==> x in ys[1..] {
        TailMembers(xs, x);
        TailMembers(ys, x);
      }
      OrderIsUnique(xs[1..], ys[1..]);
      assert xs == [xs[0]] + xs[1..] && ys == [ys[0]] + ys[1..];
    }
  }

  lemma SameEmptiness(xs: seq<Listed>, ys: seq<Listed>)
    requires forall x :: x in xs <==> x in ys
    ensures xs == [] <==> ys == []
  {
    if xs != [] { assert xs[0] in ys; }
    if ys != [] { assert ys[0] in xs; }
  }

  lemma FirstIsLeast(xs: seq<Listed>, ys: seq<Listed>)
    requires xs != [] && StrictlyInOrder(ys) && xs[0] in ys
    ensures ys[0] == xs[0] || Less(ys[0].name, xs[0].name)
  {
    var k :| 0 <= k < |ys| && ys[k] == xs[0];
  }

  lemma TailMembers(xs: seq<Listed>, x: Listed)
    requires xs != [] && StrictlyInOrder(xs)
    ensures x in xs[1..] <==> x in xs && x != xs[0]
  {
    LessIsTotal(xs[0].name, xs[0].name);
    if x in xs && x != xs[0] {
      var k :| 0 <= k < |xs| && xs[k] == x;
      assert xs[1..][k - 1] == x;
    }
    if x in xs[1..] {
      var k :| 0 <= k < |xs[1..]| && xs[1..][k] == x;
      assert xs[k + 1] == x;
    }
  }

  // ---------------------------------------------------------------- the walk

  /** segments.join('/'). */
  function Join(segments: seq<Name>): Name {
    if segments == [] then []
    else if |segments| == 1 then segments[0]
    else segments[0] + [SLASH] + Join(segments[1..])
  }

  /** The entries of one directory, already in order, and everything below them. */
  function Walk(owner: Node, todo: seq<Listed>, prefix: seq<Name>): Result<seq<Listed>, WalkError>
    requires forall x | x in todo :: x.node < owner
    decreases owner, |todo|
  {
    if todo == [] then Ok([])
    else
      var x, here := todo[0], prefix + [todo[0].name];
      var first := match x.node
        case Link => Err(LinkFound)
        case Special => Err(SpecialFound)
        case File(_) => Ok([Listed(Join(here), x.node)])
        case Directory(listing) => Walk(x.node, Sort(listing), here);
      if first.Err? then first
      else match Walk(owner, todo[1..], prefix)
        case Err(e) => Err(e)
        case Ok(rest) => Ok(first.value + rest)
  }

  function CollectFiles(root: Node): Result<seq<Listed>, WalkError>
    requires root.Directory?
  {
    match Walk(root, Sort(root.listing), [])
    case Err(e) => Err(e)
    case Ok(found) =>
      var files := Sort(found);
      if exists f | f in files :: !SafeName(f.name) then Err(UnsafeName)
      else if !DistinctNames(files) then Err(DuplicateName)
      else Ok(files)
  }

  /** A file lies at `path` below these entries; the order of listings plays no part. */
  ghost predicate HasFile(listing: seq<Listed>, path: seq<Name>, bytes: Octets)
    decreases |path|
  {
    path != [] && exists x | x in listing ::
      x.name == path[0] &&
      if |path| == 1 then x.node == File(bytes) else x.node.Directory? && HasFile(x.node.listing, path[1..], bytes)
  }

  /** A file that the walk reports comes from a path, and every path is reported. */
  ghost predicate Finds(found: seq<Listed>, listing: seq<Listed>, prefix: seq<Name>) {
    && (forall f | f in found ::
          f.node.File? && exists path :: HasFile(listing, path, f.node.bytes) && f.name == Join(prefix + path))
    && (forall path, bytes | HasFile(listing, path, bytes) :: Listed(Join(prefix + path), File(bytes)) in found)
  }

  /** Two trees hold the same files at the same paths. */
  ghost predicate SameFiles(a: Node, b: Node)
    requires a.Directory? && b.Directory?
  {
    forall path, bytes :: HasFile(a.listing, path, bytes) <==> HasFile(b.listing, path, bytes)
  }

  lemma SortKeepsFiles(listing: seq<Listed>, path: seq<Name>, bytes: Octets)
    ensures HasFile(Sort(listing), path, bytes) <==> HasFile(listing, path, bytes)
  {}

  lemma FileSplits(x: Listed, rest: seq<Listed>, path: seq<Name>, bytes: Octets)
    ensures HasFile([x] + rest, path, bytes) <==> HasFile([x], path, bytes) || HasFile(rest, path, bytes)
  {}

  lemma FindsTogether(first: seq<Listed>, x: Listed, found: seq<Listed>, rest: seq<Listed>, prefix: seq<Name>)
    requires Finds(first, [x], prefix) && Finds(found, rest, prefix)
    ensures Finds(first + found, [x] + rest, prefix)
  {
    forall path, bytes ensures HasFile([x] + rest, path, bytes) <==> HasFile([x], path, bytes) || HasFile(rest, path, bytes) {
      FileSplits(x, rest, path, bytes);
    }
  }

  lemma FileFinds(x: Listed, prefix: seq<Name>)
    requires x.node.File?
    ensures Finds([Listed(Join(prefix + [x.name]), x.node)], [x], prefix)
  {
    assert HasFile([x], [x.name], x.node.bytes) by { assert x in [x]; }
    forall path, bytes | HasFile([x], path, bytes) ensures path == [x.name] && x.node == File(bytes) {}
  }

  lemma DeeperFile(x: Listed, prefix: seq<Name>, f: Listed)
    requires x.node.Directory? && f.node.File?
    requires exists path :: HasFile(Sort(x.node.listing), path, f.node.bytes) && f.name == Join(prefix + [x.name] + path)
    ensures exists path :: HasFile([x], path, f.node.bytes) && f.name == Join(prefix + path)
  {
    var path :| HasFile(Sort(x.node.listing), path, f.node.bytes) && f.name == Join(prefix + [x.name] + path);
    SortKeepsFiles(x.node.listing, path, f.node.bytes);
    var longer := [x.name] + path;
    assert longer[1..] == path && prefix + longer == prefix + [x.name] + path;
    assert HasFile([x], longer, f.node.bytes) by { assert x in [x]; }
  }

  /** What lies below a directory entry is found one segment deeper. */
  lemma DirectoryFinds(found: seq<Listed>, x: Listed, prefix: seq<Name>)
    requires x.node.Directory? && Finds(found, Sort(x.node.listing), prefix + [x.name])
    ensures Finds(found, [x], prefix)
  {
    hide Join;
    forall f | f in found
      ensures f.node.File? && exists path :: HasFile([x], path, f.node.bytes) && f.name == Join(prefix + path)
    {
      DeeperFile(x, prefix, f);
    }
    forall path, bytes | HasFile([x], path, bytes) ensures Listed(Join(prefix + path), File(bytes)) in found {
      SortKeepsFiles(x.node.listing, path[1..], bytes);
      assert prefix + path == prefix + [x.name] + path[1..];
    }
  }

  lemma {:induction false} WalkFinds(owner: Node, todo: seq<Listed>, prefix: seq<Name>)
    requires forall x | x in todo :: x.node < owner
    requires Walk(owner, todo, prefix).Ok?
    ensures Finds(Walk(owner, todo, prefix).value, todo, prefix)
    decreases owner, |todo|
  {
    if todo != [] {
      var x, here := todo[0], prefix + [todo[0].name];
      WalkFinds(owner, todo[1..], prefix);
      var rest := Walk(owner, todo[1..], prefix).value;
      assert todo == [x] + todo[1..];
      if x.node.File? {
        FileFinds(x, prefix);
        FindsTogether([Listed(Join(here), x.node)], x, rest, todo[1..], prefix);
      } else {
        WalkFinds(x.node, Sort(x.node.listing), here);
        var found := Walk(x.node, Sort(x.node.listing), here).value;
        DirectoryFinds(found, x, prefix);
        FindsTogether(found, x, rest, todo[1..], prefix);
      }
    }
  }

  /** A collected list is strictly ordered by full path and holds exactly the files of the tree. */
  lemma CollectedFiles(root: Node)
    requires root.Directory? && CollectFiles(root).Ok?
    ensures var files := CollectFiles(root).value;
            && StrictlyInOrder(files) && (forall f | f in files :: SafeName(f.name))
            && Finds(files, root.listing, [])
  {
    WalkFinds(root, Sort(root.listing), []);
    var found := Walk(root, Sort(root.listing), []).value;
    SortSorts(found);
    OrderedAndDistinct(Sort(found));
    forall path, bytes ensures HasFile(Sort(root.listing), path, bytes) <==> HasFile(root.listing, path, bytes) {
      SortKeepsFiles(root.listing, path, bytes);
    }
  }

  /**
    The order in which the file system lists its directories does not reach the
    archive: two trees with the same files yield the same list of entries.
  */
  lemma SameFilesSameList(a: Node, b: Node)
    requires a.Directory? && b.Directory? && SameFiles(a, b)
    requires CollectFiles(a).Ok? && CollectFiles(b).Ok?
    ensures CollectFiles(a) == CollectFiles(b)
  {
    CollectedFiles(a);
    CollectedFiles(b);
    var xs, ys := CollectFiles(a).value, CollectFiles(b).value;
    forall x ensures x in xs <==> x in ys {
      if x in xs { FoundInOther(x, a, xs, b, ys); }
      if x in ys { FoundInOther(x, b, ys, a, xs); }
    }
    OrderIsUnique(xs, ys);
  }

  lemma FoundInOther(x: Listed, a: Node, xs: seq<Listed>, b: Node, ys: seq<Listed>)
    requires a.Directory? && b.Directory? && SameFiles(a, b)
    requires Finds(xs, a.listing, []) && Finds(ys, b.listing, []) && x in xs
    ensures x in ys
  {
    var path :| HasFile(a.listing, path, x.node.bytes) && x.name == Join([] + path);
    assert HasFile(b.listing, path, x.node.bytes);
    assert x == Listed(Join([] + path), File(x.node.bytes));
  }

  // ---------------------------------------------------------------- refusal

  /** Nothing but files and directories, all the way down. */
  predicate Plain(listing: seq<Listed>) {
    forall x | x in listing :: x.node.File? || (x.node.Directory? && Plain(x.node.listing))
  }

  /** The files below an entry with their full paths, as often as they occur. */
  function FilesOfOne(x: Listed, prefix: seq<Name>): multiset<Listed>
    decreases x
  {
    match x.node
    case File(_) => multiset{Listed(Join(prefix + [x.name]), x.node)}
    case Directory(listing) => FilesOf(listing, prefix + [x.name])
    case _ => multiset{}
  }

  function FilesOf(listing: seq<Listed>, prefix: seq<Name>): multiset<Listed>
    decreases listing
  {
    if listing == [] then multiset{} else FilesOfOne(listing[0], prefix) + FilesOf(listing[1..], prefix)
  }

  lemma {:induction false} FilesOfJoined(xs: seq<Listed>, ys: seq<Listed>, prefix: seq<Name>)
    ensures FilesOf(xs + ys, prefix) == FilesOf(xs, prefix) + FilesOf(ys, prefix)
    decreases |xs|
  {
    hide FilesOfOne;
    if xs == [] {
      assert xs + ys == ys;
    } else {
      FilesOfJoined(xs[1..], ys, prefix);
      assert (xs + ys)[0] == xs[0] && (xs + ys)[1..] == xs[1..] + ys;
    }
  }

  lemma TakeOut(ys: seq<Listed>, k: nat, prefix: seq<Name>)
    requires k < |ys|
    ensures multiset(ys) == multiset{ys[k]} + multiset(ys[..k] + ys[k + 1..])
    ensures FilesOf(ys, prefix) == FilesOfOne(ys[k], prefix) + FilesOf(ys[..k] + ys[k + 1..], prefix)
  {
    var front, x, back := ys[..k], ys[k], ys[k + 1..];
    assert ys == front + ([x] + back) && ([x] + back)[1..] == back;
    FilesOfJoined(front, [x] + back, prefix);
    FilesOfJoined(front, back, prefix);
    hide FilesOfOne;
  }

  lemma Cancel(x: Listed, a: multiset<Listed>, b: multiset<Listed>)
    requires multiset{x} + a == multiset{x} + b
    ensures a == b
  {
    assert a == (multiset{x} + a) - multiset{x} && b == (multiset{x} + b) - multiset{x};
  }

  lemma {:induction false} FilesOfReordered(xs: seq<Listed>, ys: seq<Listed>, prefix: seq<Name>)
    requires multiset(xs) == multiset(ys)
    ensures FilesOf(xs, prefix) == FilesOf(ys, prefix)
    decreases |xs|
  {
    hide FilesOf, FilesOfOne;
    if xs == [] {
      assert ys == [] by { assert |multiset(ys)| == 0; }
    } else {
      assert xs[0] in multiset(ys);
      var k :| 0 <= k < |ys| && ys[k] == xs[0];
      TakeOut(xs, 0, prefix);
      TakeOut(ys, k, prefix);
      assert xs[..0] + xs[1..] == xs[1..];
      Cancel(xs[0], multiset(xs[1..]), multiset(ys[..k] + ys[k + 1..]));
      FilesOfReordered(xs[1..], ys[..k] + ys[k + 1..], prefix);
    }
  }

  /** The walk succeeds exactly on plain trees, and then reports exactly their files. */
  lemma {:induction false} WalkOkIff(owner: Node, todo: seq<Listed>, prefix: seq<Name>)
    requires forall x | x in todo :: x.node < owner
    ensures Walk(owner, todo, prefix).Ok? <==> Plain(todo)
    ensures Walk(owner, todo, prefix).Ok? ==> multiset(Walk(owner, todo, prefix).value) == FilesOf(todo, prefix)
    decreases owner, |todo|
  {
    if todo != [] {
      var x, here := todo[0], prefix + [todo[0].name];
      assert todo == [x] + todo[1..];
      WalkOkIff(owner, todo[1..], prefix);
      if x.node.Directory? {
        WalkOkIff(x.node, Sort(x.node.listing), here);
        FilesOfReordered(Sort(x.node.listing), x.node.listing, here);
        assert Plain(Sort(x.node.listing)) <==> Plain(x.node.listing);
      }
      hide Join;
    }
  }

  /** Each name once. */
  ghost predicate OneOfEach(files: multiset<Listed>) {
    forall x, y | x in files && y in files && x.name == y.name :: x == y && files[x] == 1
  }

  lemma DistinctIff(xs: seq<Listed>)
    ensures DistinctNames(xs) <==> OneOfEach(multiset(xs))
  {
    if DistinctNames(xs) {
      forall x, y | x in multiset(xs) && y in multiset(xs) && x.name == y.name ensures x == y && multiset(xs)[x] == 1 {
        var i :| 0 <= i < |xs| && xs[i] == x;
        var j :| 0 <= j < |xs| && xs[j] == y;
        CountOne(xs, i);
      }
    } else {
      var i, j :| 0 <= i < j < |xs| && xs[i].name == xs[j].name;
      assert xs[i] in multiset(xs) && xs[j] in multiset(xs);
      if xs[i] == xs[j] { CountTwo(xs, i, j); }
    }
  }

  lemma CountOne(xs: seq<Listed>, i: nat)
    requires DistinctNames(xs) && i < |xs|
    ensures multiset(xs)[xs[i]] == 1
  {
    assert xs == xs[..i] + [xs[i]] + xs[i + 1..];
    assert xs[i] !in xs[..i] && xs[i] !in xs[i + 1..];
  }

  lemma CountTwo(xs: seq<Listed>, i: nat, j: nat)
    requires i < j < |xs| && xs[i] == xs[j]
    ensures multiset(xs)[xs[i]] >= 2
  {
    assert xs == xs[..i] + [xs[i]] + xs[i + 1..j] + [xs[j]] + xs[j + 1..];
  }

  /** Safe names, each once. */
  ghost predicate Nameable(files: multiset<Listed>) {
    (forall f | f in files :: SafeName(f.name)) && OneOfEach(files)
  }

  lemma NameableIff(found: seq<Listed>)
    ensures var files := Sort(found);
      ((forall f | f in files :: SafeName(f.name)) && DistinctNames(files)) <==> Nameable(multiset(found))
  {
    var files := Sort(found);
    assert forall f :: f in files <==> f in multiset(files);
    DistinctIff(files);
    hide OneOfEach, DistinctNames, SafeName;
  }

  /** Collecting succeeds exactly on plain trees whose files have safe names, each once. */
  lemma CollectOkIff(root: Node)
    requires root.Directory?
    ensures CollectFiles(root).Ok? <==> Plain(root.listing) && Nameable(FilesOf(root.listing, []))
  {
    WalkOkIff(root, Sort(root.listing), []);
    FilesOfReordered(Sort(root.listing), root.listing, []);
    assert Plain(Sort(root.listing)) <==> Plain(root.listing);
    var walked := Walk(root, Sort(root.listing), []);
    if walked.Ok? { NameableIff(walked.value); }
    hide Plain, FilesOf, Nameable, DistinctNames, SafeName, Walk, Sort;
  }

  /** The same tree, up to the order in which each of its directories is listed. */
  ghost predicate Relisted(a: Node, b: Node)
    decreases a
  {
    if a.Directory? && b.Directory? then
      exists ys: seq<Listed> :: multiset(ys) == multiset(b.listing) && Matches(a.listing, ys)
    else a == b
  }

  ghost predicate Matches(xs: seq<Listed>, ys: seq<Listed>)
    decreases xs
  {
    |xs| == |ys| && forall i | 0 <= i < |xs| :: xs[i].name == ys[i].name && Relisted(xs[i].node, ys[i].node)
  }

  lemma {:induction false} RelistedIsSame(a: Node, b: Node, prefix: seq<Name>)
    requires a.Directory? && b.Directory? && Relisted(a, b)
    ensures Plain(a.listing) <==> Plain(b.listing)
    ensures FilesOf(a.listing, prefix) == FilesOf(b.listing, prefix)
    decreases a, 1
  {
    var ys: seq<Listed> :| multiset(ys) == multiset(b.listing) && Matches(a.listing, ys);
    MatchesAreSame(a.listing, ys, prefix, a);
    FilesOfReordered(ys, b.listing, prefix);
    forall x ensures x in ys <==> x in b.listing { assert x in multiset(ys) <==> x in multiset(b.listing); }
    hide FilesOf, FilesOfOne, Matches, Relisted;
    assert Plain(ys) <==> Plain(b.listing);
  }

  lemma MatchesFrom(xs: seq<Listed>, ys: seq<Listed>)
    requires Matches(xs, ys)
    ensures |xs| == |ys|
    ensures xs != [] ==> xs[0].name == ys[0].name && Relisted(xs[0].node, ys[0].node) && Matches(xs[1..], ys[1..])
  {
    hide Relisted;
  }

  lemma RelistedFile(a: Node, b: Node)
    requires Relisted(a, b) && (!a.Directory? || !b.Directory?)
    ensures a == b
  { }

  lemma PlainFrom(xs: seq<Listed>)
    requires xs != []
    ensures Plain(xs) <==> Plain([xs[0]]) && Plain(xs[1..])
  {
    assert xs == [xs[0]] + xs[1..];
  }

  lemma FilesFrom(xs: seq<Listed>, prefix: seq<Name>)
    requires xs != []
    ensures FilesOf(xs, prefix) == FilesOfOne(xs[0], prefix) + FilesOf(xs[1..], prefix)
  {
    hide FilesOfOne;
  }

  /** One entry and its relisting. */
  lemma {:induction false} MatchIsSame(x: Listed, y: Listed, prefix: seq<Name>, owner: Node)
    requires x.name == y.name && Relisted(x.node, y.node) && x.node < owner
    ensures Plain([x]) <==> Plain([y])
    ensures FilesOfOne(x, prefix) == FilesOfOne(y, prefix)
    decreases owner, 0, 0
  {
    hide Join, Relisted;
    if x.node.Directory? && y.node.Directory? {
      RelistedIsSame(x.node, y.node, prefix + [x.name]);
    } else {
      RelistedFile(x.node, y.node);
    }
  }

  lemma {:induction false} MatchesAreSame(xs: seq<Listed>, ys: seq<Listed>, prefix: seq<Name>, owner: Node)
    requires Matches(xs, ys) && forall x | x in xs :: x.node < owner
    ensures Plain(xs) <==> Plain(ys)
    ensures FilesOf(xs, prefix) == FilesOf(ys, prefix)
    decreases owner, 0, |xs|
  {
    MatchesFrom(xs, ys);
    if xs == [] {
      assert ys == [];
    } else {
      hide *;
      MatchIsSame(xs[0], ys[0], prefix, owner);
      MatchesAreSame(xs[1..], ys[1..], prefix, owner);
      PlainFrom(xs);
      PlainFrom(ys);
      FilesFrom(xs, prefix);
      FilesFrom(ys, prefix);
    }
  }

  /**
    The order in which the file system lists its directories does not matter at all:
    two listings of one tree are both collected or both refused, and give the same list.
  */
  lemma ListingOrderIsIrrelevant(a: Node, b: Node)
    requires a.Directory? && b.Directory? && Relisted(a, b)
    ensures CollectFiles(a).Ok? <==> CollectFiles(b).Ok?
    ensures CollectFiles(a).Ok? ==> CollectFiles(a) == CollectFiles(b)
  {
    CollectOkIff(a);
    CollectOkIff(b);
    RelistedIsSame(a, b, []);
    if CollectFiles(a).Ok? {
      CollectedAre(a);
      CollectedAre(b);
      hide CollectFiles;
      var xs, ys := CollectFiles(a).value, CollectFiles(b).value;
      forall x ensures x in xs <==> x in ys { assert x in multiset(xs) <==> x in multiset(ys); }
      OrderIsUnique(xs, ys);
    }
  }

  lemma CollectedAre(root: Node)
    requires root.Directory? && CollectFiles(root).Ok?
    ensures StrictlyInOrder(CollectFiles(root).value) && multiset(CollectFiles(root).value) == FilesOf(root.listing, [])
  {
    CollectedFiles(root);
    WalkOkIff(root, Sort(root.listing), []);
    FilesOfReordered(Sort(root.listing), root.listing, []);
  }

  // A directory "a" with a file "b", and a file "a.b" beside it.
  function Inner(bytes: Octets): seq<Listed> { [Listed([98], File(bytes))] }

  function Below(bytes: Octets): Listed { Listed([97], Directory(Inner(bytes))) }

  function Beside(bytes: Octets): Listed { Listed([97, DOT, 98], File(bytes)) }

  lemma SortTwo(x: Listed, y: Listed)
    requires Less(x.name, y.name)
    ensures Sort([x]) == [x] && Sort([x, y]) == [x, y]
  {
    LessIsTotal(x.name, y.name);
    assert [x][1..] == [] && [x, y][1..] == [y] && [y][1..] == [];
    assert Sort([y]) == [y];
  }

  lemma WalkOneFile(owner: Node, x: Listed, prefix: seq<Name>)
    requires x.node.File? && x.node < owner
    ensures Walk(owner, [x], prefix) == Ok([Listed(Join(prefix + [x.name]), x.node)])
  {
    assert [x][1..] == [];
    assert Walk(owner, [], prefix) == Ok([]);
    assert [Listed(Join(prefix + [x.name]), x.node)] + [] == [Listed(Join(prefix + [x.name]), x.node)];
  }

  lemma WalkDirectoryThenFile(owner: Node, x: Listed, y: Listed, found: Listed)
    requires x.node.Directory? && y.node.File? && x.node < owner && y.node < owner
    requires Walk(x.node, Sort(x.node.listing), [x.name]) == Ok([found])
    ensures Walk(owner, [x, y], []) == Ok([found, y])
  {
    WalkOneFile(owner, y, []);
    assert [] + [y.name] == [y.name] && [] + [x.name] == [x.name];
    assert [x, y][1..] == [y] && [x, y][0] == x;
    assert [found] + [y] == [found, y];
  }

  /** Per-directory order is not full-path order: "a/b" is walked before "a.b" but sorts behind it. */
  lemma WalkOrderDiffers(bytes: Octets)
    ensures var root := Directory([Below(bytes), Beside(bytes)]);
            && Walk(root, Sort(root.listing), []) == Ok([Listed([97, SLASH, 98], File(bytes)), Beside(bytes)])
            && Less(Beside(bytes).name, [97, SLASH, 98])
  {
    LessThere(bytes);
    WalkedThere(bytes);
  }

  lemma LessThere(bytes: Octets)
    ensures Less(Beside(bytes).name, [97, SLASH, 98])
  {
    var x: Name, y: Name := [97, SLASH, 98], Beside(bytes).name;
    assert x[1..] == [SLASH, 98] && y[1..] == [DOT, 98];
  }

  lemma WalkedThere(bytes: Octets)
    ensures var root := Directory([Below(bytes), Beside(bytes)]);
            Walk(root, Sort(root.listing), []) == Ok([Listed([97, SLASH, 98], File(bytes)), Beside(bytes)])
  {
    hide Walk, Sort;
    var x, y := Below(bytes), Beside(bytes);
    var root := Directory([x, y]);
    assert root.listing[0] == x && root.listing[1] == y;
    assert x.name[1..] == [] && y.name[1..] == [DOT, 98];
    SortTwo(x, y);
    SortTwo(Inner(bytes)[0], Listed([99], File(bytes)));
    assert x.node.listing[0] == Inner(bytes)[0];
    WalkOneFile(x.node, Inner(bytes)[0], [x.name]);
    JoinTwo(x.name, [98]);
    assert x.node.listing == [Inner(bytes)[0]];
    assert x.name + [SLASH] + [98] == [97, SLASH, 98];
    WalkDirectoryThenFile(root, x, y, Listed([97, SLASH, 98], File(bytes)));
  }

  lemma JoinTwo(a: Name, b: Name)
    ensures Join([a] + [b]) == a + [SLASH] + b
  {
    assert ([a] + [b])[1..] == [b];
  }

  // ---------------------------------------------------------------- the whole writer

  /** The order test of verifyLayout: every name stands where sorting would put it. */
  predicate SortedNames(xs: seq<Listed>) {
    forall i | 0 <= i < |xs| :: |Sort(xs)| == |xs| && Sort(xs)[i].name == xs[i].name
  }

  lemma {:induction false} SortOfOrdered(xs: seq<Listed>)
    requires InOrder(xs)
    ensures Sort(xs) == xs
  {
    if xs != [] {
      SortOfOrdered(xs[1..]);
      if |xs| > 1 { assert xs[1..][0] == xs[1] && !Less(xs[1].name, xs[0].name); }
    }
  }

  /** The reader accepts the order exactly when no name comes before a smaller one. */
  lemma SortedNamesIff(xs: seq<Listed>)
    ensures SortedNames(xs) <==> InOrder(xs)
  {
    SortSorts(xs);
    if InOrder(xs) { SortOfOrdered(xs); }
    assert |multiset(Sort(xs))| == |multiset(xs)|;
  }

  function Sources(files: seq<Listed>): seq<SourceFile>
    requires forall f | f in files :: f.node.File?
  {
    seq(|files|, i requires 0 <= i < |files| => SourceFile(files[i].name, files[i].node.bytes))
  }

  /**
    From directory to verified archive: if the walk succeeds and its files fit ZIP32,
    the reader accepts the archive, and the names it reports are in canonical order.
  */
  lemma CollectedArchiveIsAccepted(root: Node, codec: Codec)
    requires root.Directory? && CollectFiles(root).Ok?
    ensures forall f | f in CollectFiles(root).value :: f.node.File?
    ensures SortedNames(CollectFiles(root).value)
    ensures var files := Sources(CollectFiles(root).value); var es := Lay(files, codec);
            Fitting(es) && Faithful(files, codec) ==>
              && |es| == |files| && CentralDirectory(Archive(es), codec) == Ok(Report(es, files, 0))
              && DecodeAll(Archive(es), Report(es, files, 0), codec) == Ok(Contents(files))
  {
    hide Lay, Archive, Fitting, Faithful, CentralDirectory, DecodeAll, Contents, Report, CollectFiles, HasFile;
    CollectedFiles(root);
    var found := CollectFiles(root).value;
    var files := Sources(found);
    forall i, j | 0 <= i < j < |found| ensures !Less(found[j].name, found[i].name) && found[i].name != found[j].name {
      LessIsTotal(found[i].name, found[j].name);
    }
    SortedNamesIff(found);
    SourcesAreValid(found);
    if Fitting(Lay(files, codec)) && Faithful(files, codec) { WrittenThenRead(files, codec, Lay(files, codec)); }
  }

  lemma SourcesAreValid(found: seq<Listed>)
    requires forall f | f in found :: f.node.File? && SafeName(f.name)
    requires forall i, j | 0 <= i < j < |found| :: found[i].name != found[j].name
    ensures ValidNames(Sources(found))
  {
    hide SafeName;
    var files := Sources(found);
    forall f | f in files ensures SafeName(f.name) {
      var i :| 0 <= i < |files| && files[i] == f;
      assert found[i] in found;
    }
  }

  // ---------------------------------------------------------------- which error

  /** A link, or another thing that is neither file nor directory, lies somewhere below these entries. */
  predicate HasBelow(bad: Node, listing: seq<Listed>)
    decreases listing
  {
    exists x | x in listing :: x.node == bad || (x.node.Directory? && HasBelow(bad, x.node.listing))
  }

  /** A walk that fails names what it has found: a link or a special file that is there. */
  lemma {:induction false} WalkErrorIs(owner: Node, todo: seq<Listed>, prefix: seq<Name>)
    requires forall x | x in todo :: x.node < owner
    ensures Walk(owner, todo, prefix) == Err(LinkFound) ==> HasBelow(Link, todo)
    ensures Walk(owner, todo, prefix) == Err(SpecialFound) ==> HasBelow(Special, todo)
    ensures Walk(owner, todo, prefix).Err? ==> Walk(owner, todo, prefix).error.LinkFound? || Walk(owner, todo, prefix).error.SpecialFound?
    decreases owner, |todo|
  {
    hide Sort, Join;
    if todo != [] {
      var x := todo[0];
      WalkErrorIs(owner, todo[1..], prefix);
      if x.node.Directory? {
        SortKeepsMembers(x.node.listing);
        WalkErrorIs(x.node, Sort(x.node.listing), prefix + [x.name]);
        SameBelow(Link, x.node.listing);
        SameBelow(Special, x.node.listing);
      }
      assert forall y :: y in todo <==> y == x || y in todo[1..];
    }
  }

  lemma SortKeepsMembers(xs: seq<Listed>)
    ensures forall x :: x in Sort(xs) <==> x in xs
  {
    forall x ensures x in Sort(xs) <==> x in xs { assert x in multiset(Sort(xs)) <==> x in multiset(xs); }
  }

  lemma SameBelow(bad: Node, xs: seq<Listed>)
    ensures HasBelow(bad, Sort(xs)) <==> HasBelow(bad, xs)
  {
    SortKeepsMembers(xs);
  }

  /** Collecting fails for the reason it names: a link or a special file in the tree, an unsafe path, or a path twice. */
  lemma CollectErrorIs(root: Node)
    requires root.Directory?
    ensures CollectFiles(root) == Err(LinkFound) ==> HasBelow(Link, root.listing)
    ensures CollectFiles(root) == Err(SpecialFound) ==> HasBelow(Special, root.listing)
    ensures CollectFiles(root) == Err(UnsafeName) ==>
      exists f :: Walk(root, Sort(root.listing), []).Ok? && f in Walk(root, Sort(root.listing), []).value && !SafeName(f.name)
    ensures CollectFiles(root) == Err(DuplicateName) ==>
      (Walk(root, Sort(root.listing), []).Ok?
      && !DistinctNames(Sort(Walk(root, Sort(root.listing), []).value))
      && (forall f | f in Walk(root, Sort(root.listing), []).value :: SafeName(f.name)))
  {
    SortKeepsMembers(root.listing);
    WalkErrorIs(root, Sort(root.listing), []);
    SameBelow(Link, root.listing);
    SameBelow(Special, root.listing);
    var walked := Walk(root, Sort(root.listing), []);
    if walked.Ok? { SortKeepsMembers(walked.value); }
    hide Walk, Sort, SafeName, DistinctNames, HasBelow;
  }
}
