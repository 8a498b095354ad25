/**
  The dependency-graph differ of scripts/ci/fresh-cargo-resolution.js: two-phase
  package matching, and the classification built on it.
*/
module PackageDiff {
  import opened Common

  // One package of normalized metadata.  Declared dependencies and the Rust version are JSON text.
  datatype Package = Package(id: string, name: string, version: string, source: string, rustVersion: string,
                             enabledFeatures: seq<string>, dependencies: seq<string>)

  type Pair = (Package, Package)

  function Ids(xs: seq<Package>): set<string> {
    set x | x in xs :: x.id
  }

  /** assertNormalizedMetadataShape has checked this of both lists. */
  ghost predicate UniqueIds(xs: seq<Package>) {
    forall i, j | 0 <= i < j < |xs| :: xs[i].id != xs[j].id
  }

  function WithIds(xs: seq<Package>, ids: set<string>): seq<Package> {
    if xs == [] then []
    else WithIds(xs[..|xs| - 1], ids) + (if xs[|xs| - 1].id in ids then [xs[|xs| - 1]] else [])
  }

  function Named(xs: seq<Package>, name: string): seq<Package> {
    if xs == [] then []
    else Named(xs[..|xs| - 1], name) + (if xs[|xs| - 1].name == name then [xs[|xs| - 1]] else [])
  }

  function Unmatched(xs: seq<Package>, others: seq<Package>): seq<Package> {
    WithIds(xs, Ids(xs) - Ids(others))
  }

  /** rightValues.find by id. */
  function Find(xs: seq<Package>, id: string): Option<Package> {
    if xs == [] then None else if xs[0].id == id then Some(xs[0]) else Find(xs[1..], id)
  }

  /** First phase: the same id on both sides. */
  function ExactPairs(ls: seq<Package>, right: seq<Package>): seq<Pair> {
    if ls == [] then []
    else
      var l := ls[|ls| - 1];
      ExactPairs(ls[..|ls| - 1], right) + (if Find(right, l.id).Some? then [(l, Find(right, l.id).value)] else [])
  }

  /** Second phase: the only unmatched package of a name on each side. */
  function LonePairs(ls: seq<Package>, left: seq<Package>, right: seq<Package>): seq<Pair> {
    if ls == [] then []
    else
      var l := ls[|ls| - 1];
      var candidates, rivals := Named(Unmatched(right, left), l.name), Named(Unmatched(left, right), l.name);
      LonePairs(ls[..|ls| - 1], left, right) + (if |candidates| == 1 && |rivals| == 1 then [(l, candidates[0])] else [])
  }

  function Pairs(left: seq<Package>, right: seq<Package>): seq<Pair> {
    ExactPairs(left, right) + LonePairs(Unmatched(left, right), left, right)
  }

  function FirstIds(ps: seq<Pair>): set<string> { set p | p in ps :: p.0.id }

  function SecondIds(ps: seq<Pair>): set<string> { set p | p in ps :: p.1.id }

  function LeftOnly(left: seq<Package>, right: seq<Package>): seq<Package> {
    WithIds(left, Ids(left) - FirstIds(Pairs(left, right)))
  }

  function RightOnly(left: seq<Package>, right: seq<Package>): seq<Package> {
    WithIds(right, Ids(right) - SecondIds(Pairs(left, right)))
  }

  // ---------------------------------------------------------------- facts about the filters

  lemma {:induction false} WithIdsMembers(xs: seq<Package>, ids: set<string>, x: Package)
    ensures x in WithIds(xs, ids) <==> x in xs && x.id in ids
  {
    if xs != [] {
      WithIdsMembers(xs[..|xs| - 1], ids, x);
      assert x in xs <==> x in xs[..|xs| - 1] || x == xs[|xs| - 1];
    }
  }

  lemma {:induction false} NamedMembers(xs: seq<Package>, name: string, x: Package)
    ensures x in Named(xs, name) <==> x in xs && x.name == name
  {
    if xs != [] {
      NamedMembers(xs[..|xs| - 1], name, x);
      assert x in xs <==> x in xs[..|xs| - 1] || x == xs[|xs| - 1];
    }
  }

  lemma UnmatchedMembers(xs: seq<Package>, others: seq<Package>, x: Package)
    ensures x in Unmatched(xs, others) <==> x in xs && x.id !in Ids(others)
  {
    WithIdsMembers(xs, Ids(xs) - Ids(others), x);
  }

  lemma SameIdSamePackage(xs: seq<Package>, x: Package, y: Package)
    requires UniqueIds(xs) && x in xs && y in xs && x.id == y.id
    ensures x == y
  {
    var i :| 0 <= i < |xs| && xs[i] == x;
    var j :| 0 <= j < |xs| && xs[j] == y;
  }

  lemma {:induction false} FindFinds(xs: seq<Package>, id: string)
    ensures Find(xs, id).Some? <==> id in Ids(xs)
    ensures Find(xs, id).Some? ==> Find(xs, id).value in xs && Find(xs, id).value.id == id
  {
    if xs != [] && xs[0].id != id {
      FindFinds(xs[1..], id);
      assert forall x :: x in xs <==> x == xs[0] || x in xs[1..];
    }
  }

  lemma {:induction false} WithIdsUnique(xs: seq<Package>, ids: set<string>)
    requires UniqueIds(xs)
    ensures UniqueIds(WithIds(xs, ids))
  {
    if xs != [] {
      var front, last := xs[..|xs| - 1], xs[|xs| - 1];
      WithIdsUnique(front, ids);
      forall y | y in WithIds(front, ids) ensures y.id != last.id {
        WithIdsMembers(front, ids, y);
        var i :| 0 <= i < |front| && front[i] == y;
        assert xs[i] == y;
      }
    }
  }

  lemma {:induction false} NamedUnique(xs: seq<Package>, name: string)
    requires UniqueIds(xs)
    ensures UniqueIds(Named(xs, name))
  {
    if xs != [] {
      var front, last := xs[..|xs| - 1], xs[|xs| - 1];
      NamedUnique(front, name);
      forall y | y in Named(front, name) ensures y.id != last.id {
        NamedMembers(front, name, y);
        var i :| 0 <= i < |front| && front[i] == y;
        assert xs[i] == y;
      }
    }
  }

  /** A list without repeated ids has one element exactly when it has a member and no other. */
  lemma SingletonIff(xs: seq<Package>, x: Package)
    requires UniqueIds(xs) && x in xs
    ensures |xs| == 1 <==> forall y | y in xs :: y == x
  {
    var i :| 0 <= i < |xs| && xs[i] == x;
    if |xs| > 1 {
      var j := if i == 0 then 1 else 0;
      assert xs[j] in xs && xs[j].id != x.id;
    }
  }

  // ---------------------------------------------------------------- what is paired

  /** No other unmatched package shares x's name on its side. */
  ghost predicate Lone(x: Package, xs: seq<Package>, others: seq<Package>) {
    && x in xs && x.id !in Ids(others)
    && forall y | y in xs && y.id !in Ids(others) && y.name == x.name :: y == x
  }

  /** The pairs that matching is to find. */
  ghost predicate Paired(l: Package, r: Package, left: seq<Package>, right: seq<Package>) {
    && l in left && r in right
    && (l.id == r.id || (l.name == r.name && Lone(l, left, right) && Lone(r, right, left)))
  }

  lemma {:induction false} ExactPairsMembers(ls: seq<Package>, right: seq<Package>, l: Package, r: Package)
    requires UniqueIds(right)
    ensures (l, r) in ExactPairs(ls, right) <==> l in ls && r in right && l.id == r.id
  {
    if ls != [] {
      var front, last := ls[..|ls| - 1], ls[|ls| - 1];
      ExactPairsMembers(front, right, l, r);
      FindFinds(right, last.id);
      if l == last && r in right && l.id == r.id { SameIdSamePackage(right, r, Find(right, last.id).value); }
      assert l in ls <==> l in front || l == last;
    }
  }

  lemma LoneIff(x: Package, xs: seq<Package>, others: seq<Package>)
    requires UniqueIds(xs)
    ensures Lone(x, xs, others) <==> Named(Unmatched(xs, others), x.name) == [x]
  {
    var ys := Named(Unmatched(xs, others), x.name);
    forall y ensures y in ys <==> y in xs && y.id !in Ids(others) && y.name == x.name {
      NamedMembers(Unmatched(xs, others), x.name, y);
      UnmatchedMembers(xs, others, y);
    }
    WithIdsUnique(xs, Ids(xs) - Ids(others));
    NamedUnique(Unmatched(xs, others), x.name);
    if x in ys { SingletonIff(ys, x); }
  }

  /** The guard of the second phase, which sees one side's package, decides about both. */
  lemma LoneGuard(left: seq<Package>, right: seq<Package>, l: Package, r: Package)
    requires UniqueIds(left) && UniqueIds(right) && l in Unmatched(left, right)
    ensures var candidates, rivals := Named(Unmatched(right, left), l.name), Named(Unmatched(left, right), l.name);
      (|candidates| == 1 && |rivals| == 1 && candidates[0] == r)
        <==> (l.name == r.name && Lone(l, left, right) && Lone(r, right, left))
  {
    var candidates, rivals := Named(Unmatched(right, left), l.name), Named(Unmatched(left, right), l.name);
    LoneIff(l, left, right);
    LoneIff(r, right, left);
    NamedMembers(Unmatched(left, right), l.name, l);
    if |candidates| == 1 { NamedMembers(Unmatched(right, left), l.name, candidates[0]); }
    hide Named, Unmatched, UniqueIds, Lone;
    assert l in rivals;
    if |rivals| == 1 { assert rivals == [l]; }
    if |candidates| == 1 { assert candidates == [candidates[0]]; }
  }

  lemma {:induction false} LonePairsMembers(ls: seq<Package>, left: seq<Package>, right: seq<Package>, l: Package, r: Package)
    requires UniqueIds(left) && UniqueIds(right) && forall x | x in ls :: x in Unmatched(left, right)
    ensures (l, r) in LonePairs(ls, left, right) <==> l in ls && l.name == r.name && Lone(l, left, right) && Lone(r, right, left)
  {
    hide Named, Unmatched, UniqueIds, Lone;
    if ls != [] {
      LonePairsMembers(ls[..|ls| - 1], left, right, l, r);
      assert l in ls <==> l in ls[..|ls| - 1] || l == ls[|ls| - 1];
      if l == ls[|ls| - 1] { LoneGuard(left, right, l, r); }
    }
  }

  /**
    Matching finds exactly the pairs with equal ids, and one pair for a name exactly
    when one unmatched package of that name remains on each side.
  */
  lemma PairsMembers(left: seq<Package>, right: seq<Package>, l: Package, r: Package)
    requires UniqueIds(left) && UniqueIds(right)
    ensures (l, r) in Pairs(left, right) <==> Paired(l, r, left, right)
  {
    forall x | x in Unmatched(left, right) ensures x in left && x.id !in Ids(right) { UnmatchedMembers(left, right, x); }
    UnmatchedMembers(left, right, l);
    ExactPairsMembers(left, right, l, r);
    LonePairsMembers(Unmatched(left, right), left, right, l, r);
  }

  /** Matching is a partial bijection. */
  lemma PairingIsInjective(left: seq<Package>, right: seq<Package>, p: Pair, q: Pair)
    requires UniqueIds(left) && UniqueIds(right) && p in Pairs(left, right) && q in Pairs(left, right)
    ensures p.0 == q.0 <==> p.1 == q.1
  {
    PairsMembers(left, right, p.0, p.1);
    PairsMembers(left, right, q.0, q.1);
    if p.0 == q.0 && p.0.id == p.1.id && q.0.id == q.1.id { SameIdSamePackage(right, p.1, q.1); }
    if p.1 == q.1 && p.0.id == p.1.id && q.0.id == q.1.id { SameIdSamePackage(left, p.0, q.0); }
  }

  /** Swapping the inputs inverts the pairing. */
  lemma PairingIsSymmetric(left: seq<Package>, right: seq<Package>, l: Package, r: Package)
    requires UniqueIds(left) && UniqueIds(right)
    ensures (l, r) in Pairs(left, right) <==> (r, l) in Pairs(right, left)
  {
    PairsMembers(left, right, l, r);
    PairsMembers(right, left, r, l);
  }

  // ---------------------------------------------------------------- pairs and leftovers partition both inputs

  function Firsts(ps: seq<Pair>): seq<Package> {
    if ps == [] then [] else Firsts(ps[..|ps| - 1]) + [ps[|ps| - 1].0]
  }

  function Seconds(ps: seq<Pair>): seq<Package> {
    if ps == [] then [] else Seconds(ps[..|ps| - 1]) + [ps[|ps| - 1].1]
  }

  lemma {:induction false} SidesAt(ps: seq<Pair>)
    ensures |Firsts(ps)| == |ps| == |Seconds(ps)|
    ensures forall i | 0 <= i < |ps| :: Firsts(ps)[i] == ps[i].0 && Seconds(ps)[i] == ps[i].1
  {
    if ps != [] { SidesAt(ps[..|ps| - 1]); }
  }

  lemma {:induction false} FirstsAppend(ps: seq<Pair>, qs: seq<Pair>)
    ensures Firsts(ps + qs) == Firsts(ps) + Firsts(qs)
  {
    if qs == [] {
      assert ps + qs == ps;
    } else {
      FirstsAppend(ps, qs[..|qs| - 1]);
      assert (ps + qs)[..|ps + qs| - 1] == ps + qs[..|qs| - 1];
    }
  }

  lemma {:induction false} ExactFirsts(ls: seq<Package>, right: seq<Package>)
    ensures Firsts(ExactPairs(ls, right)) == WithIds(ls, Ids(right))
  {
    if ls != [] {
      var l := ls[|ls| - 1];
      ExactFirsts(ls[..|ls| - 1], right);
      FindFinds(right, l.id);
      FirstsAppend(ExactPairs(ls[..|ls| - 1], right), if Find(right, l.id).Some? then [(l, Find(right, l.id).value)] else []);
    }
  }

  lemma {:induction false} LoneFirsts(ls: seq<Package>, left: seq<Package>, right: seq<Package>)
    requires UniqueIds(ls)
    ensures UniqueIds(Firsts(LonePairs(ls, left, right)))
    ensures forall x | x in Firsts(LonePairs(ls, left, right)) :: x in ls
  {
    if ls != [] {
      LoneFirsts(ls[..|ls| - 1], left, right);
      var l := ls[|ls| - 1];
      var earlier := LonePairs(ls[..|ls| - 1], left, right);
      var candidates, rivals := Named(Unmatched(right, left), l.name), Named(Unmatched(left, right), l.name);
      FirstsAppend(earlier, if |candidates| == 1 && |rivals| == 1 then [(l, candidates[0])] else []);
      forall x | x in Firsts(earlier) ensures x.id != l.id && x in ls {
        var i :| 0 <= i < |ls| - 1 && ls[i] == x;
      }
    }
  }

  lemma FirstsUnique(left: seq<Package>, right: seq<Package>)
    requires UniqueIds(left) && UniqueIds(right)
    ensures UniqueIds(Firsts(Pairs(left, right)))
  {
    var todo := Unmatched(left, right);
    ExactFirsts(left, right);
    WithIdsUnique(left, Ids(right));
    WithIdsUnique(left, Ids(left) - Ids(right));
    LoneFirsts(todo, left, right);
    FirstsAppend(ExactPairs(left, right), LonePairs(todo, left, right));
    forall x, y | x in WithIds(left, Ids(right)) && y in Firsts(LonePairs(todo, left, right)) ensures x.id != y.id {
      WithIdsMembers(left, Ids(right), x);
      UnmatchedMembers(left, right, y);
    }
  }

  lemma SecondsUnique(left: seq<Package>, right: seq<Package>)
    requires UniqueIds(left) && UniqueIds(right)
    ensures UniqueIds(Seconds(Pairs(left, right)))
  {
    var ps := Pairs(left, right);
    FirstsUnique(left, right);
    SidesAt(ps);
    forall i, j | 0 <= i < j < |ps| ensures ps[i].1.id != ps[j].1.id {
      assert Firsts(ps)[i].id != Firsts(ps)[j].id;
      PairingIsInjective(left, right, ps[i], ps[j]);
      PairsMembers(left, right, ps[i].0, ps[i].1);
      PairsMembers(left, right, ps[j].0, ps[j].1);
      if ps[i].1.id == ps[j].1.id { SameIdSamePackage(right, ps[i].1, ps[j].1); }
    }
  }

  lemma {:induction false} CountOfUnique(xs: seq<Package>, x: Package)
    requires UniqueIds(xs)
    ensures multiset(xs)[x] == if x in xs then 1 else 0
  {
    if xs != [] {
      var front, last := xs[..|xs| - 1], xs[|xs| - 1];
      assert xs == front + [last];
      CountOfUnique(front, x);
      assert x in xs <==> x in front || x == last;
    }
  }

  /** Chosen and leftover packages, both without repeats, make up a list without repeats. */
  lemma Partition(xs: seq<Package>, chosen: seq<Package>)
    requires UniqueIds(xs) && UniqueIds(chosen) && forall x | x in chosen :: x in xs
    ensures multiset(xs) == multiset(chosen) + multiset(WithIds(xs, Ids(xs) - Ids(chosen)))
  {
    var rest := WithIds(xs, Ids(xs) - Ids(chosen));
    WithIdsUnique(xs, Ids(xs) - Ids(chosen));
    forall x ensures multiset(xs)[x] == (multiset(chosen) + multiset(rest))[x] {
      CountOfUnique(xs, x);
      CountOfUnique(chosen, x);
      CountOfUnique(rest, x);
      WithIdsMembers(xs, Ids(xs) - Ids(chosen), x);
      if x in xs && x.id in Ids(chosen) {
        var y :| y in chosen && y.id == x.id;
        SameIdSamePackage(xs, x, y);
      }
    }
  }

  lemma IdsOfSides(ps: seq<Pair>)
    ensures Ids(Firsts(ps)) == FirstIds(ps) && Ids(Seconds(ps)) == SecondIds(ps)
  {
    SidesAt(ps);
    var fs, ss := Firsts(ps), Seconds(ps);
    hide Firsts, Seconds;
    forall p | p in ps ensures p.0 in fs && p.1 in ss {
      var i :| 0 <= i < |ps| && ps[i] == p;
      assert fs[i] == p.0 && ss[i] == p.1;
    }
    forall x | x in fs ensures exists p :: p in ps && p.0 == x {
      var i :| 0 <= i < |fs| && fs[i] == x;
      assert ps[i] in ps;
    }
    forall x | x in ss ensures exists p :: p in ps && p.1 == x {
      var i :| 0 <= i < |ss| && ss[i] == x;
      assert ps[i] in ps;
    }
  }

  lemma SidesMembers(left: seq<Package>, right: seq<Package>)
    requires UniqueIds(left) && UniqueIds(right)
    ensures forall x | x in Firsts(Pairs(left, right)) :: x in left
    ensures forall x | x in Seconds(Pairs(left, right)) :: x in right
  {
    var ps := Pairs(left, right);
    SidesAt(ps);
    forall i | 0 <= i < |ps| ensures ps[i].0 in left && ps[i].1 in right { PairsMembers(left, right, ps[i].0, ps[i].1); }
  }

  /** Pairs plus leftovers partition both inputs. */
  lemma PairsAndLeftoversPartition(left: seq<Package>, right: seq<Package>)
    requires UniqueIds(left) && UniqueIds(right)
    ensures multiset(left) == multiset(Firsts(Pairs(left, right))) + multiset(LeftOnly(left, right))
    ensures multiset(right) == multiset(Seconds(Pairs(left, right))) + multiset(RightOnly(left, right))
  {
    var ps := Pairs(left, right);
    FirstsUnique(left, right);
    SecondsUnique(left, right);
    SidesMembers(left, right);
    IdsOfSides(ps);
    Partition(left, Firsts(ps));
    Partition(right, Seconds(ps));
  }

  lemma LeftOnlyMembers(left: seq<Package>, right: seq<Package>, l: Package)
    requires UniqueIds(left) && UniqueIds(right)
    ensures l in LeftOnly(left, right) <==> l in left && forall r | r in right :: !Paired(l, r, left, right)
  {
    WithIdsMembers(left, Ids(left) - FirstIds(Pairs(left, right)), l);
    if l in left && l.id in FirstIds(Pairs(left, right)) {
      var p :| p in Pairs(left, right) && p.0.id == l.id;
      PairsMembers(left, right, p.0, p.1);
      SameIdSamePackage(left, l, p.0);
    }
    forall r | r in right && Paired(l, r, left, right) ensures l.id in FirstIds(Pairs(left, right)) {
      PairsMembers(left, right, l, r);
      assert (l, r).0.id == l.id;
    }
  }

  lemma RightOnlyMembers(left: seq<Package>, right: seq<Package>, r: Package)
    requires UniqueIds(left) && UniqueIds(right)
    ensures r in RightOnly(left, right) <==> r in right && forall l | l in left :: !Paired(l, r, left, right)
  {
    WithIdsMembers(right, Ids(right) - SecondIds(Pairs(left, right)), r);
    if r in right && r.id in SecondIds(Pairs(left, right)) {
      var p :| p in Pairs(left, right) && p.1.id == r.id;
      PairsMembers(left, right, p.0, p.1);
      SameIdSamePackage(right, r, p.1);
    }
    forall l | l in left && Paired(l, r, left, right) ensures r.id in SecondIds(Pairs(left, right)) {
      PairsMembers(left, right, l, r);
      assert (l, r).1.id == r.id;
    }
  }

  // ---------------------------------------------------------------- the program

  lemma IdsAppend(ps: seq<Pair>, p: Pair)
    ensures FirstIds(ps + [p]) == FirstIds(ps) + {p.0.id}
    ensures SecondIds(ps + [p]) == SecondIds(ps) + {p.1.id}
  {
    assert forall q :: q in ps + [p] <==> q in ps || q == p;
    assert p in ps + [p];
  }

  lemma ExactPairsIds(left: seq<Package>, right: seq<Package>)
    requires UniqueIds(right)
    ensures FirstIds(ExactPairs(left, right)) == Ids(left) * Ids(right) == SecondIds(ExactPairs(left, right))
  {
    var ps := ExactPairs(left, right);
    forall id ensures id in Ids(left) * Ids(right) <==> id in FirstIds(ps)
      ensures id in Ids(left) * Ids(right) <==> id in SecondIds(ps)
    {
      if id in Ids(left) * Ids(right) {
        var l :| l in left && l.id == id;
        var r :| r in right && r.id == id;
        ExactPairsMembers(left, right, l, r);
        assert (l, r) in ps && (l, r).0.id == id && (l, r).1.id == id;
      }
      if p :| p in ps && (p.0.id == id || p.1.id == id) { ExactPairsMembers(left, right, p.0, p.1); }
    }
  }

  lemma NamedLast(xs: seq<Package>, x: Package, name: string)
    ensures Named(xs + [x], name) == Named(xs, name) + (if x.name == name then [x] else [])
  {
    assert (xs + [x])[..|xs|] == xs;
  }

  lemma {:induction false} NamedIgnores(xs: seq<Package>, ids: set<string>, others: set<string>, name: string)
    requires forall x | x in xs && x.name == name :: x.id in ids <==> x.id in others
    ensures Named(WithIds(xs, ids), name) == Named(WithIds(xs, others), name)
  {
    if xs != [] {
      var front, last := xs[..|xs| - 1], xs[|xs| - 1];
      NamedIgnores(front, ids, others, name);
      assert last.name == name ==> (last.id in ids <==> last.id in others);
      NamedLast(WithIds(front, ids), last, name);
      NamedLast(WithIds(front, others), last, name);
      assert WithIds(xs, ids) == if last.id in ids then WithIds(front, ids) + [last] else WithIds(front, ids);
      assert WithIds(xs, others) == if last.id in others then WithIds(front, others) + [last] else WithIds(front, others);
    }
  }

  /** Packages paired earlier in the second phase do not carry the name of a later one. */
  lemma EarlierPairsHaveOtherNames(left: seq<Package>, right: seq<Package>, i: nat, p: Pair)
    requires UniqueIds(left) && UniqueIds(right) && i < |Unmatched(left, right)|
    requires p in LonePairs(Unmatched(left, right)[..i], left, right)
    ensures p.0.name != Unmatched(left, right)[i].name && p.1.name != Unmatched(left, right)[i].name
    ensures p.0 in left && p.1 in right
  {
    var todo := Unmatched(left, right);
    WithIdsUnique(left, Ids(left) - Ids(right));
    forall x | x in todo ensures x in left && x.id !in Ids(right) { UnmatchedMembers(left, right, x); }
    LonePairsMembers(todo[..i], left, right, p.0, p.1);
    var j :| 0 <= j < i && todo[j] == p.0;
    assert todo[i] in todo && todo[j].id != todo[i].id;
  }

  lemma CandidatesUnaffected(left: seq<Package>, right: seq<Package>, i: nat)
    requires UniqueIds(left) && UniqueIds(right) && i < |Unmatched(left, right)|
    ensures var todo := Unmatched(left, right);
      var ps := ExactPairs(left, right) + LonePairs(todo[..i], left, right);
      && Named(WithIds(right, Ids(right) - SecondIds(ps)), todo[i].name) == Named(Unmatched(right, left), todo[i].name)
      && Named(WithIds(left, Ids(left) - FirstIds(ps)), todo[i].name) == Named(Unmatched(left, right), todo[i].name)
  {
    var todo := Unmatched(left, right);
    var exact, lone := ExactPairs(left, right), LonePairs(todo[..i], left, right);
    ExactPairsIds(left, right);
    assert forall p :: p in exact + lone <==> p in exact || p in lone;
    assert FirstIds(exact + lone) == FirstIds(exact) + FirstIds(lone);
    assert SecondIds(exact + lone) == SecondIds(exact) + SecondIds(lone);
    forall x | x in right && x.name == todo[i].name ensures x.id !in SecondIds(lone) {
      if p :| p in lone && p.1.id == x.id {
        EarlierPairsHaveOtherNames(left, right, i, p);
        SameIdSamePackage(right, x, p.1);
      }
    }
    forall x | x in left && x.name == todo[i].name ensures x.id !in FirstIds(lone) {
      if p :| p in lone && p.0.id == x.id {
        EarlierPairsHaveOtherNames(left, right, i, p);
        SameIdSamePackage(left, x, p.0);
      }
    }
    NamedIgnores(right, Ids(right) - SecondIds(exact + lone), Ids(right) - Ids(left), todo[i].name);
    NamedIgnores(left, Ids(left) - FirstIds(exact + lone), Ids(left) - Ids(right), todo[i].name);
  }

  lemma EmptyIsNothing(left: seq<Package>, right: seq<Package>)
    ensures ExactPairs([], right) == [] == LonePairs([], left, right) && FirstIds([]) == {} == SecondIds([])
    ensures Unmatched(left, right) == WithIds(left, Ids(left) - Ids(right))
  { }

  lemma ExactStep(left: seq<Package>, right: seq<Package>, i: nat)
    requires i < |left|
    ensures var exact := Find(right, left[i].id);
      ExactPairs(left[..i + 1], right) == ExactPairs(left[..i], right) + (if exact.Some? then [(left[i], exact.value)] else [])
  {
    assert left[..i + 1][..i] == left[..i];
  }

  lemma LoneStep(todo: seq<Package>, left: seq<Package>, right: seq<Package>, i: nat)
    requires i < |todo|
    ensures var candidates, rivals := Named(Unmatched(right, left), todo[i].name), Named(Unmatched(left, right), todo[i].name);
      LonePairs(todo[..i + 1], left, right)
        == LonePairs(todo[..i], left, right) + (if |candidates| == 1 && |rivals| == 1 then [(todo[i], candidates[0])] else [])
  {
    assert todo[..i + 1][..i] == todo[..i];
  }

  /** The two loops, with the sets of ids still unmatched; the second loop filters by the current sets. */
  method LogicalPackagePairs(left: seq<Package>, right: seq<Package>)
    returns (pairs: seq<Pair>, leftOnly: seq<Package>, rightOnly: seq<Package>)
    requires UniqueIds(left) && UniqueIds(right)
    ensures pairs == Pairs(left, right)
    ensures leftOnly == LeftOnly(left, right) && rightOnly == RightOnly(left, right)
  {
    hide Find, Named, WithIds, FirstIds, SecondIds, ExactPairs, LonePairs, UniqueIds, Unmatched;
    pairs := [];
    EmptyIsNothing(left, right);
    var leftRemaining, rightRemaining := Ids(left), Ids(right);
    for i := 0 to |left|
      invariant pairs == ExactPairs(left[..i], right)
      invariant leftRemaining == Ids(left) - FirstIds(pairs) && rightRemaining == Ids(right) - SecondIds(pairs)
    {
      var exact := Find(right, left[i].id);
      ExactStep(left, right, i);
      if exact.Some? {
        IdsAppend(pairs, (left[i], exact.value));
        pairs := pairs + [(left[i], exact.value)];
        leftRemaining := leftRemaining - {left[i].id};
        rightRemaining := rightRemaining - {exact.value.id};
      }
    }
    assert left[..|left|] == left;
    ExactPairsIds(left, right);
    assert leftRemaining == Ids(left) - Ids(right);
    var todo := WithIds(left, leftRemaining);
    ghost var exactPairs := pairs;
    for i := 0 to |todo|
      invariant pairs == exactPairs + LonePairs(todo[..i], left, right)
      invariant leftRemaining == Ids(left) - FirstIds(pairs) && rightRemaining == Ids(right) - SecondIds(pairs)
    {
      var candidates := Named(WithIds(right, rightRemaining), todo[i].name);
      var reverseCandidates := Named(WithIds(left, leftRemaining), todo[i].name);
      CandidatesUnaffected(left, right, i);
      LoneStep(todo, left, right, i);
      if |candidates| == 1 && |reverseCandidates| == 1 {
        IdsAppend(pairs, (todo[i], candidates[0]));
        pairs := pairs + [(todo[i], candidates[0])];
        leftRemaining := leftRemaining - {todo[i].id};
        rightRemaining := rightRemaining - {candidates[0].id};
      }
    }
    assert todo[..|todo|] == todo;
    leftOnly := WithIds(left, leftRemaining);
    rightOnly := WithIds(right, rightRemaining);
  }
}
