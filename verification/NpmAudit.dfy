/**
  The advisory walk of scripts/ci/npm-audit-policy.js and the audit verdict built on it.
  The clock, the approved packages with their path patterns and the allowed advisories
  are parameters.
*/
module NpmAudit {
  import opened Common

  datatype Advisory = Advisory(url: Option<string>)

  datatype Cause = Named(name: string) | Concrete(advisory: Advisory) | Unsupported

  datatype Vulnerability = Vulnerability(via: seq<Cause>, severity: string, nodes: seq<string>)

  type Findings = map<string, Vulnerability>

  datatype Fault =
    | NoMap
    | Expired
    | PublisherActive
    | Unapproved(name: string)
    | Critical(name: string)
    | NoPath(name: string)
    | OutsidePath(name: string)
    | Cycle(name: string)
    | MissingFinding(name: string)
    | UnsupportedCause(name: string)
    | NoAdvisory(name: string)
    | UnapprovedAdvisory(url: Option<string>)

  // ---------------------------------------------------------------- the walk

  lemma FewerInactive(v: Findings, name: string, active: set<string>)
    requires name in v && name !in active
    ensures |v.Keys - (active + {name})| < |v.Keys - active|
  {
    assert v.Keys - active == (v.Keys - (active + {name})) + {name};
  }

  /** The leaves under a name; the measure is the names not yet active. */
  function Leaves(v: Findings, name: string, active: set<string>): Result<seq<Advisory>, Fault>
    decreases |v.Keys - active|, 0
  {
    if name in active then Err(Cycle(name))
    else if name !in v then Err(MissingFinding(name))
    else
      FewerInactive(v, name, active);
      var leaves := CauseLeaves(v, name, v[name].via, active + {name});
      if leaves.Ok? && leaves.value == [] then Err(NoAdvisory(name)) else leaves
  }

  function CauseLeaves(v: Findings, name: string, causes: seq<Cause>, active: set<string>): Result<seq<Advisory>, Fault>
    decreases |v.Keys - active|, |causes|
  {
    if causes == [] then Ok([])
    else
      var earlier := CauseLeaves(v, name, causes[..|causes| - 1], active);
      if earlier.Err? then earlier
      else
        match causes[|causes| - 1]
        case Named(other) =>
          var more := Leaves(v, other, active);
          if more.Err? then more else Ok(earlier.value + more.value)
        case Concrete(advisory) => Ok(earlier.value + [advisory])
        case Unsupported => Err(UnsupportedCause(name))
  }

  /** The recursion with its loop over the causes. */
  method CollectLeafAdvisories(v: Findings, name: string, active: set<string>) returns (r: Result<seq<Advisory>, Fault>)
    ensures r == Leaves(v, name, active)
    decreases |v.Keys - active|
  {
    if name in active {
      return Err(Cycle(name));
    }
    if name !in v {
      return Err(MissingFinding(name));
    }
    FewerInactive(v, name, active);
    var nextActive := active + {name};
    var via := v[name].via;
    var leaves: seq<Advisory> := [];
    for i := 0 to |via|
      invariant CauseLeaves(v, name, via[..i], nextActive) == Ok(leaves)
    {
      assert via[..i + 1][..i] == via[..i];
      match via[i] {
        case Named(other) =>
          var more := CollectLeafAdvisories(v, other, nextActive);
          if more.Err? {
            CauseFails(v, name, via, i, nextActive);
            return more;
          }
          leaves := leaves + more.value;
        case Concrete(advisory) =>
          leaves := leaves + [advisory];
        case Unsupported =>
          CauseFails(v, name, via, i, nextActive);
          return Err(UnsupportedCause(name));
      }
    }
    assert via[..|via|] == via;
    return if leaves == [] then Err(NoAdvisory(name)) else Ok(leaves);
  }

  /** The first failing cause decides. */
  lemma {:induction false} CauseFails(v: Findings, name: string, causes: seq<Cause>, i: nat, active: set<string>)
    requires i < |causes| && CauseLeaves(v, name, causes[..i + 1], active).Err?
    ensures CauseLeaves(v, name, causes, active) == CauseLeaves(v, name, causes[..i + 1], active)
    decreases |causes|
  {
    if i + 1 == |causes| {
      assert causes[..i + 1] == causes;
    } else {
      assert causes[..|causes| - 1][..i + 1] == causes[..i + 1];
      CauseFails(v, name, causes[..|causes| - 1], i, active);
    }
  }

  // ---------------------------------------------------------------- what the walk decides

  ghost predicate Walk(v: Findings, w: seq<string>) {
    && w != []
    && forall k | 0 <= k < |w| - 1 :: w[k] in v && Named(w[k + 1]) in v[w[k]].via
  }

  ghost predicate NoRepeats(w: seq<string>) {
    forall i, j | 0 <= i < j < |w| :: w[i] != w[j]
  }

  /** A reported package with at least one cause, all of a supported kind. */
  predicate Reported(v: Findings, name: string) {
    name in v && v[name].via != [] && Unsupported !in v[name].via
  }

  /** From the name on, the graph is closed and acyclic and stays outside the active names. */
  ghost predicate Sound(v: Findings, name: string, active: set<string>) {
    forall w | Walk(v, w) && w[0] == name :: Reported(v, w[|w| - 1]) && w[|w| - 1] !in active && NoRepeats(w)
  }

  ghost predicate SoundChildren(v: Findings, name: string, active: set<string>)
    requires name in v
  {
    forall c | Named(c) in v[name].via :: Sound(v, c, active + {name})
  }

  lemma PrefixIsWalk(v: Findings, w: seq<string>, k: nat)
    requires Walk(v, w) && k < |w|
    ensures Walk(v, w[..k + 1]) && w[..k + 1][0] == w[0]
  { }

  lemma SoundFromChildren(v: Findings, name: string, active: set<string>, w: seq<string>)
    requires name !in active && Reported(v, name) && SoundChildren(v, name, active)
    requires Walk(v, w) && w[0] == name
    ensures Reported(v, w[|w| - 1]) && w[|w| - 1] !in active && NoRepeats(w)
  {
    if |w| > 1 {
      var q := w[1..];
      assert Walk(v, q) && q[0] == w[1] && Named(w[1]) in v[w[0]].via by {
        forall k | 0 <= k < |q| - 1 ensures q[k] in v && Named(q[k + 1]) in v[q[k]].via {
          assert w[k + 1] in v && Named(w[k + 2]) in v[w[k + 1]].via;
        }
      }
      assert Sound(v, w[1], active + {name});
      forall k | 0 <= k < |q| ensures q[k] != name {
        PrefixIsWalk(v, q, k);
        assert q[..k + 1][k] == q[k];
      }
      assert q[|q| - 1] == w[|w| - 1];
      forall i, j | 0 <= i < j < |w| ensures w[i] != w[j] {
        if i > 0 { assert q[i - 1] != q[j - 1]; } else { assert q[j - 1] != name; }
      }
    }
  }

  lemma SoundMakesChildren(v: Findings, name: string, active: set<string>, c: string, q: seq<string>)
    requires Sound(v, name, active) && name in v && Named(c) in v[name].via
    requires Walk(v, q) && q[0] == c
    ensures Reported(v, q[|q| - 1]) && q[|q| - 1] !in active + {name} && NoRepeats(q)
  {
    var w := [name] + q;
    assert Walk(v, w) by {
      forall k | 0 <= k < |w| - 1 ensures w[k] in v && Named(w[k + 1]) in v[w[k]].via {
        if k > 0 { assert q[k - 1] in v && Named(q[k]) in v[q[k - 1]].via; }
      }
    }
    assert w[|w| - 1] == q[|q| - 1];
    assert w[0] != w[|w| - 1];
    forall i, j | 0 <= i < j < |q| ensures q[i] != q[j] { assert w[i + 1] != w[j + 1]; }
  }

  lemma SoundStep(v: Findings, name: string, active: set<string>)
    ensures Sound(v, name, active) <==> name !in active && Reported(v, name) && SoundChildren(v, name, active)
  {
    if Sound(v, name, active) {
      assert Walk(v, [name]) && [name][0] == name && [name][|[name]| - 1] == name;
      forall c | Named(c) in v[name].via ensures Sound(v, c, active + {name}) {
        forall q | Walk(v, q) && q[0] == c
          ensures Reported(v, q[|q| - 1]) && q[|q| - 1] !in active + {name} && NoRepeats(q)
        {
          SoundMakesChildren(v, name, active, c, q);
        }
      }
    }
    if name !in active && Reported(v, name) && SoundChildren(v, name, active) {
      forall w | Walk(v, w) && w[0] == name ensures Reported(v, w[|w| - 1]) && w[|w| - 1] !in active && NoRepeats(w) {
        SoundFromChildren(v, name, active, w);
      }
    }
  }

  ghost predicate SoundCauses(v: Findings, causes: seq<Cause>, active: set<string>) {
    Unsupported !in causes && forall c | Named(c) in causes :: Sound(v, c, active)
  }

  /** The walk returns exactly when the graph reachable from the name is closed and acyclic, with a cause everywhere. */
  lemma {:induction false} LeavesOkIff(v: Findings, name: string, active: set<string>)
    ensures Leaves(v, name, active).Ok? <==> Sound(v, name, active)
    ensures Leaves(v, name, active).Ok? ==> Leaves(v, name, active).value != []
    decreases |v.Keys - active|, 0
  {
    SoundStep(v, name, active);
    hide Sound;
    if name !in active && name in v {
      FewerInactive(v, name, active);
      CauseLeavesOkIff(v, name, v[name].via, active + {name});
    }
  }

  lemma {:induction false} CauseLeavesOkIff(v: Findings, name: string, causes: seq<Cause>, active: set<string>)
    ensures CauseLeaves(v, name, causes, active).Ok? <==> SoundCauses(v, causes, active)
    ensures CauseLeaves(v, name, causes, active).Ok? && causes != [] ==> CauseLeaves(v, name, causes, active).value != []
    decreases |v.Keys - active|, |causes|
  {
    hide Sound;
    if causes != [] {
      var front, last := causes[..|causes| - 1], causes[|causes| - 1];
      CauseLeavesOkIff(v, name, front, active);
      assert forall c :: c in causes <==> c in front || c == last;
      if last.Named? { LeavesOkIff(v, last.name, active); }
    }
  }

  /** An advisory of some package reachable from the name. */
  ghost predicate Carries(v: Findings, name: string, a: Advisory) {
    exists w :: Walk(v, w) && w[0] == name && w[|w| - 1] in v && Concrete(a) in v[w[|w| - 1]].via
  }

  ghost predicate CausesCarry(v: Findings, causes: seq<Cause>, a: Advisory) {
    Concrete(a) in causes || exists c :: Named(c) in causes && Carries(v, c, a)
  }

  lemma CarriesStep(v: Findings, name: string, a: Advisory)
    requires name in v
    ensures Carries(v, name, a) <==> CausesCarry(v, v[name].via, a)
  {
    if Carries(v, name, a) {
      var w :| Walk(v, w) && w[0] == name && w[|w| - 1] in v && Concrete(a) in v[w[|w| - 1]].via;
      if |w| > 1 {
        var q := w[1..];
        assert Walk(v, q) by {
          forall k | 0 <= k < |q| - 1 ensures q[k] in v && Named(q[k + 1]) in v[q[k]].via {
            assert w[k + 1] in v && Named(w[k + 2]) in v[w[k + 1]].via;
          }
        }
        assert Named(w[1]) in v[w[0]].via && q[|q| - 1] == w[|w| - 1];
        assert Carries(v, w[1], a);
      }
    }
    if Concrete(a) in v[name].via { assert Walk(v, [name]) && [name][|[name]| - 1] == name; }
    if c :| Named(c) in v[name].via && Carries(v, c, a) {
      var q :| Walk(v, q) && q[0] == c && q[|q| - 1] in v && Concrete(a) in v[q[|q| - 1]].via;
      var w := [name] + q;
      assert Walk(v, w) by {
        forall k | 0 <= k < |w| - 1 ensures w[k] in v && Named(w[k + 1]) in v[w[k]].via {
          if k > 0 { assert q[k - 1] in v && Named(q[k]) in v[q[k - 1]].via; }
        }
      }
      assert w[|w| - 1] == q[|q| - 1];
    }
  }

  /** The leaves are exactly the advisories of all reachable packages. */
  lemma {:induction false} LeavesAreExact(v: Findings, name: string, active: set<string>, a: Advisory)
    requires Leaves(v, name, active).Ok?
    ensures a in Leaves(v, name, active).value <==> Carries(v, name, a)
    decreases |v.Keys - active|, 0
  {
    FewerInactive(v, name, active);
    CauseLeavesAreExact(v, name, v[name].via, active + {name}, a);
    CarriesStep(v, name, a);
  }

  lemma {:induction false} CauseLeavesAreExact(v: Findings, name: string, causes: seq<Cause>, active: set<string>, a: Advisory)
    requires CauseLeaves(v, name, causes, active).Ok?
    ensures a in CauseLeaves(v, name, causes, active).value <==> CausesCarry(v, causes, a)
    decreases |v.Keys - active|, |causes|
  {
    hide Carries;
    if causes != [] {
      var front, last := causes[..|causes| - 1], causes[|causes| - 1];
      CauseLeavesAreExact(v, name, front, active, a);
      assert forall c :: c in causes <==> c in front || c == last;
      if last.Named? { LeavesAreExact(v, last.name, active, a); }
    }
  }

  // ---------------------------------------------------------------- the verdict

  // Approved packages with the pattern their installed paths must match.
  datatype Policy = Policy(approved: set<string>, matches: (string, string) -> bool, allowed: set<string>, expiresAt: int)

  datatype Verdict = Verdict(accepted: set<string>, total: nat)

  predicate AllowedUrl(a: Advisory, p: Policy) { a.url.Some? && a.url.value in p.allowed }

  predicate GoodPlace(name: string, x: Vulnerability, p: Policy) {
    && name in p.approved && x.severity != "critical" && x.nodes != []
    && forall n | n in x.nodes :: p.matches(name, n)
  }

  /** An approved package below which the graph is closed and acyclic and every advisory is allowed. */
  ghost predicate Acceptable(v: Findings, name: string, p: Policy)
    requires name in v
  {
    && GoodPlace(name, v[name], p)
    && Sound(v, name, {})
    && forall a | Carries(v, name, a) :: AllowedUrl(a, p)
  }

  ghost predicate UrlIn(v: Findings, names: set<string>, url: string) {
    exists name, a :: name in names && Carries(v, name, a) && a.url == Some(url)
  }

  /** The exception is in force and covers everything reported. */
  ghost predicate Excepted(v: Findings, now: int, plugins: seq<string>, p: Policy) {
    && now < p.expiresAt && "@semantic-release/npm" !in plugins
    && forall name | name in v :: Acceptable(v, name, p)
  }

  method CheckPlace(name: string, x: Vulnerability, p: Policy) returns (r: Option<Fault>)
    ensures r.None? <==> GoodPlace(name, x, p)
  {
    if name !in p.approved { return Some(Unapproved(name)); }
    if x.severity == "critical" { return Some(Critical(name)); }
    if x.nodes == [] { return Some(NoPath(name)); }
    for i := 0 to |x.nodes|
      invariant forall j | 0 <= j < i :: p.matches(name, x.nodes[j])
    {
      if !p.matches(name, x.nodes[i]) { return Some(OutsidePath(name)); }
    }
    return None;
  }

  /** One package: its urls, unless something about it is not acceptable. */
  method CheckPackage(v: Findings, name: string, p: Policy) returns (r: Result<set<string>, Fault>)
    requires name in v
    ensures r.Ok? <==> Acceptable(v, name, p)
    ensures r.Ok? ==> forall u :: u in r.value <==> UrlIn(v, {name}, u)
  {
    hide Carries, Sound;
    var misplaced := CheckPlace(name, v[name], p);
    hide GoodPlace;
    if misplaced.Some? { return Err(misplaced.value); }
    LeavesOkIff(v, name, {});
    var collected := CollectLeafAdvisories(v, name, {});
    if collected.Err? { return Err(collected.error); }
    var leaves := collected.value;
    forall a ensures a in leaves <==> Carries(v, name, a) { LeavesAreExact(v, name, {}, a); }
    hide Leaves;
    var accepted: set<string> := {};
    for i := 0 to |leaves|
      invariant forall j | 0 <= j < i :: AllowedUrl(leaves[j], p)
      invariant forall u :: u in accepted <==> exists j :: 0 <= j < i && leaves[j].url == Some(u)
    {
      if !AllowedUrl(leaves[i], p) { return Err(UnapprovedAdvisory(leaves[i].url)); }
      accepted := accepted + {leaves[i].url.value};
    }
    forall u ensures u in accepted <==> UrlIn(v, {name}, u) {
      if u in accepted {
        var j :| 0 <= j < |leaves| && leaves[j].url == Some(u);
        assert leaves[j] in leaves && Carries(v, name, leaves[j]);
      }
    }
    return Ok(accepted);
  }

  lemma NoUrls(v: Findings)
    ensures forall u :: !UrlIn(v, {}, u)
  { }

  lemma UrlsJoin(v: Findings, names: set<string>, name: string)
    ensures forall u :: UrlIn(v, names + {name}, u) <==> UrlIn(v, names, u) || UrlIn(v, {name}, u)
  {
    hide Carries;
  }

  lemma UrlsAreAllowed(v: Findings, p: Policy, accepted: set<string>)
    requires forall name | name in v.Keys :: Acceptable(v, name, p)
    requires forall u | u in accepted :: UrlIn(v, v.Keys, u)
    ensures accepted <= p.allowed
  {
    hide Carries, GoodPlace, Sound;
    forall u | u in accepted ensures u in p.allowed {
      var name, a :| name in v.Keys && Carries(v, name, a) && a.url == Some(u);
      assert Acceptable(v, name, p);
    }
  }

  /** The loop over the reported packages. */
  method CheckPackages(v: Findings, p: Policy) returns (r: Result<set<string>, Fault>)
    ensures r.Ok? <==> forall name | name in v.Keys :: Acceptable(v, name, p)
    ensures r.Ok? ==> forall u :: u in r.value <==> UrlIn(v, v.Keys, u)
  {
    hide Acceptable, UrlIn;
    var accepted: set<string> := {};
    var todo, done := v.Keys, {};
    NoUrls(v);
    while todo != {}
      invariant done !! todo && done + todo == v.Keys
      invariant forall name | name in done :: Acceptable(v, name, p)
      invariant forall u :: u in accepted <==> UrlIn(v, done, u)
      decreases todo
    {
      var name :| name in todo;
      var one := CheckPackage(v, name, p);
      if one.Err? { return Err(one.error); }
      UrlsJoin(v, done, name);
      todo, done := todo - {name}, done + {name};
      accepted := accepted + one.value;
    }
    return Ok(accepted);
  }

  /**
    An audit is accepted exactly when it reports nothing, or the exception applies and every
    reported package is acceptable; the accepted urls are then all allowed, and are exactly
    those of the advisories below the reported packages.
  */
  method EvaluateAudit(findings: Option<Findings>, now: int, plugins: seq<string>, p: Policy) returns (r: Result<Verdict, Fault>)
    ensures r.Ok? <==> findings.Some? && (findings.value == map[] || Excepted(findings.value, now, plugins, p))
    ensures r.Ok? ==> r.value.total == |findings.value| && r.value.accepted <= p.allowed
    ensures r.Ok? ==> forall u :: u in r.value.accepted <==> UrlIn(findings.value, findings.value.Keys, u)
  {
    if findings.None? { return Err(NoMap); }
    var v := findings.value;
    if |v| == 0 { return Ok(Verdict({}, 0)); }
    if now >= p.expiresAt { return Err(Expired); }
    if "@semantic-release/npm" in plugins { return Err(PublisherActive); }
    hide Acceptable, UrlIn;
    var checked := CheckPackages(v, p);
    if checked.Err? { return Err(checked.error); }
    UrlsAreAllowed(v, p, checked.value);
    return Ok(Verdict(checked.value, |v|));
  }
}
