/**
 * The closure of workspace packages affected by a package cut. The loop grows a set of
 * names until a whole pass adds nothing; what it ends with is the least set that contains
 * the seeds and is closed under the joining rule, in whatever order packages are listed.
 * What is returned can still depend on the order; it is stated exactly when it does not.
 */
module AffectedClosure {
  import opened Options

  datatype Manifest = Manifest(
    name: string,
    isPrivate: bool,
    dependencies: seq<string>,
    devDependencies: seq<string>,
    optionalDependencies: seq<string>,
    peerDependencies: seq<string>)

  datatype Closure = MissingRequired(name: string) | OmittedRequired(name: string) | Affected(names: set<string>, packages: set<Manifest>)

  const SEEDS: seq<string> := ["@agent-vm/managed-vm", "@agent-vm/gateway-lifecycle", "@agent-vm/gondolin-vm-adapter"]

  const REQUIRED: seq<string> :=
    ["@agent-vm/managed-vm", "@agent-vm/gateway-lifecycle", "@agent-vm/gondolin-vm-adapter",
     "@agent-vm/hermes-gateway", "@agent-vm/agent-vm"]

  function AllDependencyNames(m: Manifest): (names: seq<string>)
    ensures forall n :: n in names <==>
              n in m.dependencies || n in m.devDependencies || n in m.optionalDependencies || n in m.peerDependencies
  {
    m.dependencies + m.devDependencies + m.optionalDependencies + m.peerDependencies
  }

  function NamesOf(packages: seq<Manifest>): set<string> {
    set i | 0 <= i < |packages| :: packages[i].name
  }

  // A Map from name to package: of packages with one name, the last counts.
  function Lookup(packages: seq<Manifest>, name: string): (r: Option<Manifest>)
    ensures r.Some? ==> r.value in packages && r.value.name == name
    ensures r.None? <==> name !in NamesOf(packages)
  {
    if packages == [] then None
    else
      var last, before := packages[|packages| - 1], packages[..|packages| - 1];
      assert packages == before + [last];
      if last.name == name then Some(last)
      else
        assert forall i :: 0 <= i < |packages| && packages[i].name == name ==> i < |before| && before[i].name == name;
        assert forall i :: 0 <= i < |before| ==> packages[i] == before[i];
        Lookup(before, name)
  }

  function WorkspaceDependencies(m: Manifest, names: set<string>): seq<string> {
    Filter(AllDependencyNames(m), names)
  }

  function Filter(candidates: seq<string>, names: set<string>): (kept: seq<string>)
    ensures forall n :: n in kept <==> n in candidates && n in names
  {
    if candidates == [] then []
    else
      assert candidates == [candidates[0]] + candidates[1..];
      (if candidates[0] in names then [candidates[0]] else []) + Filter(candidates[1..], names)
  }

  predicate Touches(candidates: seq<string>, s: set<string>) { exists i :: 0 <= i < |candidates| && candidates[i] in s }

  // A public package that is in the set, or depends on it within the workspace, joins it with all its workspace dependencies.
  ghost predicate JoinedBy(m: Manifest, names: set<string>, s: set<string>) {
    var deps := WorkspaceDependencies(m, names);
    !m.isPrivate && (m.name in s || Touches(deps, s)) ==> m.name in s && forall d :: d in deps ==> d in s
  }

  ghost predicate Closed(packages: seq<Manifest>, s: set<string>) {
    forall i :: 0 <= i < |packages| ==> JoinedBy(packages[i], NamesOf(packages), s)
  }

  ghost predicate HasSeeds(s: set<string>) { forall n :: n in SEEDS ==> n in s }

  // The least closed set with the seeds.
  ghost predicate IsClosure(packages: seq<Manifest>, s: set<string>) {
    HasSeeds(s) && Closed(packages, s) && Within(packages, s)
  }

  // Contained in every closed set with the seeds.
  ghost predicate Within(packages: seq<Manifest>, s: set<string>) {
    forall t: set<string> :: HasSeeds(t) && Closed(packages, t) ==> s <= t
  }

  // What the whole derivation is to return: the first required name that is missing, and else what the closure yields.
  ghost predicate IsOutcome(packages: seq<Manifest>, r: Closure) {
    if NoneMissing(packages, |REQUIRED|) then exists s :: IsClosure(packages, s) && Yields(packages, s, r)
    else exists k :: FirstMissing(packages, k) && r == MissingRequired(REQUIRED[k])
  }

  // The first required name that the closure omits, and else the closure with the packages its names stand for.
  ghost predicate Yields(packages: seq<Manifest>, s: set<string>, r: Closure) {
    if NoneOmitted(s, |REQUIRED|) then r.Affected? && r.names == s && StandFor(packages, s, r.packages)
    else exists k :: FirstOmitted(s, k) && r == OmittedRequired(REQUIRED[k])
  }

  ghost predicate StandFor(packages: seq<Manifest>, s: set<string>, found: set<Manifest>) {
    forall m :: m in found <==> m.name in s && Lookup(packages, m.name) == Some(m)
  }

  predicate Present(packages: seq<Manifest>, name: string) {
    var m := Lookup(packages, name);
    m.Some? && !m.value.isPrivate
  }

  ghost predicate NoneMissing(packages: seq<Manifest>, upTo: nat)
    requires upTo <= |REQUIRED|
  {
    forall k :: 0 <= k < upTo ==> Present(packages, REQUIRED[k])
  }

  ghost predicate FirstMissing(packages: seq<Manifest>, k: int) {
    0 <= k < |REQUIRED| && NoneMissing(packages, k) && !Present(packages, REQUIRED[k])
  }

  ghost predicate NoneOmitted(s: set<string>, upTo: nat)
    requires upTo <= |REQUIRED|
  {
    forall k :: 0 <= k < upTo ==> REQUIRED[k] in s
  }

  ghost predicate FirstOmitted(s: set<string>, k: int) {
    0 <= k < |REQUIRED| && NoneOmitted(s, k) && REQUIRED[k] !in s
  }

  // ---------- The derivation ----------

  method DeriveAffectedPublishableClosure(packages: seq<Manifest>) returns (r: Closure)
    ensures IsOutcome(packages, r)
  {
    for k := 0 to |REQUIRED|
      invariant NoneMissing(packages, k)
    {
      if !Present(packages, REQUIRED[k]) {
        assert FirstMissing(packages, k);
        return MissingRequired(REQUIRED[k]);
      }
    }
    var affected := GrowAffected(packages);
    for k := 0 to |REQUIRED|
      invariant NoneOmitted(affected, k)
    {
      if REQUIRED[k] !in affected {
        assert FirstOmitted(affected, k);
        return OmittedRequired(REQUIRED[k]);
      }
    }
    var found := set m | m in packages && m.name in affected && Lookup(packages, m.name) == Some(m);
    return Affected(affected, found);
  }

  method GrowAffected(packages: seq<Manifest>) returns (affected: set<string>)
    ensures IsClosure(packages, affected)
  {
    ghost var limit := NamesOf(packages) + set n | n in SEEDS;
    affected := set n | n in SEEDS;
    var changed := true;
    while changed
      invariant HasSeeds(affected) && affected <= limit && Within(packages, affected)
      invariant !changed ==> Closed(packages, affected)
      decreases limit - affected, changed
    {
      affected, changed := Pass(packages, affected, limit);
    }
  }

  // One pass over the packages.
  method Pass(packages: seq<Manifest>, before: set<string>, ghost limit: set<string>) returns (affected: set<string>, changed: bool)
    requires HasSeeds(before) && before <= limit && Within(packages, before) && NamesOf(packages) <= limit
    ensures HasSeeds(affected) && before <= affected <= limit && Within(packages, affected)
    ensures changed ==> before != affected
    ensures !changed ==> affected == before && Closed(packages, affected)
  {
    affected, changed := before, false;
    for i := 0 to |packages|
      invariant before <= affected <= limit && Within(packages, affected)
      invariant changed <==> before != affected
      invariant !changed ==> forall k :: 0 <= k < i ==> JoinedBy(packages[k], NamesOf(packages), affected)
    {
      if packages[i].isPrivate {
        continue;
      }
      var names := NamesOf(packages);
      var deps := WorkspaceDependencies(packages[i], names);
      if packages[i].name in affected || Touches(deps, affected) {
        JoinStaysWithin(packages, affected, i);
        assert packages[i].name in names;
        var grew;
        affected, grew := Join(affected, packages[i].name, deps);
        changed := changed || grew;
      }
    }
  }

  method Join(s: set<string>, name: string, deps: seq<string>) returns (joined: set<string>, grew: bool)
    ensures joined == s + {name} + set d | d in deps
    ensures grew <==> joined != s
  {
    grew, joined := name !in s, s + {name};
    for k := 0 to |deps|
      invariant joined == s + {name} + set j | 0 <= j < k :: deps[j]
      invariant grew <==> joined != s
    {
      if deps[k] !in joined {
        grew := true;
      }
      joined := joined + {deps[k]};
    }
  }

  // What the joining rule adds is in every closed set anyway.
  lemma JoinStaysWithin(packages: seq<Manifest>, s: set<string>, i: nat)
    requires Within(packages, s) && i < |packages| && !packages[i].isPrivate
    requires packages[i].name in s || Touches(WorkspaceDependencies(packages[i], NamesOf(packages)), s)
    ensures Within(packages, s + {packages[i].name} + set d | d in WorkspaceDependencies(packages[i], NamesOf(packages)))
  {
    var deps := WorkspaceDependencies(packages[i], NamesOf(packages));
    forall t: set<string> | HasSeeds(t) && Closed(packages, t) ensures s + {packages[i].name} + (set d | d in deps) <= t {
      assert s <= t && JoinedBy(packages[i], NamesOf(packages), t);
      if packages[i].name !in s {
        var k :| 0 <= k < |deps| && deps[k] in s;
        assert deps[k] in t;
      }
    }
  }

  // ---------- The order of listing ----------

  ghost predicate Reordered(p: seq<Manifest>, q: seq<Manifest>) { multiset(p) == multiset(q) }

  lemma SameMembers(p: seq<Manifest>, q: seq<Manifest>)
    requires Reordered(p, q)
    ensures forall m :: m in p <==> m in q
    ensures NamesOf(p) == NamesOf(q)
  {
    forall m ensures m in p <==> m in q {
      assert m in p <==> m in multiset(p);
      assert m in q <==> m in multiset(q);
    }
    forall n ensures n in NamesOf(p) <==> n in NamesOf(q) {
      NamedMembers(p, n);
      NamedMembers(q, n);
    }
  }

  lemma NamedMembers(p: seq<Manifest>, n: string)
    ensures n in NamesOf(p) <==> exists m :: m in p && m.name == n
  {
    if n in NamesOf(p) {
      var i :| 0 <= i < |p| && p[i].name == n;
      assert p[i] in p;
    }
  }

  lemma ClosedEitherWay(p: seq<Manifest>, q: seq<Manifest>, s: set<string>)
    requires Reordered(p, q) && Closed(p, s)
    ensures Closed(q, s)
  {
    SameMembers(p, q);
    forall i | 0 <= i < |q| ensures JoinedBy(q[i], NamesOf(q), s) {
      assert q[i] in p;
      var j :| 0 <= j < |p| && p[j] == q[i];
    }
  }

  /** The affected names do not depend on the order in which packages are listed. */
  lemma ClosureIsUnique(p: seq<Manifest>, q: seq<Manifest>, s: set<string>, t: set<string>)
    requires Reordered(p, q) && IsClosure(p, s) && IsClosure(q, t)
    ensures s == t
  {
    ClosedEitherWay(p, q, s);
    ClosedEitherWay(q, p, t);
  }

  // Every package of that name is the same package.
  ghost predicate Unambiguous(p: seq<Manifest>, n: string) {
    forall i, j :: 0 <= i < |p| && 0 <= j < |p| && p[i].name == n && p[j].name == n ==> p[i] == p[j]
  }

  ghost predicate SameInAnyOrder(p: seq<Manifest>, n: string) {
    forall q :: Reordered(p, q) ==> Lookup(q, n) == Lookup(p, n)
  }

  lemma LookupLast(p: seq<Manifest>, m: Manifest)
    ensures Lookup(p + [m], m.name) == Some(m)
  {
    assert (p + [m])[|p|] == m;
  }

  lemma UnambiguousLookup(p: seq<Manifest>, q: seq<Manifest>, n: string)
    requires Reordered(p, q) && Unambiguous(p, n)
    ensures Lookup(q, n) == Lookup(p, n)
  {
    SameMembers(p, q);
    var a, b := Lookup(p, n), Lookup(q, n);
    if a.Some? && b.Some? {
      var i :| 0 <= i < |p| && p[i] == a.value;
      assert b.value in p;
      var j :| 0 <= j < |p| && p[j] == b.value;
    }
  }

  // Listing one package last makes its name stand for it.
  lemma ListedLast(p: seq<Manifest>, k: nat) returns (q: seq<Manifest>)
    requires k < |p|
    ensures Reordered(p, q) && Lookup(q, p[k].name) == Some(p[k])
  {
    var rest := p[..k] + p[k + 1..];
    assert p == p[..k] + [p[k]] + p[k + 1..];
    q := rest + [p[k]];
    LookupLast(rest, p[k]);
  }

  /**
   * Which package a name stands for is independent of the order of listing exactly if all
   * packages of that name are the same; names that occur twice are not rejected.
   */
  lemma LookupOrderFree(p: seq<Manifest>, n: string)
    ensures SameInAnyOrder(p, n) <==> Unambiguous(p, n)
  {
    if Unambiguous(p, n) {
      forall q | Reordered(p, q) ensures Lookup(q, n) == Lookup(p, n) {
        UnambiguousLookup(p, q, n);
      }
    } else {
      var i, j :| 0 <= i < |p| && 0 <= j < |p| && p[i].name == n && p[j].name == n && p[i] != p[j];
      var q := ListedLast(p, i);
      var r := ListedLast(p, j);
      assert Lookup(q, n) != Lookup(r, n);
    }
  }

  /** The description leaves one outcome to every listing. */
  lemma OutcomeIsDetermined(p: seq<Manifest>, x: Closure, y: Closure)
    requires IsOutcome(p, x) && IsOutcome(p, y)
    ensures x == y
  {
    if NoneMissing(p, |REQUIRED|) {
      var s :| IsClosure(p, s) && Yields(p, s, x);
      var t :| IsClosure(p, t) && Yields(p, t, y);
      ClosureIsUnique(p, p, s, t);
      YieldsOne(p, s, x, y);
    } else {
      var j :| FirstMissing(p, j) && x == MissingRequired(REQUIRED[j]);
      var k :| FirstMissing(p, k) && y == MissingRequired(REQUIRED[k]);
      assert j == k;
    }
  }

  lemma YieldsOne(p: seq<Manifest>, s: set<string>, x: Closure, y: Closure)
    requires Yields(p, s, x) && Yields(p, s, y)
    ensures x == y
  {
    if NoneOmitted(s, |REQUIRED|) {
      assert x.packages == y.packages;
    } else {
      var j :| FirstOmitted(s, j) && x == OmittedRequired(REQUIRED[j]);
      var k :| FirstOmitted(s, k) && y == OmittedRequired(REQUIRED[k]);
      assert j == k;
    }
  }

  // ---------- When the outcome is independent of the order ----------

  // A package of that name is listed, and all of that name are public.
  ghost predicate AlwaysPublic(p: seq<Manifest>, n: string) {
    n in NamesOf(p) && forall m :: m in p && m.name == n ==> !m.isPrivate
  }

  ghost predicate NeverPublic(p: seq<Manifest>, n: string) {
    forall m :: m in p && m.name == n ==> m.isPrivate
  }

  ghost predicate Settled(p: seq<Manifest>, upTo: nat)
    requires upTo <= |REQUIRED|
  {
    forall k :: 0 <= k < upTo ==> AlwaysPublic(p, REQUIRED[k])
  }

  // The first required name that is not always public never is, or all are and the closure omits one or names no package ambiguously.
  ghost predicate OrderFree(p: seq<Manifest>) {
    if Settled(p, |REQUIRED|) then exists s :: IsClosure(p, s) && (!NoneOmitted(s, |REQUIRED|) || AllUnambiguous(p, s))
    else exists k :: 0 <= k < |REQUIRED| && Settled(p, k) && NeverPublic(p, REQUIRED[k])
  }

  ghost predicate AllUnambiguous(p: seq<Manifest>, s: set<string>) { forall n :: n in s ==> Unambiguous(p, n) }

  ghost predicate SameOutcomeInAnyOrder(p: seq<Manifest>, r: Closure) { forall q :: Reordered(p, q) ==> IsOutcome(q, r) }

  /**
   * The outcome is the same for every order of listing exactly if the first required name that
   * is not always public never is, or all are always public and the closure omits one of them
   * or every name in it stands for one package only.
   */
  lemma OutcomeOrderFree(p: seq<Manifest>, r: Closure)
    requires IsOutcome(p, r)
    ensures SameOutcomeInAnyOrder(p, r) <==> OrderFree(p)
  {
    if OrderFree(p) {
      forall q | Reordered(p, q) ensures IsOutcome(q, r) {
        OrderFreeOutcome(p, q, r);
      }
    } else if Settled(p, |REQUIRED|) {
      AmbiguousOutcome(p, r);
    } else {
      UnsettledOutcome(p, r);
    }
  }

  lemma SettledEitherWay(p: seq<Manifest>, q: seq<Manifest>, upTo: nat)
    requires Reordered(p, q) && upTo <= |REQUIRED| && Settled(p, upTo)
    ensures Settled(q, upTo) && NoneMissing(q, upTo)
  {
    SameMembers(p, q);
    forall k | 0 <= k < upTo ensures AlwaysPublic(q, REQUIRED[k]) && Present(q, REQUIRED[k]) {
      assert AlwaysPublic(p, REQUIRED[k]);
    }
  }

  lemma OrderFreeOutcome(p: seq<Manifest>, q: seq<Manifest>, r: Closure)
    requires Reordered(p, q) && IsOutcome(p, r) && OrderFree(p)
    ensures IsOutcome(q, r)
  {
    if Settled(p, |REQUIRED|) {
      SettledEitherWay(p, p, |REQUIRED|);
      SettledEitherWay(p, q, |REQUIRED|);
      var s :| IsClosure(p, s) && Yields(p, s, r);
      var t :| IsClosure(p, t) && (!NoneOmitted(t, |REQUIRED|) || AllUnambiguous(p, t));
      ClosureIsUnique(p, p, s, t);
      ClosureEitherWay(p, q, s);
      if NoneOmitted(s, |REQUIRED|) {
        StandForEitherWay(p, q, s, r.packages);
      }
      assert Yields(q, s, r);
    } else {
      var k :| 0 <= k < |REQUIRED| && Settled(p, k) && NeverPublic(p, REQUIRED[k]);
      NeverPublicIsMissing(p, p, k);
      NeverPublicIsMissing(p, q, k);
      OutcomeIsDetermined(p, r, MissingRequired(REQUIRED[k]));
    }
  }

  lemma NeverPublicIsMissing(p: seq<Manifest>, q: seq<Manifest>, k: nat)
    requires Reordered(p, q) && k < |REQUIRED| && Settled(p, k) && NeverPublic(p, REQUIRED[k])
    ensures FirstMissing(q, k) && IsOutcome(q, MissingRequired(REQUIRED[k]))
  {
    SettledEitherWay(p, q, k);
    SameMembers(p, q);
    assert FirstMissing(q, k);
  }

  lemma ClosureEitherWay(p: seq<Manifest>, q: seq<Manifest>, s: set<string>)
    requires Reordered(p, q) && IsClosure(p, s)
    ensures IsClosure(q, s)
  {
    ClosedEitherWay(p, q, s);
    forall t: set<string> | HasSeeds(t) && Closed(q, t) ensures s <= t {
      ClosedEitherWay(q, p, t);
    }
  }

  lemma StandForEitherWay(p: seq<Manifest>, q: seq<Manifest>, s: set<string>, found: set<Manifest>)
    requires Reordered(p, q) && AllUnambiguous(p, s) && StandFor(p, s, found)
    ensures StandFor(q, s, found)
  {
    forall m: Manifest ensures m in found <==> m.name in s && Lookup(q, m.name) == Some(m) {
      if m.name in s {
        UnambiguousLookup(p, q, m.name);
      }
    }
  }

  // With two packages of a name in the closure, each order of them yields another.
  lemma AmbiguousOutcome(p: seq<Manifest>, r: Closure)
    requires IsOutcome(p, r) && Settled(p, |REQUIRED|) && !OrderFree(p)
    ensures !SameOutcomeInAnyOrder(p, r)
  {
    SettledEitherWay(p, p, |REQUIRED|);
    var s :| IsClosure(p, s) && Yields(p, s, r);
    var n :| n in s && !Unambiguous(p, n);
    var i, j :| 0 <= i < |p| && 0 <= j < |p| && p[i].name == n && p[j].name == n && p[i] != p[j];
    var q := ListedLast(p, i);
    var t := ListedLast(p, j);
    if IsOutcome(q, r) && IsOutcome(t, r) {
      FoundByName(p, q, r, p[i]);
      FoundByName(p, t, r, p[i]);
    }
  }

  lemma FoundByName(p: seq<Manifest>, q: seq<Manifest>, r: Closure, m: Manifest)
    requires Reordered(p, q) && Settled(p, |REQUIRED|) && IsOutcome(q, r) && r.Affected? && m.name in r.names
    ensures m in r.packages <==> Lookup(q, m.name) == Some(m)
  {
    SettledEitherWay(p, q, |REQUIRED|);
    var s :| IsClosure(q, s) && Yields(q, s, r);
  }

  // With a public and a private package of the first unsettled name, it is missing in one order only.
  lemma UnsettledOutcome(p: seq<Manifest>, r: Closure)
    requires IsOutcome(p, r) && !Settled(p, |REQUIRED|) && !OrderFree(p)
    ensures !SameOutcomeInAnyOrder(p, r)
  {
    var k := FirstUnsettled(p, |REQUIRED|);
    var n := REQUIRED[k];
    var m :| m in p && m.name == n && !m.isPrivate;
    var i :| 0 <= i < |p| && p[i] == m;
    NamedMembers(p, n);
    var m' :| m' in p && m'.name == n && m'.isPrivate;
    var j :| 0 <= j < |p| && p[j] == m';
    var q := ListedLast(p, i);
    var t := ListedLast(p, j);
    SettledEitherWay(p, t, k);
    assert FirstMissing(t, k);
    if IsOutcome(q, r) && IsOutcome(t, r) {
      OutcomeIsDetermined(t, r, MissingRequired(n));
    }
  }

  lemma FirstUnsettled(p: seq<Manifest>, upTo: nat) returns (k: nat)
    requires upTo <= |REQUIRED| && !Settled(p, upTo)
    ensures k < upTo && Settled(p, k) && !AlwaysPublic(p, REQUIRED[k])
  {
    k := 0;
    while AlwaysPublic(p, REQUIRED[k])
      invariant k < upTo && Settled(p, k)
      decreases upTo - k
    {
      k := k + 1;
    }
  }

  // ---------- A listing that depends on its order ----------

  function Public(name: string, dependencies: seq<string>): Manifest { Manifest(name, false, dependencies, [], [], []) }

  // The required packages, of which the last is listed both as a private and as a public package.
  function Cut(publicLast: bool): seq<Manifest> {
    var a, b := Public(REQUIRED[4], [REQUIRED[0]]), Manifest(REQUIRED[4], true, [], [], [], []);
    [Public(REQUIRED[0], []), Public(REQUIRED[1], []), Public(REQUIRED[2], []), Public(REQUIRED[3], [REQUIRED[0]])]
    + if publicLast then [b, a] else [a, b]
  }

  // The last package of its name is what the name stands for.
  lemma {:induction false} LookupAt(p: seq<Manifest>, k: nat)
    requires k < |p| && forall j :: k < j < |p| ==> p[j].name != p[k].name
    ensures Lookup(p, p[k].name) == Some(p[k])
  {
    if k < |p| - 1 {
      LookupAt(p[..|p| - 1], k);
    }
  }

  // A package joins what one of its workspace dependencies is in.
  lemma DependentJoins(m: Manifest, names: set<string>, t: set<string>)
    requires !m.isPrivate && |m.dependencies| > 0 && m.dependencies[0] in names && m.dependencies[0] in t && JoinedBy(m, names, t)
    ensures m.name in t
  {
    var d, deps := m.dependencies[0], WorkspaceDependencies(m, names);
    assert AllDependencyNames(m)[0] == d;
    assert d in deps;
  }

  lemma CutIsClosed(p: seq<Manifest>, s: set<string>)
    requires p == Cut(true) && s == set n | n in REQUIRED
    ensures IsClosure(p, s)
  {
    var names := NamesOf(p);
    forall i | 0 <= i < |p| ensures JoinedBy(p[i], names, s) {
      assert p[i].dependencies == [] || p[i].dependencies == [REQUIRED[0]];
    }
    forall t: set<string> | HasSeeds(t) && Closed(p, t) ensures s <= t {
      CutIsLeast(p, t);
    }
  }

  lemma CutIsLeast(p: seq<Manifest>, t: set<string>)
    requires p == Cut(true) && HasSeeds(t) && Closed(p, t)
    ensures forall n :: n in REQUIRED ==> n in t
  {
    var names := NamesOf(p);
    assert p[0].name in names;
    forall k | 0 <= k < |REQUIRED| ensures REQUIRED[k] in t {
      if k < 3 {
        assert SEEDS[k] in SEEDS;
      } else {
        DependentJoins(p[if k == 3 then 3 else 5], names, t);
      }
    }
  }

  lemma CutStandsFor(p: seq<Manifest>, s: set<string>, m: Manifest)
    requires p == Cut(true) && s == set n | n in REQUIRED
    ensures m in p && !m.isPrivate <==> m.name in s && Lookup(p, m.name) == Some(m)
  {
    if m in p && !m.isPrivate {
      var i :| 0 <= i < |p| && p[i] == m;
      LookupAt(p, i);
    }
    LookupAt(p, 5);
  }

  lemma CutIsPresent(p: seq<Manifest>)
    requires p == Cut(true)
    ensures NoneMissing(p, |REQUIRED|)
  {
    forall k | 0 <= k < |REQUIRED| ensures Present(p, REQUIRED[k]) {
      LookupAt(p, if k < 4 then k else 5);
    }
  }

  lemma PublicLast(p: seq<Manifest>, s: set<string>, found: set<Manifest>)
    requires p == Cut(true) && s == (set n | n in REQUIRED) && found == set m | m in p && !m.isPrivate
    ensures IsOutcome(p, Affected(s, found))
  {
    CutIsClosed(p, s);
    CutIsPresent(p);
    assert StandFor(p, s, found) by {
      forall m: Manifest ensures m in found <==> m.name in s && Lookup(p, m.name) == Some(m) {
        CutStandsFor(p, s, m);
      }
    }
    assert Yields(p, s, Affected(s, found));
  }

  lemma PublicFirst(p: seq<Manifest>)
    requires p == Cut(false)
    ensures IsOutcome(p, MissingRequired(REQUIRED[4]))
  {
    forall k | 0 <= k < 4 ensures Present(p, REQUIRED[k]) {
      LookupAt(p, k);
    }
    LookupAt(p, 5);
    assert FirstMissing(p, 4);
  }

  /** Listed last, the public package of the name is affected with all required ones; listed first, it is missed. */
  lemma OrderMattersForDuplicates()
    ensures Reordered(Cut(true), Cut(false))
    ensures IsOutcome(Cut(true), Affected(set n | n in REQUIRED, set m | m in Cut(true) && !m.isPrivate))
    ensures IsOutcome(Cut(false), MissingRequired(REQUIRED[4]))
  {
    PublicLast(Cut(true), set n | n in REQUIRED, set m | m in Cut(true) && !m.isPrivate);
    PublicFirst(Cut(false));
  }
}
