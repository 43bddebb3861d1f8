/**
 * Well-formedness of a configured command-line policy: its command paths do not overlap,
 * so one command at most admits any argument vector, and invocation matchers are told apart
 * by an identity that ignores the order of flags, names and values.
 */
module ConfiguredCli {
  import opened Options

  type Path = seq<string>

  // ---------- Command paths ----------

  predicate IsTokenPrefix(left: Path, right: Path) {
    |left| <= |right| && forall i :: 0 <= i < |left| ==> left[i] == right[i]
  }

  predicate PathsOverlap(left: Path, right: Path) { IsTokenPrefix(left, right) || IsTokenPrefix(right, left) }

  // A command admits the argument vectors that are its path followed by some rest.
  ghost predicate Admits(path: Path, argv: seq<string>) { exists rest :: argv == path + rest }

  lemma PrefixAdmits(path: Path, argv: seq<string>)
    ensures Admits(path, argv) <==> IsTokenPrefix(path, argv)
  {
    if IsTokenPrefix(path, argv) {
      assert argv == path + argv[|path|..];
    }
  }

  ghost predicate PrefixFree(paths: seq<Path>) {
    forall i, j :: 0 <= i < j < |paths| ==> !PathsOverlap(paths[i], paths[j])
  }

  /** Reports a command for every earlier command its path overlaps; nothing is reported exactly if the paths are prefix-free. */
  method OverlappingCommands(paths: seq<Path>) returns (issues: seq<nat>)
    ensures issues == [] <==> PrefixFree(paths)
    ensures forall k :: 0 <= k < |issues| ==> issues[k] < |paths| && OverlapsEarlier(paths, issues[k])
    ensures forall j :: 0 <= j < |paths| && OverlapsEarlier(paths, j) ==> j in issues
  {
    issues := [];
    for left := 0 to |paths|
      invariant forall k :: 0 <= k < |issues| ==> issues[k] < |paths| && OverlapsEarlier(paths, issues[k])
      invariant forall i, j :: 0 <= i < left && i < j < |paths| && PathsOverlap(paths[i], paths[j]) ==> j in issues
    {
      for right := left + 1 to |paths|
        invariant forall k :: 0 <= k < |issues| ==> issues[k] < |paths| && OverlapsEarlier(paths, issues[k])
        invariant forall i, j :: 0 <= i < left && i < j < |paths| && PathsOverlap(paths[i], paths[j]) ==> j in issues
        invariant forall j :: left < j < right && PathsOverlap(paths[left], paths[j]) ==> j in issues
      {
        if IsTokenPrefix(paths[left], paths[right]) || IsTokenPrefix(paths[right], paths[left]) {
          assert PathsOverlap(paths[left], paths[right]);
          assert OverlapsEarlier(paths, right);
          ghost var before := issues;
          issues := issues + [right];
          assert issues[|before|] == right;
          assert forall j :: j in before ==> j in issues;
        }
      }
    }
    if issues != [] {
      assert OverlapsEarlier(paths, issues[0]);
    }
  }

  ghost predicate OverlapsEarlier(paths: seq<Path>, j: nat)
    requires j < |paths|
  {
    exists i :: 0 <= i < j && PathsOverlap(paths[i], paths[j])
  }

  ghost predicate AdmittedOnce(paths: seq<Path>, argv: seq<string>) {
    forall i, j :: 0 <= i < j < |paths| ==> !(Admits(paths[i], argv) && Admits(paths[j], argv))
  }

  /** Prefix-free paths are exactly those of which at most one admits any argument vector. */
  lemma PrefixFreeMeansUnambiguous(paths: seq<Path>)
    ensures PrefixFree(paths) <==> forall argv :: AdmittedOnce(paths, argv)
  {
    if PrefixFree(paths) {
      forall argv ensures AdmittedOnce(paths, argv) {
        forall i, j | 0 <= i < j < |paths| ensures !(Admits(paths[i], argv) && Admits(paths[j], argv)) {
          PrefixAdmits(paths[i], argv);
          PrefixAdmits(paths[j], argv);
          if Admits(paths[i], argv) && Admits(paths[j], argv) {
            BothPrefixes(paths[i], paths[j], argv);
          }
        }
      }
    }
    if forall argv :: AdmittedOnce(paths, argv) {
      forall i, j | 0 <= i < j < |paths| ensures !PathsOverlap(paths[i], paths[j]) {
        assert AdmittedOnce(paths, paths[i]) && AdmittedOnce(paths, paths[j]);
        PrefixAdmits(paths[i], paths[i]);
        PrefixAdmits(paths[i], paths[j]);
        PrefixAdmits(paths[j], paths[i]);
        PrefixAdmits(paths[j], paths[j]);
      }
    }
  }

  lemma BothPrefixes(a: Path, b: Path, argv: seq<string>)
    requires IsTokenPrefix(a, argv) && IsTokenPrefix(b, argv)
    ensures PathsOverlap(a, b)
  {
    if |a| <= |b| {
      assert forall i :: 0 <= i < |a| ==> a[i] == argv[i] == b[i];
    } else {
      assert forall i :: 0 <= i < |b| ==> b[i] == argv[i] == a[i];
    }
  }

  // ---------- Sorting names ----------

  // The order of strings by their character codes.
  predicate AtMost(a: string, b: string) {
    a == [] || (b != [] && (a[0] < b[0] || (a[0] == b[0] && AtMost(a[1..], b[1..]))))
  }

  lemma {:induction false} AtMostTotal(a: string, b: string)
    ensures AtMost(a, b) || AtMost(b, a)
  {
    if a != [] && b != [] && a[0] == b[0] {
      AtMostTotal(a[1..], b[1..]);
    }
  }

  lemma {:induction false} AtMostAntisymmetric(a: string, b: string)
    requires AtMost(a, b) && AtMost(b, a)
    ensures a == b
  {
    if a != [] {
      AtMostAntisymmetric(a[1..], b[1..]);
      assert a == [a[0]] + a[1..] && b == [b[0]] + b[1..];
    }
  }

  lemma {:induction false} AtMostTransitive(a: string, b: string, c: string)
    requires AtMost(a, b) && AtMost(b, c)
    ensures AtMost(a, c)
  {
    if a != [] && a[0] == b[0] && b[0] == c[0] {
      AtMostTransitive(a[1..], b[1..], c[1..]);
    }
  }

  function Insert(x: string, xs: seq<string>): seq<string> {
    if xs == [] || AtMost(x, xs[0]) then [x] + xs else [xs[0]] + Insert(x, xs[1..])
  }

  function Sorted(xs: seq<string>): seq<string> {
    if xs == [] then [] else Insert(xs[0], Sorted(xs[1..]))
  }

  ghost predicate Ascending(xs: seq<string>) {
    forall i, j :: 0 <= i < j < |xs| ==> AtMost(xs[i], xs[j])
  }

  lemma {:induction false} InsertSorts(x: string, xs: seq<string>)
    requires Ascending(xs)
    ensures Ascending(Insert(x, xs)) && multiset(Insert(x, xs)) == multiset{x} + multiset(xs)
  {
    if xs == [] {
    } else if AtMost(x, xs[0]) {
      forall j | 0 <= j < |xs| ensures AtMost(x, xs[j]) {
        if j > 0 { AtMostTransitive(x, xs[0], xs[j]); }
      }
    } else {
      AtMostTotal(x, xs[0]);
      var rest := Insert(x, xs[1..]);
      InsertSorts(x, xs[1..]);
      assert xs == [xs[0]] + xs[1..];
      forall j | 0 <= j < |rest| ensures AtMost(xs[0], rest[j]) {
        assert rest[j] in multiset(rest);
        if rest[j] != x {
          assert rest[j] in multiset(xs[1..]);
          var k :| 0 <= k < |xs[1..]| && xs[1..][k] == rest[j];
        }
      }
    }
  }

  lemma {:induction false} SortedSorts(xs: seq<string>)
    ensures Ascending(Sorted(xs)) && multiset(Sorted(xs)) == multiset(xs)
  {
    if xs != [] {
      SortedSorts(xs[1..]);
      InsertSorts(xs[0], Sorted(xs[1..]));
      assert xs == [xs[0]] + xs[1..];
    }
  }

  lemma OneLess<X>(s: seq<X>, k: nat)
    requires k < |s|
    ensures multiset(s) == multiset(s[..k] + s[k + 1..]) + multiset{s[k]}
  {
    assert s == s[..k] + [s[k]] + s[k + 1..];
  }

  lemma TailLess<X>(s: seq<X>)
    requires s != []
    ensures multiset(s[1..]) == multiset(s) - multiset{s[0]}
  {
    assert s == [s[0]] + s[1..];
  }

  // There is one way to list a collection in ascending order.
  lemma {:induction false} AscendingIsUnique(a: seq<string>, b: seq<string>)
    requires Ascending(a) && Ascending(b) && multiset(a) == multiset(b)
    ensures a == b
  {
    if a == [] {
      assert |multiset(b)| == 0;
    } else {
      assert a[0] in multiset(b);
      assert |multiset(b)| > 0 && b[0] in multiset(a);
      HeadIsLeast(a, b[0]);
      HeadIsLeast(b, a[0]);
      AtMostAntisymmetric(a[0], b[0]);
      TailLess(a);
      TailLess(b);
      AscendingIsUnique(a[1..], b[1..]);
      assert a == [a[0]] + a[1..] && b == [b[0]] + b[1..];
    }
  }

  lemma HeadIsLeast(a: seq<string>, x: string)
    requires Ascending(a) && x in a
    ensures AtMost(a[0], x)
  {
    var i :| 0 <= i < |a| && a[i] == x;
    if i == 0 {
      AtMostTotal(x, x);
    }
  }

  /** Sorting tells two lists apart exactly if they hold different elements. */
  lemma SortedEqual(a: seq<string>, b: seq<string>)
    ensures Sorted(a) == Sorted(b) <==> multiset(a) == multiset(b)
  {
    SortedSorts(a);
    SortedSorts(b);
    if multiset(a) == multiset(b) {
      AscendingIsUnique(Sorted(a), Sorted(b));
    }
  }

  // ---------- Matcher identities ----------

  datatype FlagPredicate = FlagPredicate(names: seq<string>, values: Option<seq<string>>)

  datatype Matcher = Matcher(flags: seq<FlagPredicate>, path: Path)

  // What is written as JSON for a flag predicate: names and values in ascending order.
  function FlagShape(f: FlagPredicate): FlagPredicate {
    FlagPredicate(Sorted(f.names), if f.values.None? then None else Some(Sorted(f.values.value)))
  }

  // JSON text of a flag predicate; all that is known of it is that different ones have different texts.
  type JsonText = FlagPredicate -> string

  ghost predicate Injective(json: JsonText) { forall f, g :: json(f) == json(g) ==> f == g }

  function FlagTexts(json: JsonText, flags: seq<FlagPredicate>): (texts: seq<string>)
    ensures |texts| == |flags|
    ensures forall i :: 0 <= i < |texts| ==> texts[i] == json(FlagShape(flags[i]))
  {
    seq(|flags|, i requires 0 <= i < |flags| => json(FlagShape(flags[i])))
  }

  datatype Identity = Identity(flags: seq<string>, path: Path)

  function MatcherIdentity(json: JsonText, m: Matcher): Identity {
    Identity(Sorted(FlagTexts(json, m.flags)), m.path)
  }

  // A flag predicate without the order of its names and values.
  datatype FlagSense = FlagSense(names: multiset<string>, values: Option<multiset<string>>)

  ghost function Sense(f: FlagPredicate): FlagSense {
    FlagSense(multiset(f.names), if f.values.None? then None else Some(multiset(f.values.value)))
  }

  ghost function Senses(flags: seq<FlagPredicate>): (senses: seq<FlagSense>)
    ensures |senses| == |flags|
    ensures forall i :: 0 <= i < |senses| ==> senses[i] == Sense(flags[i])
  {
    seq(|flags|, i requires 0 <= i < |flags| => Sense(flags[i]))
  }

  // The same path, and the same flags up to the order of flags, names and values.
  ghost predicate SameUpToOrder(m: Matcher, n: Matcher) {
    m.path == n.path && multiset(Senses(m.flags)) == multiset(Senses(n.flags))
  }

  lemma ShapeIsSense(f: FlagPredicate, g: FlagPredicate)
    ensures FlagShape(f) == FlagShape(g) <==> Sense(f) == Sense(g)
  {
    SortedEqual(f.names, g.names);
    if f.values.Some? && g.values.Some? {
      SortedEqual(f.values.value, g.values.value);
    }
  }

  // Two readings of lists that tell elements apart in the same way tell their collections apart in the same way.
  lemma {:induction false} TextsAreSenses(json: JsonText, a: seq<FlagPredicate>, b: seq<FlagPredicate>)
    requires Injective(json)
    ensures multiset(FlagTexts(json, a)) == multiset(FlagTexts(json, b)) <==> multiset(Senses(a)) == multiset(Senses(b))
    decreases |a|
  {
    var ta, tb, sa, sb := FlagTexts(json, a), FlagTexts(json, b), Senses(a), Senses(b);
    if a == [] {
      assert ta == [] && sa == [];
      assert |multiset(tb)| == |b| && |multiset(sb)| == |b|;
    } else {
      var k := IndexOfSense(b, Sense(a[0]));
      if k < |b| {
        WithoutOne(json, a, 0);
        WithoutOne(json, b, k);
        ShapeIsSense(a[0], b[k]);
        TextsAreSenses(json, a[..0] + a[1..], b[..k] + b[k + 1..]);
        assert ta[0] == tb[k] && sa[0] == sb[k];
        MultisetLess(ta, a[..0] + a[1..], tb, b[..k] + b[k + 1..], json);
        SenseLess(sa, a[..0] + a[1..], sb, b[..k] + b[k + 1..]);
      } else {
        assert sa[0] in multiset(sa) && sa[0] !in multiset(sb) by {
          forall i | 0 <= i < |sb| ensures sb[i] != sa[0] {
          }
        }
        assert ta[0] in multiset(ta) && ta[0] !in multiset(tb) by {
          forall i | 0 <= i < |tb| ensures tb[i] != ta[0] {
            ShapeIsSense(a[0], b[i]);
          }
        }
      }
    }
  }

  ghost function IndexOfSense(flags: seq<FlagPredicate>, sense: FlagSense, from: nat := 0): (k: nat)
    requires from <= |flags|
    ensures from <= k <= |flags| && (k < |flags| ==> Sense(flags[k]) == sense)
    ensures forall j :: from <= j < k ==> Sense(flags[j]) != sense
    decreases |flags| - from
  {
    if from == |flags| || Sense(flags[from]) == sense then from else IndexOfSense(flags, sense, from + 1)
  }

  lemma WithoutOne(json: JsonText, flags: seq<FlagPredicate>, k: nat)
    requires k < |flags|
    ensures multiset(FlagTexts(json, flags)) == multiset(FlagTexts(json, flags[..k] + flags[k + 1..])) + multiset{FlagTexts(json, flags)[k]}
    ensures multiset(Senses(flags)) == multiset(Senses(flags[..k] + flags[k + 1..])) + multiset{Senses(flags)[k]}
  {
    var t, s := FlagTexts(json, flags), Senses(flags);
    var rest := flags[..k] + flags[k + 1..];
    OneLess(t, k);
    OneLess(s, k);
    assert FlagTexts(json, rest) == t[..k] + t[k + 1..];
    assert Senses(rest) == s[..k] + s[k + 1..];
  }

  lemma MultisetLess(ta: seq<string>, a: seq<FlagPredicate>, tb: seq<string>, b: seq<FlagPredicate>, json: JsonText)
    requires ta != [] && exists k :: 0 <= k < |tb| && tb[k] == ta[0]
    requires multiset(ta) == multiset(FlagTexts(json, a)) + multiset{ta[0]}
    requires multiset(tb) == multiset(FlagTexts(json, b)) + multiset{ta[0]}
    ensures multiset(ta) == multiset(tb) <==> multiset(FlagTexts(json, a)) == multiset(FlagTexts(json, b))
  {
    assert multiset(FlagTexts(json, a)) == multiset(ta) - multiset{ta[0]};
    assert multiset(FlagTexts(json, b)) == multiset(tb) - multiset{ta[0]};
  }

  lemma SenseLess(sa: seq<FlagSense>, a: seq<FlagPredicate>, sb: seq<FlagSense>, b: seq<FlagPredicate>)
    requires sa != []
    requires multiset(sa) == multiset(Senses(a)) + multiset{sa[0]}
    requires multiset(sb) == multiset(Senses(b)) + multiset{sa[0]}
    ensures multiset(sa) == multiset(sb) <==> multiset(Senses(a)) == multiset(Senses(b))
  {
    assert multiset(Senses(a)) == multiset(sa) - multiset{sa[0]};
    assert multiset(Senses(b)) == multiset(sb) - multiset{sa[0]};
  }

  /** Two matchers have the same identity exactly if they are the same up to the order of flags, names and values. */
  lemma IdentityIgnoresOrder(json: JsonText, m: Matcher, n: Matcher)
    requires Injective(json)
    ensures MatcherIdentity(json, m) == MatcherIdentity(json, n) <==> SameUpToOrder(m, n)
  {
    SortedEqual(FlagTexts(json, m.flags), FlagTexts(json, n.flags));
    TextsAreSenses(json, m.flags, n.flags);
  }

  ghost predicate SemanticallyUnique(matchers: seq<Matcher>, upTo: nat) {
    forall i, j :: 0 <= i < j < upTo <= |matchers| ==> !SameUpToOrder(matchers[i], matchers[j])
  }

  ghost predicate RepeatsEarlier(matchers: seq<Matcher>, j: nat) {
    j < |matchers| && exists i :: 0 <= i < j && SameUpToOrder(matchers[i], matchers[j])
  }

  // The identities of the matchers before one.
  function Seen(json: JsonText, matchers: seq<Matcher>, upTo: nat): set<Identity>
    requires upTo <= |matchers|
  {
    set k | 0 <= k < upTo :: MatcherIdentity(json, matchers[k])
  }

  // The matchers that repeat an earlier one.
  ghost function Repeats(matchers: seq<Matcher>, upTo: nat): seq<nat>
    requires upTo <= |matchers|
  {
    if upTo == 0 then []
    else if RepeatsEarlier(matchers, upTo - 1) then Repeats(matchers, upTo - 1) + [upTo - 1]
    else Repeats(matchers, upTo - 1)
  }

  lemma {:induction false} NoneRepeats(matchers: seq<Matcher>, upTo: nat)
    requires upTo <= |matchers|
    ensures Repeats(matchers, upTo) == [] <==> SemanticallyUnique(matchers, upTo)
  {
    if upTo > 0 {
      NoneRepeats(matchers, upTo - 1);
    }
  }

  lemma SeenBefore(json: JsonText, matchers: seq<Matcher>, i: nat)
    requires Injective(json) && i < |matchers|
    ensures Repeats(matchers, i + 1)
         == Repeats(matchers, i) + if MatcherIdentity(json, matchers[i]) in Seen(json, matchers, i) then [i] else []
    ensures Seen(json, matchers, i + 1) == Seen(json, matchers, i) + {MatcherIdentity(json, matchers[i])}
  {
    forall k | 0 <= k < i
      ensures MatcherIdentity(json, matchers[k]) == MatcherIdentity(json, matchers[i]) <==> SameUpToOrder(matchers[k], matchers[i])
    {
      IdentityIgnoresOrder(json, matchers[k], matchers[i]);
    }
    assert MatcherIdentity(json, matchers[i]) in Seen(json, matchers, i) <==> RepeatsEarlier(matchers, i);
  }

  /** Reports every matcher whose identity was seen before: exactly those that repeat an earlier one up to order. */
  method RepeatedMatchers(json: JsonText, matchers: seq<Matcher>) returns (issues: seq<nat>)
    requires Injective(json)
    ensures issues == Repeats(matchers, |matchers|)
    ensures issues == [] <==> SemanticallyUnique(matchers, |matchers|)
  {
    var seen: set<Identity> := {};
    issues := [];
    for i := 0 to |matchers|
      invariant seen == Seen(json, matchers, i)
      invariant issues == Repeats(matchers, i)
    {
      SeenBefore(json, matchers, i);
      var identity := MatcherIdentity(json, matchers[i]);
      if identity in seen {
        issues := issues + [i];
      }
      seen := seen + {identity};
    }
    NoneRepeats(matchers, |matchers|);
  }
}
