/**
 * Whether two tool selectors can allow the same operation. The check errs on the safe
 * side only: it never misses a common operation, and it is known when it sees one too many.
 */
module ToolSelectors {
  import opened Options

  // An absent list stands for '*'.
  datatype Selector = Selector(allow: Option<seq<string>>, deny: seq<string>)

  predicate AllowsOperation(s: Selector, name: string) {
    name !in s.deny && (s.allow.None? || name in s.allow.value)
  }

  predicate SomeNotIn(names: seq<string>, others: seq<string>) { exists i :: 0 <= i < |names| && names[i] !in others }

  predicate Overlap(l: Selector, r: Selector) {
    if l.allow.None? && r.allow.None? then true
    else if l.allow.None? then SomeNotIn(r.allow.value, l.deny)
    else if r.allow.None? then SomeNotIn(l.allow.value, r.deny)
    else exists i :: 0 <= i < |l.allow.value| && l.allow.value[i] in r.allow.value
                     && l.allow.value[i] !in l.deny && l.allow.value[i] !in r.deny
  }

  ghost predicate Common(l: Selector, r: Selector) {
    exists name: string :: AllowsOperation(l, name) && AllowsOperation(r, name)
  }

  /** Selectors that are found not to overlap allow no operation in common. */
  lemma OverlapIsSound(l: Selector, r: Selector)
    requires Common(l, r)
    ensures Overlap(l, r)
  {
    var name: string :| AllowsOperation(l, name) && AllowsOperation(r, name);
    if l.allow.Some? {
      var i :| 0 <= i < |l.allow.value| && l.allow.value[i] == name;
    } else if r.allow.Some? {
      var i :| 0 <= i < |r.allow.value| && r.allow.value[i] == name;
    }
  }

  // The listed side allows, as far as the other one lets it, only what it denies itself.
  ghost predicate DeniesWhatItLists(listed: Selector, any: Selector)
    requires listed.allow.Some?
  {
    && SomeNotIn(listed.allow.value, any.deny)
    && forall i :: 0 <= i < |listed.allow.value| && listed.allow.value[i] !in any.deny ==> listed.allow.value[i] in listed.deny
  }

  // A name longer than every name of a list is not in it.
  function Longer(names: seq<string>): (name: string)
    ensures forall i :: 0 <= i < |names| ==> |names[i]| < |name|
  {
    if names == [] then "x"
    else
      var rest := Longer(names[1..]);
      assert forall i :: 1 <= i < |names| ==> names[i] == names[1..][i - 1];
      rest + names[0]
  }

  /**
   * The check sees an overlap where there is none exactly if one side is '*' and the other
   * denies all that it lists and the first does not deny.
   */
  lemma OverlapIsExactUnless(l: Selector, r: Selector)
    ensures Overlap(l, r) && !Common(l, r) <==>
              || (l.allow.None? && r.allow.Some? && DeniesWhatItLists(r, l))
              || (r.allow.None? && l.allow.Some? && DeniesWhatItLists(l, r))
  {
    if l.allow.None? && r.allow.None? {
      var name := Longer(l.deny + r.deny);
      forall i | 0 <= i < |l.deny| ensures l.deny[i] != name {
        assert (l.deny + r.deny)[i] == l.deny[i];
      }
      forall i | 0 <= i < |r.deny| ensures r.deny[i] != name {
        assert (l.deny + r.deny)[|l.deny| + i] == r.deny[i];
      }
      assert AllowsOperation(l, name) && AllowsOperation(r, name);
    } else if l.allow.None? {
      StarAgainstList(l, r);
    } else if r.allow.None? {
      StarAgainstList(r, l);
    } else if Overlap(l, r) {
      var i :| 0 <= i < |l.allow.value| && l.allow.value[i] in r.allow.value && l.allow.value[i] !in l.deny && l.allow.value[i] !in r.deny;
      assert AllowsOperation(l, l.allow.value[i]) && AllowsOperation(r, l.allow.value[i]);
    }
  }

  /** One side lists a name that it denies itself, the other is '*': an overlap is seen, and there is none. */
  lemma OverlapSeenInVain()
    ensures Overlap(Selector(None, []), Selector(Some(["a"]), ["a"]))
    ensures !Common(Selector(None, []), Selector(Some(["a"]), ["a"]))
  {
    var any, listed := Selector(None, []), Selector(Some(["a"]), ["a"]);
    assert listed.allow.value[0] !in any.deny;
    OverlapIsExactUnless(any, listed);
  }

  lemma StarAgainstList(any: Selector, listed: Selector)
    requires any.allow.None? && listed.allow.Some?
    ensures Common(any, listed) <==> SomeNotIn(listed.allow.value, any.deny) && !DeniesWhatItLists(listed, any)
  {
    if Common(any, listed) {
      var name: string :| AllowsOperation(any, name) && AllowsOperation(listed, name);
      var i :| 0 <= i < |listed.allow.value| && listed.allow.value[i] == name;
    }
    if SomeNotIn(listed.allow.value, any.deny) && !DeniesWhatItLists(listed, any) {
      var i :| 0 <= i < |listed.allow.value| && listed.allow.value[i] !in any.deny && listed.allow.value[i] !in listed.deny;
      assert AllowsOperation(any, listed.allow.value[i]) && AllowsOperation(listed, listed.allow.value[i]);
    }
  }
}
