/**
 * Sequence continuity of a control session: which envelopes a receiver accepts, drops or
 * closes the session over, and how sorting repairs a shuffled, repeated delivery.
 */
module ControlSequence {
  datatype DeliveryPolicy =
    | LatestWins | Droppable | AckedIdempotent | CriticalIdempotent | AppendOnlyObservation | SingleUseCritical | ForbiddenBulk

  datatype Envelope<+T> = Envelope(sequence: nat, policy: DeliveryPolicy, payload: T)

  datatype Mode = Contiguous | Lossy

  datatype Action = Accept | Drop | Stale

  datatype Decision = Decision(action: Action, nextLastSeen: nat)

  predicate Advisory<T>(e: Envelope<T>) { e.policy.Droppable? || e.policy.LatestWins? }

  // Advisory envelopes keep the count only in contiguous mode.
  predicate Counted<T>(mode: Mode, e: Envelope<T>) {
    mode.Contiguous? || (e.policy != Droppable && e.policy != LatestWins)
  }

  function Evaluate<T>(mode: Mode, e: Envelope<T>, lastSeen: nat): Decision {
    if e.sequence <= lastSeen then Decision(Drop, lastSeen)
    else if mode.Lossy? && Advisory(e) then Decision(Accept, lastSeen)
    else if e.sequence == lastSeen + 1 then Decision(Accept, e.sequence)
    else Decision(Stale, lastSeen)
  }

  // ---------- Runs ----------

  // What a receiver makes of a delivery; a stale envelope closes the session and ends it.
  datatype Outcome<+T> = Outcome(accepted: seq<Envelope<T>>, dropped: seq<Envelope<T>>, lastSeen: nat, closed: bool)

  function Receive<T>(mode: Mode, lastSeen: nat, delivery: seq<Envelope<T>>): Outcome<T>
    decreases |delivery|
  {
    if delivery == [] then Outcome([], [], lastSeen, false)
    else
      var d := Evaluate(mode, delivery[0], lastSeen);
      if d.action.Stale? then Outcome([], [], d.nextLastSeen, true)
      else
        var rest := Receive(mode, d.nextLastSeen, delivery[1..]);
        if d.action.Accept? then rest.(accepted := [delivery[0]] + rest.accepted)
        else rest.(dropped := [delivery[0]] + rest.dropped)
  }

  function CountedOnly<T>(mode: Mode, es: seq<Envelope<T>>): seq<Envelope<T>> {
    if es == [] then []
    else if Counted(mode, es[0]) then [es[0]] + CountedOnly(mode, es[1..])
    else CountedOnly(mode, es[1..])
  }

  /**
   * Over any delivery, the accepted envelopes that count carry the numbers after the last
   * one seen, each once and in order, and the last number seen is the last of them.
   */
  lemma {:induction false} AcceptedAreConsecutive<T>(mode: Mode, lastSeen: nat, delivery: seq<Envelope<T>>)
    ensures var r := Receive(mode, lastSeen, delivery);
            var counted := CountedOnly(mode, r.accepted);
            && r.lastSeen == lastSeen + |counted|
            && forall i :: 0 <= i < |counted| ==> counted[i].sequence == lastSeen + 1 + i
    decreases |delivery|
  {
    if delivery != [] {
      var d := Evaluate(mode, delivery[0], lastSeen);
      if !d.action.Stale? {
        AcceptedAreConsecutive(mode, d.nextLastSeen, delivery[1..]);
        var rest := Receive(mode, d.nextLastSeen, delivery[1..]);
        if d.action.Accept? {
          assert ([delivery[0]] + rest.accepted)[1..] == rest.accepted;
        }
      }
    }
  }

  lemma ConsFirst<X>(x: X, a: seq<X>, b: seq<X>)
    ensures [x] + (a + b) == [x] + a + b
  {
  }

  /** Reading a delivery in two parts is reading it whole, and the last number seen never goes back in between. */
  lemma {:induction false} ReceiveInParts<T>(mode: Mode, lastSeen: nat, first: seq<Envelope<T>>, second: seq<Envelope<T>>)
    requires !Receive(mode, lastSeen, first).closed
    ensures var (a, whole) := (Receive(mode, lastSeen, first), Receive(mode, lastSeen, first + second));
            var b := Receive(mode, a.lastSeen, second);
            && whole == Outcome(a.accepted + b.accepted, a.dropped + b.dropped, b.lastSeen, b.closed)
            && lastSeen <= a.lastSeen <= b.lastSeen
    decreases |first|
  {
    AcceptedAreConsecutive(mode, lastSeen, first);
    AcceptedAreConsecutive(mode, Receive(mode, lastSeen, first).lastSeen, second);
    if first == [] {
      assert first + second == second;
      var b := Receive(mode, lastSeen, second);
      assert [] + b.accepted == b.accepted && [] + b.dropped == b.dropped;
    } else {
      var d := Evaluate(mode, first[0], lastSeen);
      assert (first + second)[0] == first[0] && (first + second)[1..] == first[1..] + second;
      ReceiveInParts(mode, d.nextLastSeen, first[1..], second);
      var a := Receive(mode, d.nextLastSeen, first[1..]);
      ConsFirst(first[0], a.accepted, Receive(mode, a.lastSeen, second).accepted);
      ConsFirst(first[0], a.dropped, Receive(mode, a.lastSeen, second).dropped);
    }
  }

  // ---------- What closes a session ----------

  // The number up to which the envelopes that count have arrived, each in its turn.
  function Seen<T>(mode: Mode, lastSeen: nat, es: seq<Envelope<T>>): nat {
    if es == [] then lastSeen
    else
      var before, e := Seen(mode, lastSeen, es[..|es| - 1]), es[|es| - 1];
      if Counted(mode, e) && e.sequence == before + 1 then before + 1 else before
  }

  // Those that arrive with a number that was seen by then, and the others.
  function Late<T>(mode: Mode, lastSeen: nat, es: seq<Envelope<T>>): seq<Envelope<T>> {
    if es == [] then []
    else
      var before, e := es[..|es| - 1], es[|es| - 1];
      Late(mode, lastSeen, before) + if e.sequence <= Seen(mode, lastSeen, before) then [e] else []
  }

  function Fresh<T>(mode: Mode, lastSeen: nat, es: seq<Envelope<T>>): seq<Envelope<T>> {
    if es == [] then []
    else
      var before, e := es[..|es| - 1], es[|es| - 1];
      Fresh(mode, lastSeen, before) + if e.sequence <= Seen(mode, lastSeen, before) then [] else [e]
  }

  // An envelope that counts arrives although numbers before it have not.
  predicate Gap<T>(mode: Mode, lastSeen: nat, es: seq<Envelope<T>>, i: int) {
    0 <= i < |es| && Counted(mode, es[i]) && es[i].sequence > 1 + Seen(mode, lastSeen, es[..i])
  }

  ghost predicate NoGap<T>(mode: Mode, lastSeen: nat, es: seq<Envelope<T>>, upTo: nat) {
    forall i :: 0 <= i < upTo ==> !Gap(mode, lastSeen, es, i)
  }

  // A gap is one in every longer delivery.
  lemma GapInPrefix<T>(mode: Mode, lastSeen: nat, es: seq<Envelope<T>>, n: nat)
    requires n <= |es|
    ensures forall i :: 0 <= i < n ==> (Gap(mode, lastSeen, es[..n], i) <==> Gap(mode, lastSeen, es, i))
  {
    forall i | 0 <= i < n ensures Gap(mode, lastSeen, es[..n], i) <==> Gap(mode, lastSeen, es, i) {
      assert es[..n][..i] == es[..i];
    }
  }

  // Without a gap everything is read: what was seen by its arrival is dropped, everything else accepted.
  lemma {:induction false} ReadWhole<T>(mode: Mode, lastSeen: nat, es: seq<Envelope<T>>)
    requires NoGap(mode, lastSeen, es, |es|)
    ensures Receive(mode, lastSeen, es)
         == Outcome(Fresh(mode, lastSeen, es), Late(mode, lastSeen, es), Seen(mode, lastSeen, es), false)
  {
    if es != [] {
      var before, last := es[..|es| - 1], [es[|es| - 1]];
      assert es == before + last;
      GapInPrefix(mode, lastSeen, es, |before|);
      assert !Gap(mode, lastSeen, es, |before|);
      ReadWhole(mode, lastSeen, before);
      ReceiveInParts(mode, lastSeen, before, last);
      assert last[1..] == [];
    }
  }

  lemma {:induction false} ClosedStays<T>(mode: Mode, lastSeen: nat, first: seq<Envelope<T>>, second: seq<Envelope<T>>)
    requires Receive(mode, lastSeen, first).closed
    ensures Receive(mode, lastSeen, first + second) == Receive(mode, lastSeen, first)
    decreases |first|
  {
    var d := Evaluate(mode, first[0], lastSeen);
    assert (first + second)[0] == first[0] && (first + second)[1..] == first[1..] + second;
    if !d.action.Stale? {
      ClosedStays(mode, d.nextLastSeen, first[1..], second);
    }
  }

  lemma ClosesAtGap<T>(mode: Mode, lastSeen: nat, es: seq<Envelope<T>>, i: nat)
    requires Gap(mode, lastSeen, es, i) && NoGap(mode, lastSeen, es, i)
    ensures Receive(mode, lastSeen, es)
         == Outcome(Fresh(mode, lastSeen, es[..i]), Late(mode, lastSeen, es[..i]), Seen(mode, lastSeen, es[..i]), true)
  {
    var before, at, rest := es[..i], [es[i]], es[i + 1..];
    GapInPrefix(mode, lastSeen, es, i);
    ReadWhole(mode, lastSeen, before);
    ReceiveInParts(mode, lastSeen, before, at);
    ClosedStays(mode, lastSeen, before + at, rest);
    assert es == before + at + rest;
  }

  lemma FirstGap<T>(mode: Mode, lastSeen: nat, es: seq<Envelope<T>>, k: nat) returns (i: nat)
    requires Gap(mode, lastSeen, es, k)
    ensures Gap(mode, lastSeen, es, i) && NoGap(mode, lastSeen, es, i)
  {
    i := 0;
    while !Gap(mode, lastSeen, es, i)
      invariant i <= k && NoGap(mode, lastSeen, es, i)
      decreases k - i
    {
      i := i + 1;
    }
  }

  /**
   * A delivery closes the session exactly if an envelope that counts leaves a gap behind
   * the last number seen, and then it is read exactly up to the first such envelope. Of
   * what is read, what was seen by its arrival is dropped and everything else accepted.
   */
  lemma ClosedIffGap<T>(mode: Mode, lastSeen: nat, delivery: seq<Envelope<T>>)
    ensures Receive(mode, lastSeen, delivery).closed <==> exists i :: Gap(mode, lastSeen, delivery, i)
    ensures forall i :: Gap(mode, lastSeen, delivery, i) && NoGap(mode, lastSeen, delivery, i) ==>
              Receive(mode, lastSeen, delivery)
              == Outcome(Fresh(mode, lastSeen, delivery[..i]), Late(mode, lastSeen, delivery[..i]), Seen(mode, lastSeen, delivery[..i]), true)
    ensures !Receive(mode, lastSeen, delivery).closed ==>
              Receive(mode, lastSeen, delivery)
              == Outcome(Fresh(mode, lastSeen, delivery), Late(mode, lastSeen, delivery), Seen(mode, lastSeen, delivery), false)
  {
    if k :| Gap(mode, lastSeen, delivery, k) {
      var i := FirstGap(mode, lastSeen, delivery, k);
      ClosesAtGap(mode, lastSeen, delivery, i);
    } else {
      ReadWhole(mode, lastSeen, delivery);
    }
    forall i | Gap(mode, lastSeen, delivery, i) && NoGap(mode, lastSeen, delivery, i)
      ensures Receive(mode, lastSeen, delivery)
           == Outcome(Fresh(mode, lastSeen, delivery[..i]), Late(mode, lastSeen, delivery[..i]), Seen(mode, lastSeen, delivery[..i]), true)
    {
      ClosesAtGap(mode, lastSeen, delivery, i);
    }
  }

  /** The last number seen counts the accepted envelopes that count, and every advisory envelope above it is accepted in lossy mode. */
  lemma SeenCountsAccepted<T>(mode: Mode, lastSeen: nat, es: seq<Envelope<T>>, e: Envelope<T>)
    requires NoGap(mode, lastSeen, es, |es|)
    ensures Seen(mode, lastSeen, es) == lastSeen + |CountedOnly(mode, Receive(mode, lastSeen, es).accepted)|
    ensures mode.Lossy? && (e.policy.Droppable? || e.policy.LatestWins?) && e.sequence > Seen(mode, lastSeen, es) ==>
              Receive(mode, lastSeen, es + [e]) == Receive(mode, lastSeen, es).(accepted := Receive(mode, lastSeen, es).accepted + [e])
  {
    ReadWhole(mode, lastSeen, es);
    AcceptedAreConsecutive(mode, lastSeen, es);
    ReceiveInParts(mode, lastSeen, es, [e]);
    assert [e][1..] == [];
  }

  // ---------- Ordering ----------

  function WithSequence<T>(es: seq<Envelope<T>>, n: nat): seq<Envelope<T>> {
    if es == [] then []
    else if es[0].sequence == n then [es[0]] + WithSequence(es[1..], n)
    else WithSequence(es[1..], n)
  }

  ghost predicate Ascending<T>(es: seq<Envelope<T>>) {
    forall i, j :: 0 <= i < j < |es| ==> es[i].sequence <= es[j].sequence
  }

  // Sorted, and envelopes with the same number keep their order: for every number the same ones, in the same order.
  ghost predicate StablySorted<T>(es: seq<Envelope<T>>, sorted: seq<Envelope<T>>) {
    Ascending(sorted) && |sorted| == |es| && forall n :: WithSequence(sorted, n) == WithSequence(es, n)
  }

  // Puts an envelope before those with the same or a greater number.
  function InsertFirst<T>(e: Envelope<T>, es: seq<Envelope<T>>): (r: seq<Envelope<T>>)
    ensures |r| == |es| + 1
  {
    if es == [] || e.sequence <= es[0].sequence then [e] + es else [es[0]] + InsertFirst(e, es[1..])
  }

  // The library's stable sort by sequence number.
  function OrderBySequence<T>(es: seq<Envelope<T>>): (r: seq<Envelope<T>>)
    ensures |r| == |es|
  {
    if es == [] then [] else InsertFirst(es[0], OrderBySequence(es[1..]))
  }

  lemma {:induction false} InsertKeepsOrder<T>(e: Envelope<T>, es: seq<Envelope<T>>)
    requires Ascending(es)
    ensures Ascending(InsertFirst(e, es))
    ensures forall i :: 0 <= i < |InsertFirst(e, es)| ==> InsertFirst(e, es)[i] == e || InsertFirst(e, es)[i] in es
  {
    if es != [] && e.sequence > es[0].sequence {
      var rest := InsertFirst(e, es[1..]);
      InsertKeepsOrder(e, es[1..]);
      forall i | 0 <= i < |rest| ensures es[0].sequence <= rest[i].sequence {
        assert rest[i] == e || rest[i] in es[1..];
      }
    }
  }

  lemma {:induction false} InsertWithSequence<T>(e: Envelope<T>, es: seq<Envelope<T>>, n: nat)
    requires Ascending(es)
    ensures WithSequence(InsertFirst(e, es), n) == WithSequence([e] + es, n)
  {
    if es != [] && e.sequence > es[0].sequence {
      var rest := InsertFirst(e, es[1..]);
      InsertWithSequence(e, es[1..], n);
      assert ([es[0]] + rest)[1..] == rest;
      assert ([e] + es[1..])[1..] == es[1..];
      assert ([e] + es)[1..] == es;
    }
  }

  lemma {:induction false} OrderIsStableSort<T>(es: seq<Envelope<T>>)
    ensures StablySorted(es, OrderBySequence(es))
  {
    if es != [] {
      var rest := OrderBySequence(es[1..]);
      OrderIsStableSort(es[1..]);
      InsertKeepsOrder(es[0], rest);
      forall n ensures WithSequence(OrderBySequence(es), n) == WithSequence(es, n) {
        InsertWithSequence(es[0], rest, n);
        assert ([es[0]] + rest)[1..] == rest;
      }
    }
  }

  // ---------- A shuffled, repeated delivery ----------

  // Every number after `from` up to `to` occurs, and no number beyond `to`.
  ghost predicate Covers<T>(es: seq<Envelope<T>>, from: nat, to: nat) {
    && (forall i :: 0 <= i < |es| ==> es[i].sequence <= to)
    && (forall n :: from < n <= to ==> WithSequence(es, n) != [])
  }

  // The first arrival of each number.
  ghost function FirstArrivals<T>(es: seq<Envelope<T>>, from: nat, to: nat): (firsts: seq<Envelope<T>>)
    requires Covers(es, from, to) && from <= to
    ensures |firsts| == to - from
    ensures forall i :: 0 <= i < |firsts| ==> firsts[i] == WithSequence(es, from + 1 + i)[0]
  {
    seq(to - from, i requires 0 <= i < to - from => WithSequence(es, from + 1 + i)[0])
  }

  lemma {:induction false} OccursIn<T>(es: seq<Envelope<T>>, n: nat)
    requires WithSequence(es, n) != []
    ensures exists i :: 0 <= i < |es| && es[i].sequence == n
  {
    if es[0].sequence != n {
      OccursIn(es[1..], n);
      var i :| 0 <= i < |es[1..]| && es[1..][i].sequence == n;
      assert es[i + 1].sequence == n;
    }
  }

  lemma {:induction false} ReceiveSorted<T>(sorted: seq<Envelope<T>>, from: nat, to: nat)
    requires Ascending(sorted) && Covers(sorted, from, to) && from <= to
    ensures var r := Receive(Contiguous, from, sorted);
            r.accepted == FirstArrivals(sorted, from, to) && |r.dropped| == |sorted| - (to - from) && r.lastSeen == to && !r.closed
  {
    if sorted == [] {
      assert from == to by {
        assert from < from + 1 <= to ==> WithSequence(sorted, from + 1) != [];
      }
    } else {
      var head, rest := sorted[0], sorted[1..];
      if head.sequence <= from {
        forall n | from < n <= to ensures WithSequence(rest, n) == WithSequence(sorted, n) && WithSequence(rest, n) != [] {
        }
        ReceiveSorted(rest, from, to);
        assert FirstArrivals(rest, from, to) == FirstArrivals(sorted, from, to);
      } else {
        OccursIn(sorted, from + 1);
        var i :| 0 <= i < |sorted| && sorted[i].sequence == from + 1;
        assert head.sequence == from + 1;
        forall n | from + 1 < n <= to ensures WithSequence(rest, n) == WithSequence(sorted, n) && WithSequence(rest, n) != [] {
          assert WithSequence(sorted, n) != [];
        }
        ReceiveSorted(rest, from + 1, to);
        assert FirstArrivals(sorted, from, to) == [head] + FirstArrivals(rest, from + 1, to);
      }
    }
  }

  /**
   * However a delivery of the numbers after `from` up to `to` is shuffled and repeated,
   * ordering it first makes a contiguous receiver accept each number once (its first
   * arrival), drop the repetitions, never go stale and end at `to`.
   */
  lemma OrderingRepairs<T>(delivery: seq<Envelope<T>>, from: nat, to: nat)
    requires Covers(delivery, from, to) && from <= to
    ensures var r := Receive(Contiguous, from, OrderBySequence(delivery));
            && r.accepted == FirstArrivals(delivery, from, to)
            && |r.dropped| == |delivery| - (to - from) && r.lastSeen == to && !r.closed
  {
    var sorted := OrderBySequence(delivery);
    OrderIsStableSort(delivery);
    forall n | from < n <= to ensures WithSequence(sorted, n) != [] {
      assert WithSequence(sorted, n) == WithSequence(delivery, n);
    }
    forall i | 0 <= i < |sorted| ensures sorted[i].sequence <= to {
      SortedMembers(delivery, i);
    }
    ReceiveSorted(sorted, from, to);
    assert FirstArrivals(sorted, from, to) == FirstArrivals(delivery, from, to);
  }

  lemma {:induction false} SortedMembers<T>(es: seq<Envelope<T>>, i: nat)
    requires i < |es|
    ensures OrderBySequence(es)[i] in es
  {
    var rest := OrderBySequence(es[1..]);
    OrderIsStableSort(es[1..]);
    InsertKeepsOrder(es[0], rest);
    var x := OrderBySequence(es)[i];
    if x != es[0] {
      var j :| 0 <= j < |rest| && rest[j] == x;
      SortedMembers(es[1..], j);
    }
  }
}
