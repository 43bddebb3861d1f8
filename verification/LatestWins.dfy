/**
 * Coalescing by key, latest value wins. The loop keeps a Map; what it returns is described
 * without one: every key once, in order of first arrival, with its latest message. A
 * scheduler that queues liveness messages and is then drained delivers the same list.
 */
module LatestWins {
  import opened Options
  import opened Admission
  import opened SchedulerModel
  import RoundRobin

  // ---------- The loop ----------

  function KeyAt<T, K(==)>(values: seq<T>, key: T -> K, k: K, from: nat := 0): (i: nat)
    requires from <= |values|
    ensures from <= i <= |values|
    ensures i < |values| ==> key(values[i]) == k
    ensures forall j :: from <= j < i ==> key(values[j]) != k
    decreases |values| - from
  {
    if from == |values| || key(values[from]) == k then from else KeyAt(values, key, k, from + 1)
  }

  // Map.set on a Map kept as its values in insertion order.
  function Put<T, K(==)>(values: seq<T>, key: T -> K, m: T): seq<T> {
    var i := KeyAt(values, key, key(m));
    if i < |values| then values[i := m] else values + [m]
  }

  function Coalesce<T, K(==)>(messages: seq<T>, key: T -> K): seq<T> {
    if messages == [] then []
    else Put(Coalesce(messages[..|messages| - 1], key), key, messages[|messages| - 1])
  }

  method CoalesceLatestWins<T, K(==)>(messages: seq<T>, key: T -> K) returns (latest: seq<T>)
    ensures latest == Coalesce(messages, key)
    ensures Coalesced(messages, key, latest)
  {
    latest := [];
    for i := 0 to |messages|
      invariant latest == Coalesce(messages[..i], key)
    {
      latest := Put(latest, key, messages[i]);
      assert messages[..i + 1][..i] == messages[..i];
    }
    assert messages[..|messages|] == messages;
    CoalesceIsCoalesced(messages, key);
  }

  // ---------- What it returns ----------

  // Every key once, in order of first arrival, with its latest message.
  ghost predicate Coalesced<T, K>(messages: seq<T>, key: T -> K, r: seq<T>) {
    && (forall i, j :: 0 <= i < j < |r| ==> key(r[i]) != key(r[j]))
    && (forall i :: 0 <= i < |r| ==> IsLatest(messages, key, r[i]))
    && (forall n :: 0 <= n < |messages| ==> Represented(key, r, messages[n]))
    && (forall i, j :: 0 <= i < j < |r| ==> KeyAt(messages, key, key(r[i])) < KeyAt(messages, key, key(r[j])))
  }

  // `m` occurs, and no message after that has its key.
  ghost predicate IsLatest<T, K>(messages: seq<T>, key: T -> K, m: T) {
    exists n :: 0 <= n < |messages| && messages[n] == m && NoneAfter(messages, key, n)
  }

  ghost predicate NoneAfter<T, K>(messages: seq<T>, key: T -> K, n: nat)
    requires n < |messages|
  {
    forall l :: n < l < |messages| ==> key(messages[l]) != key(messages[n])
  }

  ghost predicate Represented<T, K>(key: T -> K, r: seq<T>, m: T) {
    exists i :: 0 <= i < |r| && key(r[i]) == key(m)
  }

  lemma KeyAtIs<T, K>(values: seq<T>, key: T -> K, k: K, i: nat)
    requires i <= |values| && (i < |values| ==> key(values[i]) == k) && forall j :: 0 <= j < i ==> key(values[j]) != k
    ensures KeyAt(values, key, k) == i
  {
  }

  // One more message does not move the first arrival of a key that occurred.
  lemma FirstStays<T, K>(messages: seq<T>, key: T -> K, m: T, k: K)
    ensures KeyAt(messages + [m], key, k)
         == if KeyAt(messages, key, k) < |messages| || key(m) == k then KeyAt(messages, key, k) else |messages| + 1
  {
    var i, all := KeyAt(messages, key, k), messages + [m];
    KeyAtIs(all, key, k, if i < |messages| || key(m) == k then i else |messages| + 1);
  }

  lemma PutLatest<T, K>(messages: seq<T>, key: T -> K, r: seq<T>, m: T)
    requires Coalesced(messages, key, r)
    ensures forall i :: 0 <= i < |Put(r, key, m)| ==> IsLatest(messages + [m], key, Put(r, key, m)[i])
  {
    var after, all := Put(r, key, m), messages + [m];
    forall i | 0 <= i < |after| ensures IsLatest(all, key, after[i]) {
      if i == KeyAt(r, key, key(m)) {
        assert all[|messages|] == m && NoneAfter(all, key, |messages|);
      } else {
        assert after[i] == r[i] && IsLatest(messages, key, r[i]);
        var n :| 0 <= n < |messages| && messages[n] == r[i] && NoneAfter(messages, key, n);
        assert key(r[i]) != key(m);
        assert all[n] == r[i] && NoneAfter(all, key, n);
      }
    }
  }

  lemma PutKeepsKeys<T, K>(r: seq<T>, key: T -> K, m: T, x: T)
    requires Represented(key, r, x) || x == m
    ensures Represented(key, Put(r, key, m), x)
  {
    var after, k := Put(r, key, m), KeyAt(r, key, key(m));
    if x == m {
      assert after[k] == m;
    } else {
      var i :| 0 <= i < |r| && key(r[i]) == key(x);
      assert key(after[i]) == key(x);
    }
  }

  lemma PutRepresents<T, K>(messages: seq<T>, key: T -> K, r: seq<T>, m: T)
    requires Coalesced(messages, key, r)
    ensures forall n :: 0 <= n < |messages + [m]| ==> Represented(key, Put(r, key, m), (messages + [m])[n])
  {
    var all := messages + [m];
    forall n | 0 <= n < |all| ensures Represented(key, Put(r, key, m), all[n]) {
      if n < |messages| {
        assert Represented(key, r, messages[n]);
      }
      PutKeepsKeys(r, key, m, all[n]);
    }
  }

  lemma {:induction false} PutOrdered<T, K>(messages: seq<T>, key: T -> K, r: seq<T>, m: T)
    requires Coalesced(messages, key, r)
    ensures forall i, j :: 0 <= i < j < |Put(r, key, m)| ==>
              && key(Put(r, key, m)[i]) != key(Put(r, key, m)[j])
              && KeyAt(messages + [m], key, key(Put(r, key, m)[i])) < KeyAt(messages + [m], key, key(Put(r, key, m)[j]))
  {
    var after := Put(r, key, m);
    forall i, j | 0 <= i < j < |after|
      ensures key(after[i]) != key(after[j])
      ensures KeyAt(messages + [m], key, key(after[i])) < KeyAt(messages + [m], key, key(after[j]))
    {
      FirstStays(messages, key, m, key(after[i]));
      FirstStays(messages, key, m, key(after[j]));
      assert IsLatest(messages, key, r[i]);
      if j < |r| {
        assert key(after[i]) == key(r[i]) && key(after[j]) == key(r[j]);
        assert IsLatest(messages, key, r[j]);
      }
    }
  }

  lemma {:induction false} CoalesceIsCoalesced<T, K>(messages: seq<T>, key: T -> K)
    ensures Coalesced(messages, key, Coalesce(messages, key))
  {
    if messages != [] {
      var before, m := messages[..|messages| - 1], messages[|messages| - 1];
      assert messages == before + [m];
      CoalesceIsCoalesced(before, key);
      PutLatest(before, key, Coalesce(before, key), m);
      PutRepresents(before, key, Coalesce(before, key), m);
      PutOrdered(before, key, Coalesce(before, key), m);
    }
  }

  /** Messages with different keys coalesce to themselves. */
  lemma {:induction false} DistinctStay<T, K>(messages: seq<T>, key: T -> K)
    requires forall i, j :: 0 <= i < j < |messages| ==> key(messages[i]) != key(messages[j])
    ensures Coalesce(messages, key) == messages
  {
    if messages != [] {
      var before, m := messages[..|messages| - 1], messages[|messages| - 1];
      DistinctStay(before, key);
      KeyAtIs(before, key, key(m), |before|);
      assert messages == before + [m];
    }
  }

  /** Coalescing twice changes nothing. */
  lemma CoalesceIsIdempotent<T, K>(messages: seq<T>, key: T -> K)
    ensures Coalesce(Coalesce(messages, key), key) == Coalesce(messages, key)
  {
    CoalesceIsCoalesced(messages, key);
    DistinctStay(Coalesce(messages, key), key);
  }

  // ---------- The scheduler coalesces the same way ----------

  function ByCoalesceKey<T>(m: Message<T>): Option<string> { m.coalesceKey }

  lemma PutIsPutByKey<T>(ms: seq<Message<T>>, m: Message<T>)
    ensures PutByKey(ms, m) == Put(ms, ByCoalesceKey<T>, m)
  {
    KeyAtIs(ms, ByCoalesceKey<T>, ByCoalesceKey(m), KeyIndex(ms, m.coalesceKey));
  }

  function EnqueueAll<T>(s: State<T>, ms: seq<Message<T>>): State<T> {
    if ms == [] then s else Enqueue(EnqueueAll(s, ms[..|ms| - 1]), ms[|ms| - 1])
  }

  // Every message of the batch is accepted when its turn comes.
  ghost predicate AllAccepted<T>(s: State<T>, ms: seq<Message<T>>) {
    ms != [] ==> AllAccepted(s, ms[..|ms| - 1]) && Decide(EnqueueAll(s, ms[..|ms| - 1]), ms[|ms| - 1]).Accepts()
  }

  // What a part of the batch coalesces to never exceeds the liveness limits.
  ghost predicate Fits<T>(ms: seq<Message<T>>) {
    ms != [] ==> Fits(ms[..|ms| - 1]) && AccountOf(Coalesce(ms, ByCoalesceKey<T>)).Within(LIVENESS_LIMITS)
  }

  // Nothing but these liveness messages is held.
  ghost predicate HoldsOnly<T>(s: State<T>, ms: seq<Message<T>>) {
    s.safety == [] && s.authority == [] && s.diagnostic == [] && s.inFlight == [] && s.liveness == ms
  }

  lemma AcceptsIfFits<T>(s: State<T>, ms: seq<Message<T>>, m: Message<T>)
    requires HoldsOnly(s, ms) && ValidIn(Liveness, m)
    ensures Decide(s, m).Accepts() <==> AccountOf(PutByKey(ms, m)).Within(LIVENESS_LIMITS)
    ensures Decide(s, m).Accepts() ==> HoldsOnly(Enqueue(s, m), PutByKey(ms, m))
  {
    PutHeld(ms, m);
    assert Held(s, Liveness) == AccountOf(ms);
  }

  /** A batch of valid liveness messages is accepted as a whole exactly if it fits, and is then queued coalesced. */
  lemma {:induction false} BatchQueues<T>(s: State<T>, ms: seq<Message<T>>)
    requires IsEmpty(s) && AllValidIn(Liveness, ms)
    ensures AllAccepted(s, ms) <==> Fits(ms)
    ensures Fits(ms) ==> HoldsOnly(EnqueueAll(s, ms), Coalesce(ms, ByCoalesceKey<T>))
    decreases |ms|
  {
    if ms != [] {
      var before, m := ms[..|ms| - 1], ms[|ms| - 1];
      BatchQueues(s, before);
      if Fits(before) {
        assert ValidIn(Liveness, m);
        AcceptsIfFits(EnqueueAll(s, before), Coalesce(before, ByCoalesceKey<T>), m);
        PutIsPutByKey(Coalesce(before, ByCoalesceKey<T>), m);
      }
    }
  }

  // What as many dequeues as there are tokens deliver.
  function DeliveredBy<T>(s: State<T>, tokens: seq<CompletionToken>): seq<Message<T>>
    requires CursorsInRange(s)
    decreases |tokens|
  {
    if tokens == [] || Delivery(s, None).None? then []
    else
      DequeueInRange(s, tokens[0]);
      [Delivery(s, None).value] + DeliveredBy(Dequeue(s, None, tokens[0]), tokens[1..])
  }

  lemma DequeueInRange<T>(s: State<T>, token: CompletionToken)
    requires CursorsInRange(s)
    ensures CursorsInRange(Dequeue(s, None, token))
  {
  }

  ghost predicate OnlyLiveness<T>(s: State<T>) {
    s.safety == [] && s.authority == [] && s.diagnostic == []
  }

  lemma DeliversLiveness<T>(s: State<T>, token: CompletionToken)
    requires CursorsInRange(s) && OnlyLiveness(s)
    ensures Delivery(s, None) == if s.liveness == [] then None else Some(s.liveness[0])
    ensures OnlyLiveness(Dequeue(s, None, token))
    ensures s.liveness != [] ==> Dequeue(s, None, token).liveness == s.liveness[1..]
  {
    var slot := NextSlot(s, None);
    if slot.Some? {
      var c := SERVICE_CYCLE[slot.value];
      assert Queued(s, c) != [] && c == Liveness;
    } else {
      assert !ServiceBacklog(s, None)[FirstSlot(Liveness)];
    }
  }

  lemma {:induction false} DrainsInOrder<T>(s: State<T>, tokens: seq<CompletionToken>)
    requires CursorsInRange(s) && OnlyLiveness(s) && |tokens| >= |s.liveness|
    ensures DeliveredBy(s, tokens) == s.liveness
    decreases |tokens|
  {
    if tokens != [] {
      DeliversLiveness(s, tokens[0]);
      if s.liveness != [] {
        DrainsInOrder(Dequeue(s, None, tokens[0]), tokens[1..]);
      }
    }
  }

  lemma {:induction false} NotLonger<T, K>(messages: seq<T>, key: T -> K)
    ensures |Coalesce(messages, key)| <= |messages|
  {
    if messages != [] {
      NotLonger(messages[..|messages| - 1], key);
    }
  }

  /** Queueing a batch that fits in an empty scheduler and draining it delivers exactly the coalesced batch. */
  lemma QueueingCoalesces<T>(s: State<T>, ms: seq<Message<T>>, tokens: seq<CompletionToken>)
    requires IsEmpty(s) && AllValidIn(Liveness, ms) && Fits(ms) && |tokens| >= |ms|
    ensures CursorsInRange(EnqueueAll(s, ms))
    ensures DeliveredBy(EnqueueAll(s, ms), tokens) == Coalesce(ms, ByCoalesceKey<T>)
  {
    BatchQueues(s, ms);
    BatchKeepsCursors(s, ms);
    NotLonger(ms, ByCoalesceKey<T>);
    DrainsInOrder(EnqueueAll(s, ms), tokens);
  }

  lemma {:induction false} BatchKeepsCursors<T>(s: State<T>, ms: seq<Message<T>>)
    requires IsEmpty(s) && AllValidIn(Liveness, ms)
    ensures EnqueueAll(s, ms).authority == [] && EnqueueAll(s, ms).principalCursor == 0 && EnqueueAll(s, ms).serviceCursor == 0
    decreases |ms|
  {
    if ms != [] {
      assert ValidIn(Liveness, ms[|ms| - 1]);
      BatchKeepsCursors(s, ms[..|ms| - 1]);
    }
  }
}
