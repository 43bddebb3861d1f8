/**
 * The index process admission keeps per zone beside that zone's scheduler: the queued
 * liveness and diagnostic messages, by class and coalesce key. It is exact when it holds
 * those messages and nothing else, and then it finds precisely the message that the
 * scheduler would replace.
 */
module CoalescingIndex {
  import opened Options
  import opened Admission
  import opened SchedulerModel

  type Index<T> = map<string, Message<T>>

  const LIVENESS_PREFIX := "liveness\0"
  const DIAGNOSTIC_PREFIX := "diagnostic\0"

  function KeyText<T>(m: Message<T>): string { if m.coalesceKey.Some? then m.coalesceKey.value else "" }

  // Only liveness and diagnostic messages have a key.
  function CoalescingKey<T>(m: Message<T>): Option<string> {
    if m.messageClass.Liveness? then Some(LIVENESS_PREFIX + KeyText(m))
    else if m.messageClass.Diagnostic? then Some(DIAGNOSTIC_PREFIX + KeyText(m))
    else None
  }

  function KeyOf<T>(m: Message<T>): string
    requires Coalesces(m.messageClass)
  {
    CoalescingKey(m).value
  }

  function Lookup<T>(index: Index<T>, key: Option<string>): Option<Message<T>> {
    if key.Some? && key.value in index then Some(index[key.value]) else None
  }

  // The class and the key text can be read back from a key.
  lemma KeyDetermines<T>(a: Message<T>, b: Message<T>)
    requires Coalesces(a.messageClass) && Coalesces(b.messageClass) && KeyOf(a) == KeyOf(b)
    ensures a.messageClass == b.messageClass && KeyText(a) == KeyText(b)
  {
    assert KeyOf(a)[0] == KeyOf(b)[0];
    assert KeyOf(a)[if a.messageClass.Liveness? then 9 else 11..] == KeyText(a);
    assert KeyOf(b)[if b.messageClass.Liveness? then 9 else 11..] == KeyText(b);
  }

  ghost predicate IndexHas<T>(index: Index<T>, ms: seq<Message<T>>) {
    forall i :: 0 <= i < |ms| ==> Indexes(index, ms[i])
  }

  ghost predicate Indexes<T>(index: Index<T>, m: Message<T>) {
    Coalesces(m.messageClass) && KeyOf(m) in index && index[KeyOf(m)] == m
  }

  ghost predicate EntryQueued<T>(index: Index<T>, k: string, s: State<T>)
    requires k in index
  {
    var m := index[k];
    && Coalesces(m.messageClass) && KeyOf(m) == k
    && m in (if m.messageClass.Liveness? then s.liveness else s.diagnostic)
  }

  // The index holds exactly the liveness and diagnostic messages queued in the scheduler.
  ghost predicate Exact<T>(index: Index<T>, s: State<T>) {
    && IndexHas(index, s.liveness) && IndexHas(index, s.diagnostic)
    && forall k :: k in index ==> EntryQueued(index, k, s)
  }

  // A key names the same message in the index and, by class and key, in the queue.
  lemma SameKeySameMessage<T>(ms: seq<Message<T>>, c: MessageClass, i: nat, m: Message<T>)
    requires Coalesces(c) && AllValidIn(c, ms) && DistinctKeys(ms) && i < |ms|
    requires m.messageClass == c && KeyText(ms[i]) == KeyText(m)
    ensures KeyIndex(ms, m.coalesceKey) == i
  {
    assert ValidIn(c, ms[i]);
  }

  lemma KeysApart<T>(c: MessageClass, a: Message<T>, b: Message<T>)
    requires Coalesces(c) && ValidIn(c, a) && ValidIn(c, b) && a.coalesceKey != b.coalesceKey
    ensures KeyOf(a) != KeyOf(b)
  {
    if KeyOf(a) == KeyOf(b) {
      KeyDetermines(a, b);
    }
  }

  lemma AbsentKey<T>(index: Index<T>, a: Message<T>, m: Message<T>)
    requires Coalesces(m.messageClass) && a.messageClass == m.messageClass && Indexes(index, a) && KeyOf(m) !in index
    ensures a.coalesceKey != m.coalesceKey
  {
  }

  /** Looking a message up in an exact index finds the message it would replace. */
  lemma IndexFindsPrior<T>(index: Index<T>, s: State<T>, m: Message<T>)
    requires WellFormed(s) && Exact(index, s)
    ensures Lookup(index, CoalescingKey(m)) == PriorFor(s, m)
  {
    if Coalesces(m.messageClass) {
      var ms := Queued(s, m.messageClass);
      if KeyOf(m) in index {
        var x := index[KeyOf(m)];
        assert EntryQueued(index, KeyOf(m), s);
        KeyDetermines(x, m);
        var i :| 0 <= i < |ms| && ms[i] == x;
        SameKeySameMessage(ms, m.messageClass, i, m);
      } else {
        forall i | 0 <= i < |ms| ensures ms[i].coalesceKey != m.coalesceKey {
          assert ValidIn(m.messageClass, ms[i]) && Indexes(index, ms[i]);
          AbsentKey(index, ms[i], m);
        }
      }
    }
  }

  lemma ClassesApart<T>(a: Message<T>, b: Message<T>)
    requires Coalesces(a.messageClass) && Coalesces(b.messageClass) && a.messageClass != b.messageClass
    ensures KeyOf(a) != KeyOf(b)
  {
    if KeyOf(a) == KeyOf(b) {
      KeyDetermines(a, b);
    }
  }

  lemma OtherQueueKept<T>(index: Index<T>, ms: seq<Message<T>>, c: MessageClass, m: Message<T>)
    requires IndexHas(index, ms) && AllValidIn(c, ms) && Coalesces(c)
    requires Coalesces(m.messageClass) && m.messageClass != c
    ensures IndexHas(index[KeyOf(m) := m], ms)
    ensures IndexHas(index - {KeyOf(m)}, ms)
  {
    forall i | 0 <= i < |ms| ensures Indexes(index[KeyOf(m) := m], ms[i]) && Indexes(index - {KeyOf(m)}, ms[i]) {
      assert Indexes(index, ms[i]) && ValidIn(c, ms[i]);
      ClassesApart(ms[i], m);
    }
  }

  lemma PutIndexed<T>(index: Index<T>, ms: seq<Message<T>>, c: MessageClass, m: Message<T>)
    requires IndexHas(index, ms) && AllValidIn(c, ms) && DistinctKeys(ms) && ValidIn(c, m) && Coalesces(c)
    ensures IndexHas(index[KeyOf(m) := m], PutByKey(ms, m))
    ensures m in PutByKey(ms, m)
    ensures forall x :: x in ms && CoalescingKey(x) != CoalescingKey(m) ==> x in PutByKey(ms, m)
  {
    var after, j := PutByKey(ms, m), KeyIndex(ms, m.coalesceKey);
    forall i | 0 <= i < |after| ensures Indexes(index[KeyOf(m) := m], after[i]) {
      if after[i] != m {
        assert after[i] == ms[i] && Indexes(index, ms[i]) && ValidIn(c, ms[i]);
        assert i != j && ms[i].coalesceKey != m.coalesceKey;
        KeysApart(c, ms[i], m);
      }
    }
    assert after[if j < |ms| then j else |ms|] == m;
    forall x | x in ms && CoalescingKey(x) != CoalescingKey(m) ensures x in after {
      var i :| 0 <= i < |ms| && ms[i] == x;
      assert ValidIn(c, x);
      assert after[i] == x;
    }
  }

  /** Setting an accepted message's key keeps the index exact. */
  lemma InsertKeepsExact<T>(index: Index<T>, s: State<T>, m: Message<T>)
    requires WellFormed(s) && Exact(index, s) && Validate(m).None?
    ensures var key := CoalescingKey(m);
            Exact(if key.Some? then index[key.value := m] else index, Insert(s, m))
  {
    var after := Insert(s, m);
    if Coalesces(m.messageClass) {
      var index' := index[KeyOf(m) := m];
      if m.messageClass.Liveness? {
        PutIndexed(index, s.liveness, Liveness, m);
        OtherQueueKept(index, s.diagnostic, Diagnostic, m);
      } else {
        PutIndexed(index, s.diagnostic, Diagnostic, m);
        OtherQueueKept(index, s.liveness, Liveness, m);
      }
      forall k | k in index' ensures EntryQueued(index', k, after) {
        if k != KeyOf(m) {
          assert EntryQueued(index, k, s);
        }
      }
    } else {
      forall k | k in index ensures EntryQueued(index, k, after) {
        assert EntryQueued(index, k, s);
      }
    }
  }

  lemma TailIndexed<T>(index: Index<T>, ms: seq<Message<T>>, c: MessageClass)
    requires IndexHas(index, ms) && AllValidIn(c, ms) && DistinctKeys(ms) && Coalesces(c) && ms != []
    ensures ValidIn(c, ms[0]) && IndexHas(index - {KeyOf(ms[0])}, ms[1..])
    ensures forall x :: x in ms && x != ms[0] ==> x in ms[1..]
  {
    assert ValidIn(c, ms[0]);
    forall i | 0 <= i < |ms| - 1 ensures Indexes(index - {KeyOf(ms[0])}, ms[1..][i]) {
      assert ms[1..][i] == ms[i + 1] && Indexes(index, ms[i + 1]) && ValidIn(c, ms[i + 1]);
      KeysApart(c, ms[i + 1], ms[0]);
    }
    forall x | x in ms && x != ms[0] ensures x in ms[1..] {
      var i :| 0 <= i < |ms| && ms[i] == x;
      assert ms[1..][i - 1] == x;
    }
  }

  /** Deleting the key of a message that leaves its queue keeps the index exact. */
  lemma TakeKeepsExact<T>(index: Index<T>, s: State<T>, c: MessageClass)
    requires WellFormed(s) && Exact(index, s) && Queued(s, c) != []
    ensures var key := CoalescingKey(HeadOf(s, c));
            && (key.Some? ==> key.value in index && index[key.value] == HeadOf(s, c))
            && Exact(if key.Some? then index - {key.value} else index, Take(s, c))
  {
    var m, after := HeadOf(s, c), Take(s, c);
    HeadValid(s, c);
    if Coalesces(c) {
      var index' := index - {KeyOf(m)};
      assert Indexes(index, m);
      if c.Liveness? {
        TailIndexed(index, s.liveness, Liveness);
        OtherQueueKept(index, s.diagnostic, Diagnostic, m);
      } else {
        TailIndexed(index, s.diagnostic, Diagnostic);
        OtherQueueKept(index, s.liveness, Liveness, m);
      }
      forall k | k in index' ensures EntryQueued(index', k, after) {
        assert EntryQueued(index, k, s) && index[k] != m;
      }
    } else {
      forall k | k in index ensures EntryQueued(index, k, after) {
        assert EntryQueued(index, k, s);
      }
    }
  }

  // What an index says depends only on the two coalescing queues.
  lemma SameQueuesSameIndex<T>(index: Index<T>, s: State<T>, after: State<T>)
    requires Exact(index, s) && after.liveness == s.liveness && after.diagnostic == s.diagnostic
    ensures Exact(index, after)
  {
    forall k | k in index ensures EntryQueued(index, k, after) {
      assert EntryQueued(index, k, s);
    }
  }
}
