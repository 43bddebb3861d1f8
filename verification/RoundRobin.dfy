module Options {
  datatype Option<+T> = None | Some(value: T)
}

/**
 * Cyclic scanning. The service cycle, the principal order and the zone order are
 * all served by the same loop: start at a cursor, take the first slot that has
 * something to give, and leave the cursor one place behind it. What that loop
 * guarantees over a whole sequence of turns is proved here once.
 */
module RoundRobin {
  import opened Options

  // The slot `offset` places on from `cursor`, around a ring of `size` slots.
  function Slot(cursor: nat, offset: nat, size: nat): (slot: nat)
    requires cursor < size && offset <= size
    ensures slot < size
    ensures slot == (cursor + offset) % size
  {
    var slot := if cursor + offset < size then cursor + offset else cursor + offset - size;
    assert slot == (cursor + offset) % size by { SmallModulo(cursor + offset, size); }
    slot
  }

  lemma SmallModulo(x: nat, size: nat)
    requires size > 0 && x < 2 * size
    ensures x % size == if x < size then x else x - size
  {
    if x >= size {
      assert x == size + (x - size);
    }
  }

  // The distance from the cursor to the first available slot at or after `offset`.
  function ScanFrom(available: seq<bool>, cursor: nat, offset: nat): (r: Option<nat>)
    requires cursor < |available| && offset <= |available|
    ensures r.Some? ==> offset <= r.value < |available| && available[Slot(cursor, r.value, |available|)]
    ensures forall k :: offset <= k < (if r.Some? then r.value else |available|) ==>
              !available[Slot(cursor, k, |available|)]
    decreases |available| - offset
  {
    if offset == |available| then None
    else if available[Slot(cursor, offset, |available|)] then Some(offset)
    else ScanFrom(available, cursor, offset + 1)
  }

  // The slot a scan serves, if any slot is available.
  function Scan(available: seq<bool>, cursor: nat): (r: Option<nat>)
    requires available == [] || cursor < |available|
    ensures r.Some? ==> r.value < |available| && available[r.value]
    ensures r.None? <==> forall i :: 0 <= i < |available| ==> !available[i]
  {
    if available == [] then None
    else
      var offset := ScanFrom(available, cursor, 0);
      assert offset.None? ==> forall i :: 0 <= i < |available| ==> !available[i] by {
        if offset.None? {
          forall i | 0 <= i < |available| ensures !available[i] {
            var k := if i >= cursor then i - cursor else i + |available| - cursor;
            assert !available[Slot(cursor, k, |available|)];
          }
        }
      }
      if offset.None? then None else Some(Slot(cursor, offset.value, |available|))
  }

  // The loop form: the first offset that hits decides the slot.
  lemma ScanIs(available: seq<bool>, cursor: nat, offset: nat)
    requires offset < |available| && cursor < |available|
    requires available[Slot(cursor, offset, |available|)]
    requires forall k :: 0 <= k < offset ==> !available[Slot(cursor, k, |available|)]
    ensures Scan(available, cursor) == Some(Slot(cursor, offset, |available|))
  {
    var r := ScanFrom(available, cursor, 0);
    assert !available[Slot(cursor, offset, |available|)] || r.Some?;
    assert r.value <= offset;
    assert !(r.value < offset);
  }

  lemma NothingScanned(available: seq<bool>, cursor: nat)
    requires cursor < |available|
    requires forall k :: 0 <= k < |available| ==> !available[Slot(cursor, k, |available|)]
    ensures Scan(available, cursor).None?
  {
    var r := ScanFrom(available, cursor, 0);
    assert r.None?;
  }

  // One successful scan: what was available and where the cursor stood.
  datatype Turn = Turn(available: seq<bool>, cursor: nat)

  ghost predicate Successful(turn: Turn) {
    turn.cursor < |turn.available| && Scan(turn.available, turn.cursor).Some?
  }

  ghost function Served(turn: Turn): (slot: nat)
    requires Successful(turn)
    ensures slot < |turn.available|
  {
    Scan(turn.available, turn.cursor).value
  }

  ghost function NextCursor(turn: Turn): (cursor: nat)
    requires Successful(turn)
    ensures cursor < |turn.available|
  {
    Slot(Served(turn), 1, |turn.available|)
  }

  // A run of turns on a ring of `size` slots, each starting where the last one stopped.
  ghost predicate Chained(turns: seq<Turn>, size: nat) {
    && (forall i :: 0 <= i < |turns| ==> Successful(turns[i]) && |turns[i].available| == size)
    && (forall i :: 0 < i < |turns| ==> turns[i].cursor == NextCursor(turns[i - 1]))
  }

  lemma ChainedCons(turn: Turn, rest: seq<Turn>, size: nat)
    requires Successful(turn) && |turn.available| == size && Chained(rest, size)
    requires rest != [] ==> rest[0].cursor == NextCursor(turn)
    ensures Chained([turn] + rest, size)
  {
    var turns := [turn] + rest;
    forall i | 0 < i < |turns| ensures turns[i].cursor == NextCursor(turns[i - 1]) {
      if i > 1 {
        assert turns[i] == rest[i - 1] && turns[i - 1] == rest[i - 2];
      }
    }
  }

  ghost function Bit(b: bool): nat { if b then 1 else 0 }

  // How many turns served a marked slot.
  ghost function ServedMarked(turns: seq<Turn>, marked: seq<bool>): nat
    requires Chained(turns, |marked|)
  {
    if turns == [] then 0
    else Bit(marked[Served(turns[0])]) + ServedMarked(turns[1..], marked)
  }

  // How many marked slots lie on a walk of `length` places starting at `cursor`.
  ghost function MarkedOnWalk(marked: seq<bool>, cursor: nat, length: nat): nat
    requires cursor < |marked|
    decreases length
  {
    if length == 0 then 0
    else Bit(marked[cursor]) + MarkedOnWalk(marked, Slot(cursor, 1, |marked|), length - 1)
  }

  ghost function Marks(marked: seq<bool>): nat {
    if marked == [] then 0 else MarkedOnWalk(marked, 0, |marked|)
  }

  lemma {:induction false} WalkSplits(marked: seq<bool>, cursor: nat, a: nat, b: nat)
    requires cursor < |marked| && a <= |marked|
    ensures MarkedOnWalk(marked, cursor, a + b)
         == MarkedOnWalk(marked, cursor, a) + MarkedOnWalk(marked, Slot(cursor, a, |marked|), b)
    decreases a
  {
    if a > 0 {
      WalkSplits(marked, Slot(cursor, 1, |marked|), a - 1, b);
      assert Slot(Slot(cursor, 1, |marked|), a - 1, |marked|) == Slot(cursor, a, |marked|);
    }
  }

  lemma {:induction false} UnmarkedWalk(marked: seq<bool>, cursor: nat, length: nat)
    requires cursor < |marked| && length <= |marked|
    requires forall k :: 0 <= k < length ==> !marked[Slot(cursor, k, |marked|)]
    ensures MarkedOnWalk(marked, cursor, length) == 0
    decreases length
  {
    if length > 0 {
      assert !marked[Slot(cursor, 0, |marked|)];
      forall k | 0 <= k < length - 1
        ensures !marked[Slot(Slot(cursor, 1, |marked|), k, |marked|)]
      {
        assert Slot(Slot(cursor, 1, |marked|), k, |marked|) == Slot(cursor, k + 1, |marked|);
      }
      UnmarkedWalk(marked, Slot(cursor, 1, |marked|), length - 1);
    }
  }

  // Once round the ring meets every mark once, wherever it starts.
  lemma {:induction false} FullCircle(marked: seq<bool>, cursor: nat)
    requires cursor < |marked|
    ensures MarkedOnWalk(marked, cursor, |marked|) == Marks(marked)
  {
    if cursor > 0 {
      var n := |marked|;
      FullCircle(marked, cursor - 1);
      WalkSplits(marked, cursor - 1, 1, n - 1);
      WalkSplits(marked, cursor, n - 1, 1);
      assert Slot(cursor, n - 1, n) == cursor - 1;
      assert MarkedOnWalk(marked, cursor - 1, 1) == Bit(marked[cursor - 1]) + MarkedOnWalk(marked, cursor, 0);
      assert MarkedOnWalk(marked, cursor - 1, 1 + (n - 1)) == MarkedOnWalk(marked, cursor, n - 1 + 1);
    }
  }

  // The places a run of turns moves over.
  ghost function Walked(turns: seq<Turn>, size: nat): (length: nat)
    requires Chained(turns, size)
    ensures length >= |turns|
  {
    if turns == [] then 0
    else ScanFrom(turns[0].available, turns[0].cursor, 0).value + 1 + Walked(turns[1..], size)
  }

  // A turn moves over unavailable slots and then one it serves.
  lemma OneTurn(turn: Turn, marked: seq<bool>)
    requires Successful(turn) && |turn.available| == |marked|
    requires forall i :: 0 <= i < |marked| && marked[i] ==> turn.available[i]
    ensures MarkedOnWalk(marked, turn.cursor, ScanFrom(turn.available, turn.cursor, 0).value + 1)
         == Bit(marked[Served(turn)])
    ensures NextCursor(turn) == Slot(turn.cursor, ScanFrom(turn.available, turn.cursor, 0).value + 1, |marked|)
  {
    var offset := ScanFrom(turn.available, turn.cursor, 0).value;
    var n := |marked|;
    WalkSplits(marked, turn.cursor, offset, 1);
    UnmarkedWalk(marked, turn.cursor, offset);
    assert MarkedOnWalk(marked, Served(turn), 1)
        == Bit(marked[Served(turn)]) + MarkedOnWalk(marked, Slot(Served(turn), 1, n), 0);
  }

  lemma {:induction false} ServedAreWalked(turns: seq<Turn>, marked: seq<bool>)
    requires turns != [] && Chained(turns, |marked|)
    requires forall t, i :: 0 <= t < |turns| && 0 <= i < |marked| && marked[i] ==> turns[t].available[i]
    ensures ServedMarked(turns, marked) == MarkedOnWalk(marked, turns[0].cursor, Walked(turns, |marked|))
    decreases |turns|
  {
    var offset := ScanFrom(turns[0].available, turns[0].cursor, 0).value;
    OneTurn(turns[0], marked);
    if |turns| > 1 {
      ServedAreWalked(turns[1..], marked);
      WalkSplits(marked, turns[0].cursor, offset + 1, Walked(turns[1..], |marked|));
    }
  }

  lemma {:induction false} WalkGrows(marked: seq<bool>, cursor: nat, length: nat, more: nat)
    requires cursor < |marked| && length <= more
    ensures MarkedOnWalk(marked, cursor, length) <= MarkedOnWalk(marked, cursor, more)
    decreases length
  {
    if length > 0 {
      WalkGrows(marked, Slot(cursor, 1, |marked|), length - 1, more - 1);
    }
  }

  /** Slots that stay available through as many turns as the ring has slots are each served. */
  lemma FairService(turns: seq<Turn>, marked: seq<bool>)
    requires Chained(turns, |marked|) && |turns| >= |marked|
    requires forall t, i :: 0 <= t < |turns| && 0 <= i < |marked| && marked[i] ==> turns[t].available[i]
    ensures ServedMarked(turns, marked) >= Marks(marked)
  {
    if marked != [] {
      ServedAreWalked(turns, marked);
      FullCircle(marked, turns[0].cursor);
      WalkGrows(marked, turns[0].cursor, |marked|, Walked(turns, |marked|));
    }
  }

  lemma {:induction false} FullRingWalk(turns: seq<Turn>, size: nat)
    requires Chained(turns, size)
    requires forall t, i :: 0 <= t < |turns| && 0 <= i < size ==> turns[t].available[i]
    ensures Walked(turns, size) == |turns|
    decreases |turns|
  {
    if turns != [] {
      assert turns[0].available[Slot(turns[0].cursor, 0, size)];
      FullRingWalk(turns[1..], size);
    }
  }

  /** When every slot stays available, one full circle serves every slot exactly once. */
  lemma ExactService(turns: seq<Turn>, marked: seq<bool>)
    requires Chained(turns, |marked|) && |turns| == |marked|
    requires forall t, i :: 0 <= t < |turns| && 0 <= i < |marked| ==> turns[t].available[i]
    ensures ServedMarked(turns, marked) == Marks(marked)
  {
    if marked != [] {
      ServedAreWalked(turns, marked);
      FullRingWalk(turns, |marked|);
      FullCircle(marked, turns[0].cursor);
    }
  }

  lemma {:induction false} MarkedWalk(marked: seq<bool>, cursor: nat, length: nat)
    requires cursor < |marked| && cursor + length <= |marked|
    requires forall k :: cursor <= k < cursor + length ==> marked[k]
    ensures MarkedOnWalk(marked, cursor, length) == length
    decreases length
  {
    if length > 1 {
      MarkedWalk(marked, cursor + 1, length - 1);
    } else if length == 1 {
      assert MarkedOnWalk(marked, Slot(cursor, 1, |marked|), 0) == 0;
    }
  }

  // A block of adjacent marked slots counts for as many slots as it has.
  lemma MarkedBlock(marked: seq<bool>, from: nat, to: nat)
    requires from < to <= |marked|
    requires forall i :: 0 <= i < |marked| ==> (marked[i] <==> from <= i < to)
    ensures Marks(marked) == to - from
  {
    var n, block := |marked|, to - from;
    var after := Slot(from, block, n);
    FullCircle(marked, from);
    WalkSplits(marked, from, block, n - block);
    MarkedWalk(marked, from, block);
    forall k | 0 <= k < n - block ensures !marked[Slot(after, k, n)] {}
    UnmarkedWalk(marked, after, n - block);
  }

  // The mark of one slot alone.
  ghost function OnlySlot(size: nat, slot: nat): (marked: seq<bool>)
    ensures |marked| == size && forall i :: 0 <= i < size ==> marked[i] == (i == slot)
  {
    seq(size, i => i == slot)
  }
}
