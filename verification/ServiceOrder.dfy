/**
 * What a scheduler serves next, on deliveries: which class has its turn, what leaves which
 * queue, and what a completion or a cancellation leaves behind.
 */
module ServiceOrder {
  import opened Options
  import opened Admission
  import opened SchedulerModel
  import opened SchedulerRuns
  import RoundRobin

  // ---------- Which class is served ----------

  // The class whose turn it is after so many turns of a cycle.
  ghost function TurnOf(n: nat): MessageClass {
    if n % 15 < 8 then Safety else if n % 15 < 12 then Authority else if n % 15 < 14 then Liveness else Diagnostic
  }

  lemma CycleTurns(slot: nat)
    requires slot < 15
    ensures SERVICE_CYCLE[slot] == TurnOf(slot)
  {
  }

  ghost predicate ReadyAfter<T>(s: State<T>, allowed: Option<seq<MessageClass>>, k: nat) {
    Ready(s, allowed, TurnOf(s.serviceCursor + k))
  }

  // The first turn to come, counted from the one that is due, whose class is allowed and has work.
  ghost predicate FirstTurn<T>(s: State<T>, allowed: Option<seq<MessageClass>>, k: int) {
    0 <= k < 15 && ReadyAfter(s, allowed, k) && forall j :: 0 <= j < k ==> !ReadyAfter(s, allowed, j)
  }

  lemma SlotTurn(cursor: nat, k: nat)
    requires cursor < 15 && k <= 15
    ensures SERVICE_CYCLE[RoundRobin.Slot(cursor, k, 15)] == TurnOf(cursor + k)
  {
    CycleTurns(RoundRobin.Slot(cursor, k, 15));
  }

  lemma ScanIsFirstTurn<T>(s: State<T>, allowed: Option<seq<MessageClass>>) returns (k: nat)
    requires CursorsInRange(s) && NextSlot(s, allowed).Some?
    ensures FirstTurn(s, allowed, k) && NextSlot(s, allowed) == Some(RoundRobin.Slot(s.serviceCursor, k, 15))
  {
    var backlog := ServiceBacklog(s, allowed);
    k := RoundRobin.ScanFrom(backlog, s.serviceCursor, 0).value;
    SlotTurn(s.serviceCursor, k);
    forall j | 0 <= j < k ensures !ReadyAfter(s, allowed, j) {
      SlotTurn(s.serviceCursor, j);
      assert !backlog[RoundRobin.Slot(s.serviceCursor, j, 15)];
    }
  }

  // What is delivered and where the cycle stands afterwards.
  ghost predicate ServesTurn<T>(s: State<T>, allowed: Option<seq<MessageClass>>, k: int, after: State<T>)
    requires CursorsInRange(s)
  {
    && FirstTurn(s, allowed, k) && Delivery(s, allowed).Some?
    && Delivery(s, allowed).value.messageClass == TurnOf(s.serviceCursor + k)
    && after.serviceCursor == (s.serviceCursor + k + 1) % 15
  }

  lemma ServesTheTurn<T>(s: State<T>, allowed: Option<seq<MessageClass>>, token: CompletionToken) returns (k: nat)
    requires WellFormed(s) && NextSlot(s, allowed).Some?
    ensures ServesTurn(s, allowed, k, Dequeue(s, allowed, token))
  {
    k := ScanIsFirstTurn(s, allowed);
    var slot := NextSlot(s, allowed).value;
    SlotTurn(s.serviceCursor, k);
    HeadValid(s, SERVICE_CYCLE[slot]);
    assert RoundRobin.Slot(slot, 1, 15) == (s.serviceCursor + k + 1) % 15;
  }

  /**
   * A dequeue delivers exactly if some allowed class has work, and then from the class whose
   * turn comes first; the turn passes to the one behind it.
   */
  lemma ServesFirstInTurn<T>(s: State<T>, allowed: Option<seq<MessageClass>>, token: CompletionToken)
    requires WellFormed(s)
    ensures Delivery(s, allowed).None? <==> forall c :: !Ready(s, allowed, c)
    ensures Delivery(s, allowed).Some? ==> exists k :: ServesTurn(s, allowed, k, Dequeue(s, allowed, token))
  {
    if Delivery(s, allowed).Some? {
      var k := ServesTheTurn(s, allowed, token);
    } else {
      forall c ensures !Ready(s, allowed, c) {
        if Ready(s, allowed, c) {
          ReadyDelivers(s, allowed, c);
        }
      }
    }
  }

  /** A scheduler whose cycle starts anew delivers safety before authority, authority before liveness, and diagnostic last. */
  lemma UrgentFirst<T>(s: State<T>, allowed: Option<seq<MessageClass>>)
    requires WellFormed(s) && s.serviceCursor == 0 && Delivery(s, allowed).Some?
    ensures var c := Delivery(s, allowed).value.messageClass;
            && Ready(s, allowed, c)
            && (Ready(s, allowed, Safety) ==> c.Safety?)
            && (c.Liveness? || c.Diagnostic? ==> !Ready(s, allowed, Authority))
            && (c.Diagnostic? ==> !Ready(s, allowed, Liveness))
  {
    var k := ScanIsFirstTurn(s, allowed);
    SlotTurn(0, k);
    HeadValid(s, TurnOf(k));
    assert k > 0 ==> !ReadyAfter(s, allowed, 0);
    assert k > 8 ==> !ReadyAfter(s, allowed, 8);
    assert k > 12 ==> !ReadyAfter(s, allowed, 12);
  }

  // ---------- Fifteen deliveries ----------

  ghost function DeliveredClasses<T>(events: seq<Event<T>>): seq<MessageClass> {
    if events == [] then []
    else (if events[0].Delivered? then [events[0].message.messageClass] else []) + DeliveredClasses(events[1..])
  }

  // All classes have allowed work at every delivery of the run.
  ghost predicate AllReadyThroughout<T>(s: State<T>, ops: seq<Op<T>>)
    requires Inv(s) && LegalRun(s, ops)
    decreases |ops|
  {
    ops != [] ==>
      && (EventOf(s, ops[0]).Delivered? ==> AllReady(s, ops[0].allowed))
      && AllReadyThroughout(Step(s, ops[0]), ops[1..])
  }

  ghost predicate AllReady<T>(s: State<T>, allowed: Option<seq<MessageClass>>) { forall c :: Ready(s, allowed, c) }

  lemma DeliversAtCursor<T>(s: State<T>, allowed: Option<seq<MessageClass>>, token: CompletionToken)
    requires WellFormed(s) && AllReady(s, allowed)
    ensures Delivery(s, allowed).Some? && Delivery(s, allowed).value.messageClass == TurnOf(s.serviceCursor)
    ensures Dequeue(s, allowed, token).serviceCursor == (s.serviceCursor + 1) % 15
  {
    ReadyDelivers(s, allowed, Safety);
    var k := ServesTheTurn(s, allowed, token);
    FirstTurnIsDue(s, allowed, k);
  }

  lemma ReadyDelivers<T>(s: State<T>, allowed: Option<seq<MessageClass>>, c: MessageClass)
    requires CursorsInRange(s) && Ready(s, allowed, c)
    ensures NextSlot(s, allowed).Some?
  {
    assert ServiceBacklog(s, allowed)[FirstSlot(c)];
  }

  lemma FirstTurnIsDue<T>(s: State<T>, allowed: Option<seq<MessageClass>>, k: int)
    requires AllReady(s, allowed) && FirstTurn(s, allowed, k)
    ensures k == 0
  {
    assert ReadyAfter(s, allowed, 0);
  }

  // What one operation delivers, and where it leaves the cycle.
  lemma StepDelivers<T>(s: State<T>, op: Op<T>)
    requires Inv(s) && Legal(s, op) && (EventOf(s, op).Delivered? ==> AllReady(s, op.allowed))
    ensures if EventOf(s, op).Delivered?
            then EventOf(s, op).message.messageClass == TurnOf(s.serviceCursor)
                 && Step(s, op).serviceCursor == (s.serviceCursor + 1) % 15
            else Step(s, op).serviceCursor == s.serviceCursor
  {
    if EventOf(s, op).Delivered? {
      DeliversAtCursor(s, op.allowed, op.token);
    } else {
      CursorMovesOnDelivery(s, op);
    }
  }

  ghost predicate InTurn(classes: seq<MessageClass>, cursor: nat) {
    forall i :: 0 <= i < |classes| ==> classes[i] == TurnOf(cursor + i)
  }

  lemma InTurnCons(c: MessageClass, rest: seq<MessageClass>, cursor: nat)
    requires cursor < 15 && c == TurnOf(cursor) && InTurn(rest, (cursor + 1) % 15)
    ensures InTurn([c] + rest, cursor)
  {
    var classes := [c] + rest;
    forall i | 0 <= i < |classes| ensures classes[i] == TurnOf(cursor + i) {
      if i > 0 {
        assert classes[i] == rest[i - 1] == TurnOf((cursor + 1) % 15 + (i - 1));
      }
    }
  }

  lemma ClassesCons<T>(event: Event<T>, rest: seq<Event<T>>)
    ensures DeliveredClasses([event] + rest)
         == (if event.Delivered? then [event.message.messageClass] else []) + DeliveredClasses(rest)
  {
    assert ([event] + rest)[1..] == rest;
  }

  lemma {:induction false} DeliversInTurn<T>(s: State<T>, ops: seq<Op<T>>)
    requires Inv(s) && LegalRun(s, ops) && AllReadyThroughout(s, ops)
    ensures InTurn(DeliveredClasses(Events(s, ops)), s.serviceCursor)
    decreases |ops|
  {
    if ops != [] {
      var next, event, rest := Step(s, ops[0]), EventOf(s, ops[0]), Events(Step(s, ops[0]), ops[1..]);
      StepDelivers(s, ops[0]);
      DeliversInTurn(next, ops[1..]);
      ClassesCons(event, rest);
      if event.Delivered? {
        InTurnCons(event.message.messageClass, DeliveredClasses(rest), s.serviceCursor);
      } else {
        assert [] + DeliveredClasses(rest) == DeliveredClasses(rest);
      }
    }
  }

  /**
   * From a fresh cycle, with allowed work in every class throughout, each fifteen deliveries
   * are eight of safety, then four of authority, two of liveness and one of diagnostic.
   */
  lemma CycleOfDeliveries<T>(s: State<T>, ops: seq<Op<T>>)
    requires Inv(s) && LegalRun(s, ops) && AllReadyThroughout(s, ops) && s.serviceCursor == 0
    ensures var classes := DeliveredClasses(Events(s, ops));
            forall i :: 0 <= i < |classes| ==>
              classes[i] == if i % 15 < 8 then Safety else if i % 15 < 12 then Authority else if i % 15 < 14 then Liveness else Diagnostic
  {
    DeliversInTurn(s, ops);
  }

  // ---------- What leaves the queues ----------

  // The first principal with work, counted from the one whose turn it is.
  ghost predicate FirstPrincipal<T>(s: State<T>, k: int)
    requires CursorsInRange(s)
  {
    && 0 <= k < |s.authority| && !Idle(s, k)
    && forall j :: 0 <= j < k ==> Idle(s, j)
  }

  ghost predicate Idle<T>(s: State<T>, j: nat)
    requires CursorsInRange(s) && j < |s.authority|
  {
    s.authority[RoundRobin.Slot(s.principalCursor, j, |s.authority|)].queued == []
  }

  // The head of the queue of the principal in turn leaves, and the turn passes to the principal behind it.
  ghost predicate LeavesAuthority<T>(s: State<T>, m: Message<T>, after: State<T>, k: int)
    requires CursorsInRange(s)
  {
    && FirstPrincipal(s, k)
    && var i := RoundRobin.Slot(s.principalCursor, k, |s.authority|);
       && s.authority[i].queued == [m] + s.authority[i].queued[1..]
       && after.authority == s.authority[i := PrincipalQueue(s.authority[i].principal, s.authority[i].queued[1..])]
       && after.principalCursor == RoundRobin.Slot(i, 1, |s.authority|)
  }

  ghost predicate LeavesQueue<T>(s: State<T>, m: Message<T>, after: State<T>)
    requires CursorsInRange(s)
  {
    && (if m.messageClass.Safety? then s.safety == [m] + after.safety else after.safety == s.safety)
    && (if m.messageClass.Liveness? then s.liveness == [m] + after.liveness else after.liveness == s.liveness)
    && (if m.messageClass.Diagnostic? then s.diagnostic == [m] + after.diagnostic else after.diagnostic == s.diagnostic)
    && (if m.messageClass.Authority? then exists k :: LeavesAuthority(s, m, after, k)
        else after.authority == s.authority && after.principalCursor == s.principalCursor)
  }

  lemma ScanIsFirstPrincipal<T>(s: State<T>) returns (k: nat)
    requires CursorsInRange(s) && Flatten(s.authority) != []
    ensures FirstPrincipal(s, k) && NextPrincipal(s) == RoundRobin.Slot(s.principalCursor, k, |s.authority|)
  {
    FlattenBacklog(s);
    var backlog := AuthorityBacklog(s);
    k := RoundRobin.ScanFrom(backlog, s.principalCursor, 0).value;
    forall j | 0 <= j < k ensures Idle(s, j) {
      assert !backlog[RoundRobin.Slot(s.principalCursor, j, |backlog|)];
    }
  }

  /** What is delivered leaves the front of its queue and is in flight under the new token; nothing else moves. */
  lemma DeliveryLeavesQueue<T>(s: State<T>, allowed: Option<seq<MessageClass>>, token: CompletionToken)
    requires WellFormed(s) && Delivery(s, allowed).Some?
    ensures var (m, after) := (Delivery(s, allowed).value, Dequeue(s, allowed, token));
            LeavesQueue(s, m, after) && after.inFlight == s.inFlight + [InFlight(token, m)]
  {
    var c := SERVICE_CYCLE[NextSlot(s, allowed).value];
    TakeLeavesQueue(s, c);
    SameQueuesLeft(s, HeadOf(s, c), Take(s, c), Dequeue(s, allowed, token));
  }

  lemma SameQueuesLeft<T>(s: State<T>, m: Message<T>, a: State<T>, b: State<T>)
    requires CursorsInRange(s) && LeavesQueue(s, m, a) && a == b.(inFlight := a.inFlight, serviceCursor := a.serviceCursor)
    ensures LeavesQueue(s, m, b)
  {
    if m.messageClass.Authority? {
      var k :| LeavesAuthority(s, m, a, k);
      assert LeavesAuthority(s, m, b, k);
    }
  }

  lemma TakeLeavesQueue<T>(s: State<T>, c: MessageClass)
    requires WellFormed(s) && Queued(s, c) != []
    ensures LeavesQueue(s, HeadOf(s, c), Take(s, c)) && Take(s, c).inFlight == s.inFlight
  {
    HeadValid(s, c);
    if c.Authority? {
      var k := ScanIsFirstPrincipal(s);
      assert LeavesAuthority(s, HeadOf(s, c), Take(s, c), k);
    }
  }

  // ---------- What completing and cancelling leave ----------

  // A cursor stays where it is unless the order became too short for it.
  ghost predicate CursorStays(cursor: nat, size: nat, after: nat) {
    if cursor < size then after == cursor else if size > 0 then after == size - 1 else after == 0
  }

  // One delivery is no longer in flight; the queues stay, and a principal that holds nothing any more leaves the order.
  ghost predicate IsLanded<T>(s: State<T>, i: int, after: State<T>) {
    && 0 <= i < |s.inFlight| && after.inFlight == s.inFlight[..i] + s.inFlight[i + 1..]
    && after.safety == s.safety && after.liveness == s.liveness && after.diagnostic == s.diagnostic
    && after.serviceCursor == s.serviceCursor
    && if Lasts(s, s.inFlight[i].message) then after.authority == s.authority && after.principalCursor == s.principalCursor
       else LeavesOrder(s, s.inFlight[i].message.stablePrincipal, after)
  }

  // The principal of a message, if it is an authority message, holds more than this one.
  ghost predicate Lasts<T>(s: State<T>, m: Message<T>) {
    m.messageClass.Authority? && m.stablePrincipal.Some? ==> HeldBy(s, m.stablePrincipal.value).messages > 1
  }

  ghost predicate LeavesOrder<T>(s: State<T>, principal: Option<string>, after: State<T>) {
    exists j :: 0 <= j < |s.authority| && Some(s.authority[j].principal) == principal
                && after.authority == s.authority[..j] + s.authority[j + 1..]
                && CursorStays(s.principalCursor, |s.authority| - 1, after.principalCursor)
  }

  /** Completing a token that is not in flight changes nothing; otherwise its delivery lands and only an emptied principal goes with it. */
  lemma CompleteLands<T>(s: State<T>, token: CompletionToken)
    requires Inv(s)
    ensures !IsLive(s, token) ==> Complete(s, token) == s
    ensures IsLive(s, token) ==>
              exists i :: 0 <= i < |s.inFlight| && s.inFlight[i].token == token && IsLanded(s, i, Complete(s, token))
  {
    if IsLive(s, token) {
      var i := TokenIndex(s.inFlight, token);
      var m := MessageFor(s, token);
      assert Validate(m).None?;
      if m.messageClass.Authority? {
        SelectRemove(s.inFlight, i, OfPrincipal(PrincipalOf(m)));
        assert FlightListed(s, i);
      }
      assert IsLanded(s, i, Complete(s, token));
    }
  }

  /** Cancelling empties every queue, leaves what is in flight, and keeps in order the principals with work in flight. */
  lemma CancelLeaves<T>(s: State<T>)
    requires Inv(s)
    ensures var after := CancelQueued(s);
            && AllQueued(after) == [] && after.inFlight == s.inFlight && after.serviceCursor == s.serviceCursor
            && Principals(after.authority) == StillFlying(Principals(s.authority), s.inFlight)
            && CursorStays(s.principalCursor, |after.authority|, after.principalCursor)
  {
    DrainedIsEmpty(s.authority, s.inFlight);
    DrainedPrincipals(s.authority, s.inFlight);
  }

  // Of these principals, those with an authority message in flight.
  ghost function StillFlying<T>(names: seq<string>, inFlight: seq<InFlight<T>>): seq<string> {
    if names == [] then []
    else (if IsFlying(names[0], inFlight) then [names[0]] else []) + StillFlying(names[1..], inFlight)
  }

  ghost predicate IsFlying<T>(p: string, inFlight: seq<InFlight<T>>) {
    exists i :: 0 <= i < |inFlight| && inFlight[i].message.messageClass.Authority? && inFlight[i].message.stablePrincipal == Some(p)
  }

  lemma {:induction false} DrainedPrincipals<T>(queues: seq<PrincipalQueue<T>>, inFlight: seq<InFlight<T>>)
    requires forall i :: 0 <= i < |inFlight| ==> Validate(inFlight[i].message).None?
    ensures Principals(Drained(queues, inFlight)) == StillFlying(Principals(queues), inFlight)
  {
    if queues != [] {
      var p, rest := queues[0].principal, queues[1..];
      SelectEmpty(inFlight, OfPrincipal(p));
      DrainedPrincipals(rest, inFlight);
      assert Principals(queues)[1..] == Principals(rest);
      if IsFlying(p, inFlight) {
        assert Principals(Drained(queues, inFlight)) == [p] + Principals(Drained(rest, inFlight));
      }
    }
  }
}
