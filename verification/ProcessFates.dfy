/**
 * The fate of single messages under process admission: over any run, every copy accepted is
 * exactly one of still held, completed, replaced or returned when its zone was unregistered.
 */
module ProcessFates {
  import opened Options
  import opened Admission
  import opened SchedulerModel
  import opened ProcessModel
  import opened ProcessRuns
  import R = SchedulerRuns
  import RoundRobin

  datatype Fate = IsAccepted | IsReplaced | IsDelivered | IsReleased | IsReturnedQueued | IsReturnedInFlight

  // The copies of a message that wait in its zone, and those that are in flight there.
  ghost function Waiting<T>(p: Process<T>, m: Message<T>): nat {
    if Addressed(p, m) then R.Waiting(p.schedulers[m.zoneId.value], m) else 0
  }

  ghost function Flying<T>(p: Process<T>, m: Message<T>): nat {
    if Addressed(p, m) then R.Flying(p.schedulers[m.zoneId.value].inFlight, m) else 0
  }

  // How often an event gives a message a fate; closing a zone returns what it holds.
  ghost function Gives<T>(p: Process<T>, event: Event<T>, fate: Fate, m: Message<T>): nat {
    match fate
    case IsAccepted => RoundRobin.Bit(event.Accepted? && event.message == m)
    case IsReplaced => if event.Accepted? then R.CountPrior(event.replaced, m) else 0
    case IsDelivered => RoundRobin.Bit(event.Delivered? && event.message == m)
    case IsReleased => RoundRobin.Bit(event.Released? && event.message == m)
    case IsReturnedQueued => if event.Closed? && m.zoneId == Some(event.zone) then Waiting(p, m) else 0
    case IsReturnedInFlight => if event.Closed? && m.zoneId == Some(event.zone) then Flying(p, m) else 0
  }

  ghost predicate Conserves<T>(p: Process<T>, event: Event<T>, next: Process<T>, m: Message<T>) {
    && Waiting(p, m) + Gives(p, event, IsAccepted, m)
       == Waiting(next, m) + Gives(p, event, IsReplaced, m) + Gives(p, event, IsDelivered, m) + Gives(p, event, IsReturnedQueued, m)
    && Flying(p, m) + Gives(p, event, IsDelivered, m)
       == Flying(next, m) + Gives(p, event, IsReleased, m) + Gives(p, event, IsReturnedInFlight, m)
  }

  // The same event, seen at one scheduler and at the process.
  ghost predicate SameEvent<T>(e: R.Event<T>, event: Event<T>) {
    match e
    case Nothing => event.Nothing?
    case Accepted(m, replaced) => event == Accepted(m, replaced)
    case Delivered(m) => event == Delivered(m)
    case Released(m) => event == Released(m)
    case Cancelled(_) => false
  }

  // The event is about messages of one zone only.
  ghost predicate About<T>(event: Event<T>, zone: string) {
    match event
    case Accepted(m, replaced) => m.zoneId == Some(zone) && (replaced.Some? ==> replaced.value.zoneId == Some(zone))
    case Delivered(m) => m.zoneId == Some(zone)
    case Released(m) => m.zoneId == Some(zone)
    case _ => true
  }

  // What one scheduler conserves, the process conserves.
  lemma ZoneConserves<T>(p: Process<T>, zone: string, e: R.Event<T>, after: State<T>, event: Event<T>, next: Process<T>, m: Message<T>)
    requires zone in p.schedulers && next.schedulers == p.schedulers[zone := after]
    requires SameEvent(e, event) && About(event, zone) && R.Conserves(p.schedulers[zone], e, after, m)
    ensures Conserves(p, event, next, m)
  {
  }

  lemma PriorIsQueued<T>(s: State<T>, x: Message<T>)
    requires PriorFor(s, x).Some?
    ensures exists c, i :: 0 <= i < |Queued(s, c)| && Queued(s, c)[i] == PriorFor(s, x).value
  {
    if x.messageClass.Liveness? {
      assert Queued(s, Liveness)[KeyIndex(s.liveness, x.coalesceKey)] == PriorFor(s, x).value;
    } else {
      assert Queued(s, Diagnostic)[KeyIndex(s.diagnostic, x.coalesceKey)] == PriorFor(s, x).value;
    }
  }

  lemma EnqueueConserves<T>(p: Process<T>, caps: Caps, x: Message<T>, m: Message<T>)
    requires ZonesKept(p)
    ensures Conserves(p, EnqueueEvent(x, DecideIn(p, caps, x)), EnqueueIn(p, caps, x), m)
  {
    if Addressed(p, x) && DecideIn(p, caps, x).Accepts() {
      var zone := x.zoneId.value;
      var s := p.schedulers[zone];
      R.EnqueueConserves(s, x, m);
      VerdictNamesPrior(s, x);
      if PriorFor(s, x).Some? {
        PriorIsQueued(s, x);
      }
      ZoneConserves(p, zone, R.EnqueueEvent(x, Decide(s, x)), Enqueue(s, x), EnqueueEvent(x, DecideIn(p, caps, x)), EnqueueIn(p, caps, x), m);
    }
  }

  lemma DequeueConserves<T>(p: Process<T>, token: CompletionToken, m: Message<T>)
    requires OrderLists(p) && ZonesKept(p)
    ensures Conserves(p, DequeueEvent(p), DequeueFrom(p, token), m)
  {
    if NextZone(p).Some? {
      var zone := p.order[NextZone(p).value];
      var s := p.schedulers[zone];
      R.DequeueConserves(s, None, token, m);
      ZoneDelivers(s);
      HeadIsQueued(s, SERVICE_CYCLE[NextSlot(s, None).value]);
      ZoneConserves(p, zone, R.DequeueEvent(Delivery(s, None)), Dequeue(s, None, token), DequeueEvent(p), DequeueFrom(p, token), m);
    }
  }

  lemma HeadIsQueued<T>(s: State<T>, c: MessageClass)
    requires CursorsInRange(s) && Queued(s, c) != []
    ensures exists i :: 0 <= i < |Queued(s, c)| && Queued(s, c)[i] == HeadOf(s, c)
  {
    TakeMembers(s, c);
  }

  lemma CompleteConserves<T>(p: Process<T>, token: CompletionToken, m: Message<T>)
    requires OrderLists(p) && ZonesKept(p)
    ensures Conserves(p, CompleteEvent(p, token), CompleteIn(p, token), m)
  {
    var i := Home(p, token);
    if i < |p.order| {
      var zone := p.order[i];
      var s := p.schedulers[zone];
      FlightHomed(s, zone, token);
      R.CompleteConserves(s, token, m);
      ZoneConserves(p, zone, R.Released(MessageFor(s, token)), Complete(s, token), CompleteEvent(p, token), CompleteIn(p, token), m);
    }
  }

  lemma RegisterConserves<T>(p: Process<T>, caps: Caps, zone: string, s: State<T>, m: Message<T>)
    requires IsEmpty(s)
    ensures Conserves(p, RegisterEvent(p, caps, zone), Register(p, caps, zone).0, m)
  {
    RegisterIs(p, caps, zone, s);
  }

  lemma UnregisterConserves<T>(p: Process<T>, zone: string, m: Message<T>)
    requires OrderLists(p)
    ensures Conserves(p, UnregisterEvent(p, zone), Unregister(p, zone), m)
  {
  }

  lemma StepConserves<T>(p: Process<T>, caps: Caps, op: Op<T>, m: Message<T>)
    requires ProcessInv(p, caps) && Legal(p, op)
    ensures Conserves(p, EventOf(p, caps, op), Step(p, caps, op), m)
  {
    StepIs(p, caps, op);
    match op
    case RegisterOp(zone) => RegisterConserves(p, caps, zone, Empty<T>(), m);
    case UnregisterOp(zone) => UnregisterConserves(p, zone, m);
    case EnqueueOp(x) => EnqueueConserves(p, caps, x, m);
    case DequeueOp(token) => DequeueConserves(p, token, m);
    case CompleteOp(token) => CompleteConserves(p, token, m);
  }

  // How often a run gives a message a fate.
  ghost function Times<T>(p: Process<T>, caps: Caps, ops: seq<Op<T>>, fate: Fate, m: Message<T>): nat
    requires ProcessInv(p, caps) && LegalRun(p, caps, ops)
    decreases |ops|
  {
    if ops == [] then 0
    else Gives(p, EventOf(p, caps, ops[0]), fate, m) + Times(Step(p, caps, ops[0]), caps, ops[1..], fate, m)
  }

  lemma {:induction false} RunConserves<T>(p: Process<T>, caps: Caps, ops: seq<Op<T>>, m: Message<T>)
    requires ProcessInv(p, caps) && LegalRun(p, caps, ops)
    ensures Waiting(p, m) + Times(p, caps, ops, IsAccepted, m)
         == Waiting(After(p, caps, ops), m) + Times(p, caps, ops, IsReplaced, m) + Times(p, caps, ops, IsDelivered, m)
            + Times(p, caps, ops, IsReturnedQueued, m)
    ensures Flying(p, m) + Times(p, caps, ops, IsDelivered, m)
         == Flying(After(p, caps, ops), m) + Times(p, caps, ops, IsReleased, m) + Times(p, caps, ops, IsReturnedInFlight, m)
    decreases |ops|
  {
    if ops != [] {
      StepConserves(p, caps, ops[0], m);
      RunConserves(Step(p, caps, ops[0]), caps, ops[1..], m);
    }
  }

  /**
   * Over any run from a process without zones, every copy accepted of a message is exactly one
   * of queued, in flight, completed, replaced, or returned from the queues or from the flight
   * when its zone was unregistered, and none is delivered more often than accepted.
   */
  lemma OneFateAcrossZones<T>(p: Process<T>, caps: Caps, ops: seq<Op<T>>, m: Message<T>)
    requires ProcessInv(p, caps) && p.order == [] && LegalRun(p, caps, ops)
    ensures Times(p, caps, ops, IsAccepted, m)
         == Waiting(After(p, caps, ops), m) + Flying(After(p, caps, ops), m)
            + Times(p, caps, ops, IsReleased, m) + Times(p, caps, ops, IsReplaced, m)
            + Times(p, caps, ops, IsReturnedQueued, m) + Times(p, caps, ops, IsReturnedInFlight, m)
    ensures Times(p, caps, ops, IsDelivered, m) <= Times(p, caps, ops, IsAccepted, m)
  {
    assert !Addressed(p, m);
    RunConserves(p, caps, ops, m);
  }
}
