/**
 * Whole runs of process admission: the caps hold after every run, the totals are what an
 * observer of the results alone would count, and every zone with work is served in turn.
 */
module ProcessRuns {
  import opened Options
  import opened Admission
  import opened SchedulerModel
  import opened ProcessModel
  import RoundRobin

  datatype Op<+T> =
    | RegisterOp(zone: string)
    | UnregisterOp(zone: string)
    | EnqueueOp(message: Message<T>)
    | DequeueOp(token: CompletionToken)
    | CompleteOp(token: CompletionToken)

  // What a caller sees of one operation.
  datatype Event<+T> =
    | Nothing
    | Opened(zone: string)
    | Closed(zone: string)
    | Accepted(message: Message<T>, replaced: Option<Message<T>>)
    | Delivered(message: Message<T>)
    | Released(message: Message<T>)

  // A token handed out by a dequeue is new: no zone has it in flight.
  ghost predicate Legal<T>(p: Process<T>, op: Op<T>) {
    op.DequeueOp? ==> Home(p, op.token) == |p.order|
  }

  ghost function Step<T>(p: Process<T>, caps: Caps, op: Op<T>): (after: Process<T>)
    requires ProcessInv(p, caps) && Legal(p, op)
    ensures ProcessInv(after, caps)
  {
    match op
    case RegisterOp(zone) => RegisterInv(p, caps, zone); Register(p, caps, zone).0
    case UnregisterOp(zone) => UnregisterInv(p, caps, zone); Unregister(p, zone)
    case EnqueueOp(m) => EnqueueInInv(p, caps, m); EnqueueIn(p, caps, m)
    case DequeueOp(token) => DequeueFromInv(p, caps, token); DequeueFrom(p, token)
    case CompleteOp(token) => CompleteInInv(p, caps, token); CompleteIn(p, token)
  }

  ghost function EventOf<T>(p: Process<T>, caps: Caps, op: Op<T>): Event<T>
    requires ProcessInv(p, caps)
  {
    match op
    case RegisterOp(zone) => RegisterEvent(p, caps, zone)
    case UnregisterOp(zone) => UnregisterEvent(p, zone)
    case EnqueueOp(m) => EnqueueEvent(m, DecideIn(p, caps, m))
    case DequeueOp(_) => DequeueEvent(p)
    case CompleteOp(token) => CompleteEvent(p, token)
  }

  ghost function RegisterEvent<T>(p: Process<T>, caps: Caps, zone: string): Event<T> {
    if zone !in p.schedulers && Register(p, caps, zone).1.ZoneAdmitted? then Opened(zone) else Nothing
  }

  function UnregisterEvent<T>(p: Process<T>, zone: string): Event<T> {
    if zone in p.schedulers then Closed(zone) else Nothing
  }

  ghost function EnqueueEvent<T>(m: Message<T>, verdict: AdmissionResult<T>): Event<T> {
    if verdict.Admitted? then Accepted(m, None)
    else if verdict.Replaced? then Accepted(m, Some(verdict.replacedMessage))
    else Nothing
  }

  ghost function DequeueEvent<T>(p: Process<T>): Event<T>
    requires OrderLists(p) && ZonesKept(p)
  {
    if NextZone(p).Some? then Delivered(DeliveryFrom(p, NextZone(p).value)) else Nothing
  }

  function CompleteEvent<T>(p: Process<T>, token: CompletionToken): Event<T> {
    var i := Home(p, token);
    if i < |p.order| then Released(MessageFor(p.schedulers[p.order[i]], token)) else Nothing
  }

  ghost function DeliveryFrom<T>(p: Process<T>, slot: nat): Message<T>
    requires slot < |p.order| && p.order[slot] in p.schedulers
    requires WellFormed(p.schedulers[p.order[slot]]) && HasQueued(p.schedulers[p.order[slot]])
  {
    ZoneDelivers(p.schedulers[p.order[slot]]);
    Delivery(p.schedulers[p.order[slot]], None).value
  }

  lemma ZoneDelivers<T>(s: State<T>)
    requires CursorsInRange(s) && HasQueued(s)
    ensures NextSlot(s, None).Some?
  {
    var c :| Queued(s, c) != [];
    assert ServiceBacklog(s, None)[FirstSlot(c)];
  }

  ghost predicate LegalRun<T>(p: Process<T>, caps: Caps, ops: seq<Op<T>>)
    requires ProcessInv(p, caps)
    decreases |ops|
  {
    ops != [] ==> Legal(p, ops[0]) && LegalRun(Step(p, caps, ops[0]), caps, ops[1..])
  }

  ghost function After<T>(p: Process<T>, caps: Caps, ops: seq<Op<T>>): (after: Process<T>)
    requires ProcessInv(p, caps) && LegalRun(p, caps, ops)
    ensures ProcessInv(after, caps)
    decreases |ops|
  {
    if ops == [] then p else After(Step(p, caps, ops[0]), caps, ops[1..])
  }

  ghost function Events<T>(p: Process<T>, caps: Caps, ops: seq<Op<T>>): seq<Event<T>>
    requires ProcessInv(p, caps) && LegalRun(p, caps, ops)
    decreases |ops|
  {
    if ops == [] then [] else [EventOf(p, caps, ops[0])] + Events(Step(p, caps, ops[0]), caps, ops[1..])
  }

  // ---------- Conservation ----------

  ghost function ZoneLoad<T>(p: Process<T>, zone: string): Account {
    if zone in p.schedulers then Account(NonSafetyBytes(p.schedulers[zone]), NonSafetyMessages(p.schedulers[zone])) else Account(0, 0)
  }

  // Whether an event says something about what a zone holds outside the safety class.
  ghost predicate Concerns<T>(m: Message<T>, zone: string) {
    m.zoneId == Some(zone) && !m.messageClass.Safety?
  }

  // What an observer makes of one event.
  ghost function Observed<T>(load: Account, event: Event<T>, zone: string): Account {
    match event
    case Opened(z) => if z == zone then Account(0, 0) else load
    case Closed(z) => if z == zone then Account(0, 0) else load
    case Accepted(m, replaced) =>
      if Concerns(m, zone)
      then Account(load.bytes + m.byteLength - PriorBytes(replaced), load.messages + 1 - PriorCount(replaced)) else load
    case Released(m) => if Concerns(m, zone) then Account(load.bytes - m.byteLength, load.messages - 1) else load
    case _ => load
  }

  ghost function ObservedAll<T>(load: Account, events: seq<Event<T>>, zone: string): Account
    decreases |events|
  {
    if events == [] then load else ObservedAll(Observed(load, events[0], zone), events[1..], zone)
  }

  lemma VerdictNamesPrior<T>(s: State<T>, m: Message<T>)
    requires Decide(s, m).Accepts()
    ensures Decide(s, m).Replaced? <==> PriorFor(s, m).Some?
    ensures Decide(s, m).Replaced? ==> PriorFor(s, m) == Some(Decide(s, m).replacedMessage)
  {
  }

  lemma NewZoneLoad<T>(p: Process<T>, z: string, s: State<T>, zone: string)
    requires NonSafetyBytes(s) == 0 && NonSafetyMessages(s) == 0
    ensures ZoneLoad(WithZone(p, z, s), zone) == if z == zone then Account(0, 0) else ZoneLoad(p, zone)
  {
  }

  lemma RegisterIs<T>(p: Process<T>, caps: Caps, z: string, s: State<T>)
    requires IsEmpty(s)
    ensures if RegisterEvent(p, caps, z).Opened? then RegisterEvent(p, caps, z).zone == z && Register(p, caps, z).0 == WithZone(p, z, s)
            else RegisterEvent(p, caps, z).Nothing? && Register(p, caps, z).0 == p
  {
    EmptyUnique(s, Empty<T>());
  }

  lemma RegisterObservedBy<T>(p: Process<T>, caps: Caps, z: string, s: State<T>, zone: string)
    requires IsEmpty(s)
    ensures ZoneLoad(Register(p, caps, z).0, zone) == Observed(ZoneLoad(p, zone), RegisterEvent(p, caps, z), zone)
  {
    RegisterIs(p, caps, z, s);
    EmptyHoldsNothing(s, z);
    NewZoneLoad(p, z, s, zone);
  }

  lemma RegisterObserved<T>(p: Process<T>, caps: Caps, z: string, zone: string)
    ensures ZoneLoad(Register(p, caps, z).0, zone) == Observed(ZoneLoad(p, zone), RegisterEvent(p, caps, z), zone)
  {
    RegisterObservedBy(p, caps, z, Empty<T>(), zone);
  }

  lemma UnregisterObserved<T>(p: Process<T>, z: string, zone: string)
    requires OrderLists(p)
    ensures ZoneLoad(Unregister(p, z), zone) == Observed(ZoneLoad(p, zone), UnregisterEvent(p, z), zone)
  {
  }

  lemma EnqueueObserved<T>(p: Process<T>, caps: Caps, m: Message<T>, zone: string)
    ensures ZoneLoad(EnqueueIn(p, caps, m), zone) == Observed(ZoneLoad(p, zone), EnqueueEvent(m, DecideIn(p, caps, m)), zone)
  {
    if Addressed(p, m) && DecideIn(p, caps, m).Accepts() && m.zoneId == Some(zone) {
      VerdictNamesPrior(p.schedulers[zone], m);
      if m.messageClass.Safety? {
        SafetyOutsideTheCap(p.schedulers[zone], m);
      } else {
        PredictedChange(p.schedulers[zone], m);
      }
    }
  }

  lemma SameZoneLoad<T>(p: Process<T>, z: string, after: State<T>, cursor: nat, zone: string)
    requires z in p.schedulers
    requires NonSafetyBytes(after) == NonSafetyBytes(p.schedulers[z]) && NonSafetyMessages(after) == NonSafetyMessages(p.schedulers[z])
    ensures ZoneLoad(p.(schedulers := p.schedulers[z := after], cursor := cursor), zone) == ZoneLoad(p, zone)
  {
  }

  lemma DequeueLoad<T>(p: Process<T>, token: CompletionToken, zone: string)
    requires OrderLists(p) && ZonesKept(p)
    ensures ZoneLoad(DequeueFrom(p, token), zone) == ZoneLoad(p, zone)
  {
    if NextZone(p).Some? {
      var z := p.order[NextZone(p).value];
      var after := Dequeue(p.schedulers[z], None, token);
      SameTotals(p.schedulers[z], after, token);
      SameZoneLoad(p, z, after, RoundRobin.Slot(NextZone(p).value, 1, |p.order|), zone);
    }
  }

  lemma DequeueObserved<T>(p: Process<T>, token: CompletionToken, zone: string)
    requires OrderLists(p) && ZonesKept(p)
    ensures ZoneLoad(DequeueFrom(p, token), zone) == Observed(ZoneLoad(p, zone), DequeueEvent(p), zone)
  {
    DequeueLoad(p, token, zone);
  }

  lemma FlightHomed<T>(s: State<T>, z: string, token: CompletionToken)
    requires Homed(s, z) && IsLive(s, token)
    ensures MessageFor(s, token).zoneId == Some(z)
  {
  }

  lemma CompleteObserved<T>(p: Process<T>, token: CompletionToken, zone: string)
    requires OrderLists(p) && ZonesKept(p)
    ensures ZoneLoad(CompleteIn(p, token), zone) == Observed(ZoneLoad(p, zone), CompleteEvent(p, token), zone)
  {
    var i := Home(p, token);
    if i < |p.order| {
      var s := p.schedulers[p.order[i]];
      FlightHomed(s, p.order[i], token);
      CompleteTotals(s, token);
      CompletedZoneLoad(p, p.order[i], Complete(s, token), MessageFor(s, token), zone);
    }
  }

  lemma CompletedZoneLoad<T>(p: Process<T>, z: string, after: State<T>, m: Message<T>, zone: string)
    requires z in p.schedulers && m.zoneId == Some(z)
    requires NonSafetyBytes(after) == NonSafetyBytes(p.schedulers[z]) - (if m.messageClass.Safety? then 0 else m.byteLength)
    requires NonSafetyMessages(after) == NonSafetyMessages(p.schedulers[z]) - (if m.messageClass.Safety? then 0 else 1)
    ensures ZoneLoad(p.(schedulers := p.schedulers[z := after]), zone) == Observed(ZoneLoad(p, zone), Released(m), zone)
  {
  }

  lemma StepIs<T>(p: Process<T>, caps: Caps, op: Op<T>)
    requires ProcessInv(p, caps) && Legal(p, op)
    ensures op.RegisterOp? ==> Step(p, caps, op) == Register(p, caps, op.zone).0 && EventOf(p, caps, op) == RegisterEvent(p, caps, op.zone)
    ensures op.UnregisterOp? ==> Step(p, caps, op) == Unregister(p, op.zone) && EventOf(p, caps, op) == UnregisterEvent(p, op.zone)
    ensures op.EnqueueOp? ==>
              && Step(p, caps, op) == EnqueueIn(p, caps, op.message)
              && EventOf(p, caps, op) == EnqueueEvent(op.message, DecideIn(p, caps, op.message))
    ensures op.DequeueOp? ==> Step(p, caps, op) == DequeueFrom(p, op.token) && EventOf(p, caps, op) == DequeueEvent(p)
    ensures op.CompleteOp? ==> Step(p, caps, op) == CompleteIn(p, op.token) && EventOf(p, caps, op) == CompleteEvent(p, op.token)
  {
  }

  lemma StepObserved<T>(p: Process<T>, caps: Caps, op: Op<T>, zone: string)
    requires ProcessInv(p, caps) && Legal(p, op)
    ensures ZoneLoad(Step(p, caps, op), zone) == Observed(ZoneLoad(p, zone), EventOf(p, caps, op), zone)
  {
    StepIs(p, caps, op);
    match op
    case RegisterOp(z) => RegisterObserved(p, caps, z, zone);
    case UnregisterOp(z) => UnregisterObserved(p, z, zone);
    case EnqueueOp(m) => EnqueueObserved(p, caps, m, zone);
    case DequeueOp(token) => DequeueObserved(p, token, zone);
    case CompleteOp(token) => CompleteObserved(p, token, zone);
  }

  /**
   * Conservation: after any run, what a zone holds outside the safety class is exactly what
   * the results of the run add up to, from its opening on.
   */
  lemma {:induction false} RunObserved<T>(p: Process<T>, caps: Caps, ops: seq<Op<T>>, zone: string)
    requires ProcessInv(p, caps) && LegalRun(p, caps, ops)
    ensures ZoneLoad(After(p, caps, ops), zone) == ObservedAll(ZoneLoad(p, zone), Events(p, caps, ops), zone)
    decreases |ops|
  {
    if ops != [] {
      StepObserved(p, caps, ops[0], zone);
      RunObserved(Step(p, caps, ops[0]), caps, ops[1..], zone);
    }
  }

  ghost function SumObserved<T>(order: seq<string>, events: seq<Event<T>>): (sum: Account) {
    if order == [] then Account(0, 0)
    else
      var first, rest := ObservedAll(Account(0, 0), events, order[0]), SumObserved(order[1..], events);
      Account(first.bytes + rest.bytes, first.messages + rest.messages)
  }

  lemma {:induction false} SumIsTotal<T>(order: seq<string>, p: Process<T>, events: seq<Event<T>>)
    requires forall i :: 0 <= i < |order| ==>
               order[i] in p.schedulers && ZoneLoad(p, order[i]) == ObservedAll(Account(0, 0), events, order[i])
    ensures SumObserved(order, events) == Account(TotalBytes(order, p.schedulers), TotalMessages(order, p.schedulers))
  {
    if order != [] {
      var rest := order[1..];
      forall i | 0 <= i < |rest|
        ensures rest[i] in p.schedulers && ZoneLoad(p, rest[i]) == ObservedAll(Account(0, 0), events, rest[i])
      {
        assert rest[i] == order[i + 1];
      }
      SumIsTotal(rest, p, events);
      assert ZoneLoad(p, order[0]) == ObservedAll(Account(0, 0), events, order[0]);
    }
  }

  /**
   * The caps are never exceeded: in any run from a process without zones, what the results
   * add up to over the zones then registered stays within the caps.
   */
  lemma CapsHold<T>(p: Process<T>, caps: Caps, ops: seq<Op<T>>)
    requires ProcessInv(p, caps) && p.order == [] && LegalRun(p, caps, ops)
    ensures var (after, seen) := (After(p, caps, ops), SumObserved(After(p, caps, ops).order, Events(p, caps, ops)));
            && seen == Account(TotalBytes(after.order, after.schedulers), TotalMessages(after.order, after.schedulers))
            && seen.bytes <= caps.maxNonSafetyBytes && seen.messages <= caps.maxNonSafetyMessages
            && |after.schedulers| <= caps.maxActiveSessions
  {
    var after, events := After(p, caps, ops), Events(p, caps, ops);
    forall i | 0 <= i < |after.order|
      ensures after.order[i] in after.schedulers
      ensures ZoneLoad(after, after.order[i]) == ObservedAll(Account(0, 0), events, after.order[i])
    {
      RunObserved(p, caps, ops, after.order[i]);
      assert after.order[i] !in p.schedulers;
    }
    SumIsTotal(after.order, after, events);
    OrderSize(after.order, after.schedulers.Keys);
  }

  lemma {:induction false} OrderSize(names: seq<string>, keys: set<string>)
    requires forall k :: k in keys ==> k in names
    ensures |keys| <= |names|
  {
    if names == [] {
      assert keys == {};
    } else {
      var rest := names[1..];
      assert forall k :: k in keys - {names[0]} ==> k in rest;
      OrderSize(rest, keys - {names[0]});
    }
  }

  // ---------- Zones in turn ----------

  // What matters to the order of service before one operation, and what the operation shows.
  datatype View<+T> = View(order: seq<string>, backlog: seq<bool>, cursor: nat, event: Event<T>)

  ghost function ViewOf<T>(p: Process<T>, caps: Caps, op: Op<T>): View<T>
    requires ProcessInv(p, caps)
  {
    View(p.order, ZoneBacklog(p), p.cursor, EventOf(p, caps, op))
  }

  ghost function Views<T>(p: Process<T>, caps: Caps, ops: seq<Op<T>>): (views: seq<View<T>>)
    requires ProcessInv(p, caps) && LegalRun(p, caps, ops)
    ensures |views| == |ops|
    decreases |ops|
  {
    if ops == [] then [] else [ViewOf(p, caps, ops[0])] + Views(Step(p, caps, ops[0]), caps, ops[1..])
  }

  // A delivery serves the first zone with work from the cursor on.
  ghost predicate ServesNext<T>(v: View<T>) {
    var turn := RoundRobin.Turn(v.backlog, v.cursor);
    && RoundRobin.Successful(turn) && |v.backlog| == |v.order|
    && v.event.Delivered? && v.event.message.zoneId == Some(v.order[RoundRobin.Served(turn)])
  }

  // Where the cursor stands after the operation, if the order stays as it is.
  ghost predicate MovesTo<T>(v: View<T>, order: seq<string>, cursor: nat) {
    order == v.order ==>
      cursor == if v.event.Delivered? && ServesNext(v) then RoundRobin.NextCursor(RoundRobin.Turn(v.backlog, v.cursor)) else v.cursor
  }

  ghost predicate Linked<T>(views: seq<View<T>>) {
    && (forall i :: 0 <= i < |views| && views[i].event.Delivered? ==> ServesNext(views[i]))
    && (forall i :: 0 < i < |views| ==> MovesTo(views[i - 1], views[i].order, views[i].cursor))
  }

  lemma DequeueServes<T>(p: Process<T>)
    requires OrderLists(p) && ZonesKept(p) && NextZone(p).Some?
    ensures DeliveryFrom(p, NextZone(p).value).zoneId == Some(p.order[NextZone(p).value])
  {
    var zone := p.order[NextZone(p).value];
    var s := p.schedulers[zone];
    ZoneDelivers(s);
    var c := SERVICE_CYCLE[NextSlot(s, None).value];
    TakeMembers(s, c);
    var i :| 0 <= i < |Queued(s, c)| && Queued(s, c)[i] == HeadOf(s, c);
    assert Homed(s, zone);
  }

  lemma DequeueMoves<T>(p: Process<T>, token: CompletionToken)
    requires OrderLists(p) && ZonesKept(p)
    ensures var (v, after) := (View(p.order, ZoneBacklog(p), p.cursor, DequeueEvent(p)), DequeueFrom(p, token));
            (v.event.Delivered? ==> ServesNext(v)) && MovesTo(v, after.order, after.cursor)
  {
    if NextZone(p).Some? {
      DequeueServes(p);
    }
  }

  lemma UnregisterMoves<T>(p: Process<T>, zone: string)
    requires OrderLists(p)
    ensures Unregister(p, zone).order == p.order ==> Unregister(p, zone).cursor == p.cursor
  {
    if zone in p.schedulers {
      UnregisterOrder(p, zone);
    }
  }

  lemma StepMoves<T>(p: Process<T>, caps: Caps, op: Op<T>)
    requires ProcessInv(p, caps) && Legal(p, op)
    ensures ViewOf(p, caps, op).event.Delivered? ==> ServesNext(ViewOf(p, caps, op))
    ensures MovesTo(ViewOf(p, caps, op), Step(p, caps, op).order, Step(p, caps, op).cursor)
  {
    StepIs(p, caps, op);
    match op
    case RegisterOp(zone) => RegisterMoves(p, caps, zone);
    case UnregisterOp(zone) => UnregisterMoves(p, zone);
    case EnqueueOp(m) => EnqueueMoves(p, caps, m);
    case DequeueOp(token) => DequeueMoves(p, token);
    case CompleteOp(token) => CompleteMoves(p, token);
  }

  lemma RegisterMoves<T>(p: Process<T>, caps: Caps, zone: string)
    ensures Register(p, caps, zone).0.cursor == p.cursor && !RegisterEvent(p, caps, zone).Delivered?
  {
  }

  lemma EnqueueMoves<T>(p: Process<T>, caps: Caps, m: Message<T>)
    ensures EnqueueIn(p, caps, m).cursor == p.cursor && !EnqueueEvent(m, DecideIn(p, caps, m)).Delivered?
  {
  }

  lemma CompleteMoves<T>(p: Process<T>, token: CompletionToken)
    ensures CompleteIn(p, token).cursor == p.cursor && !CompleteEvent(p, token).Delivered?
  {
  }

  lemma LinkedCons<T>(v: View<T>, rest: seq<View<T>>)
    requires Linked(rest) && (v.event.Delivered? ==> ServesNext(v))
    requires rest != [] ==> MovesTo(v, rest[0].order, rest[0].cursor)
    ensures Linked([v] + rest)
  {
    var views := [v] + rest;
    forall i | 0 < i < |views| ensures MovesTo(views[i - 1], views[i].order, views[i].cursor) {
      assert i > 1 ==> views[i] == rest[i - 1] && views[i - 1] == rest[i - 2];
    }
  }

  lemma {:induction false} ViewsLinked<T>(p: Process<T>, caps: Caps, ops: seq<Op<T>>)
    requires ProcessInv(p, caps) && LegalRun(p, caps, ops)
    ensures Linked(Views(p, caps, ops))
    decreases |ops|
  {
    if ops != [] {
      StepMoves(p, caps, ops[0]);
      ViewsLinked(Step(p, caps, ops[0]), caps, ops[1..]);
      LinkedCons(ViewOf(p, caps, ops[0]), Views(Step(p, caps, ops[0]), caps, ops[1..]));
    }
  }

  // No zone enters or leaves the order, and the one at `slot` has work at every delivery.
  ghost predicate SteadyZones<T>(views: seq<View<T>>, order: seq<string>, slot: nat) {
    slot < |order| && forall i :: 0 <= i < |views| ==> Steady(views[i], order, slot)
  }

  ghost predicate Steady<T>(v: View<T>, order: seq<string>, slot: nat) {
    v.order == order && (v.event.Delivered? ==> slot < |v.backlog| && v.backlog[slot])
  }

  ghost function Turns<T>(views: seq<View<T>>): seq<RoundRobin.Turn> {
    if views == [] then []
    else if views[0].event.Delivered? then [RoundRobin.Turn(views[0].backlog, views[0].cursor)] + Turns(views[1..])
    else Turns(views[1..])
  }

  ghost function Deliveries<T>(views: seq<View<T>>): nat {
    if views == [] then 0 else RoundRobin.Bit(views[0].event.Delivered?) + Deliveries(views[1..])
  }

  ghost function DeliveriesTo<T>(views: seq<View<T>>, zone: string): nat {
    if views == [] then 0
    else RoundRobin.Bit(views[0].event.Delivered? && views[0].event.message.zoneId == Some(zone)) + DeliveriesTo(views[1..], zone)
  }

  lemma LinkedTail<T>(views: seq<View<T>>, order: seq<string>, slot: nat)
    requires Linked(views) && SteadyZones(views, order, slot) && views != []
    ensures Linked(views[1..]) && SteadyZones(views[1..], order, slot)
    ensures |views| > 1 ==> MovesTo(views[0], views[1].order, views[1].cursor)
  {
    var rest := views[1..];
    forall i | 0 <= i < |rest| ensures Steady(rest[i], order, slot) && (rest[i].event.Delivered? ==> ServesNext(rest[i])) {
      assert rest[i] == views[i + 1];
    }
    forall i | 0 < i < |rest| ensures MovesTo(rest[i - 1], rest[i].order, rest[i].cursor) {
      assert rest[i] == views[i + 1] && rest[i - 1] == views[i];
    }
  }

  lemma {:induction false} TurnsChained<T>(views: seq<View<T>>, order: seq<string>, slot: nat)
    requires Linked(views) && SteadyZones(views, order, slot)
    ensures var turns := Turns(views);
            && RoundRobin.Chained(turns, |order|) && |turns| == Deliveries(views)
            && (turns != [] ==> turns[0].cursor == views[0].cursor)
            && forall t :: 0 <= t < |turns| ==> turns[t].available[slot]
  {
    if views != [] {
      LinkedTail(views, order, slot);
      TurnsChained(views[1..], order, slot);
      assert Steady(views[0], order, slot) && (|views| > 1 ==> Steady(views[1], order, slot));
      if views[0].event.Delivered? {
        RoundRobin.ChainedCons(RoundRobin.Turn(views[0].backlog, views[0].cursor), Turns(views[1..]), |order|);
      }
    }
  }

  lemma {:induction false} TurnsServe<T>(views: seq<View<T>>, order: seq<string>, slot: nat)
    requires Linked(views) && SteadyZones(views, order, slot) && RoundRobin.Chained(Turns(views), |order|)
    requires forall i, j :: 0 <= i < j < |order| ==> order[i] != order[j]
    ensures RoundRobin.ServedMarked(Turns(views), RoundRobin.OnlySlot(|order|, slot)) == DeliveriesTo(views, order[slot])
  {
    if views != [] {
      LinkedTail(views, order, slot);
      TurnsChained(views[1..], order, slot);
      TurnsServe(views[1..], order, slot);
      assert Steady(views[0], order, slot);
      if views[0].event.Delivered? {
        assert Turns(views)[1..] == Turns(views[1..]);
      }
    }
  }

  /** While the zone order stands still, a zone with work is served within as many deliveries as there are zones. */
  lemma ZoneServedInTurn<T>(p: Process<T>, caps: Caps, ops: seq<Op<T>>, order: seq<string>, slot: nat)
    requires ProcessInv(p, caps) && LegalRun(p, caps, ops) && SteadyZones(Views(p, caps, ops), order, slot)
    requires Deliveries(Views(p, caps, ops)) >= |order|
    ensures DeliveriesTo(Views(p, caps, ops), order[slot]) >= 1
  {
    ViewsLinked(p, caps, ops);
    ServedInTurn(Views(p, caps, ops), p.order, slot);
  }

  lemma ServedInTurn<T>(views: seq<View<T>>, order: seq<string>, slot: nat)
    requires Linked(views) && SteadyZones(views, order, slot) && Deliveries(views) >= |order|
    requires forall i, j :: 0 <= i < j < |order| ==> order[i] != order[j]
    ensures DeliveriesTo(views, order[slot]) >= 1
  {
    TurnsChained(views, order, slot);
    TurnsServe(views, order, slot);
    RoundRobin.MarkedBlock(RoundRobin.OnlySlot(|order|, slot), slot, slot + 1);
    RoundRobin.FairService(Turns(views), RoundRobin.OnlySlot(|order|, slot));
  }
}
