/**
 * Process admission as the program runs it: a scheduler object per zone and the books of
 * ProcessBooks. Every method is tied to ProcessModel, whose totals are sums over the zones.
 */
module ProcessAdmission {
  import opened Options
  import opened Admission
  import opened SchedulerModel
  import opened ProcessModel
  import opened ProcessBooks
  import opened CoalescingIndex
  import opened ZoneDrain
  import opened Scheduler
  import opened ProcessVerdicts
  import RoundRobin

  datatype DequeueResult<+T> = Idle | Serving(work: Work<T>) | LostZoneIdentity

  datatype ProcessCompletion = DeliveryCompleted | DeliveryNotInFlight | ZoneNotRegistered

  // A delivery belongs to the zone whose scheduler made it.
  function Identified<T>(zone: string, work: Work<T>): DequeueResult<T> {
    if work.message.zoneId == Some(zone) then Serving(work) else LostZoneIdentity
  }

  // As many zones are registered as the order lists.
  lemma {:induction false} DistinctSize(names: seq<string>, keys: set<string>)
    requires forall i, j :: 0 <= i < j < |names| ==> names[i] != names[j]
    requires forall k :: k in keys <==> k in names
    ensures |keys| == |names|
  {
    if names == [] {
      assert keys == {};
    } else {
      var rest := names[1..];
      assert forall k :: k in keys - {names[0]} <==> k in rest;
      DistinctSize(rest, keys - {names[0]});
    }
  }

  ghost function WithScheduler<T>(p: Process<T>, zone: string, s: State<T>): Process<T> {
    p.(schedulers := p.schedulers[zone := s])
  }

  lemma BooksOutsideSafety<T>(s: State<T>, books: Books, entries: seq<AuthorityQueue<T>>)
    requires Balanced(s, books, entries)
    ensures NonSafetyBytes(s) == books.authority.bytes + books.liveness.bytes + books.diagnostic.bytes
    ensures NonSafetyMessages(s) == books.authority.messages + books.liveness.messages + books.diagnostic.messages
  {
    assert books.Of(Authority) == Held(s, Authority) && books.Of(Liveness) == Held(s, Liveness);
    assert books.Of(Diagnostic) == Held(s, Diagnostic);
  }

  // What is booked for an accepted message: nothing for a safety message.
  ghost predicate EnqueuePosted<T>(m: Message<T>, zone: string, s: State<T>, after: State<T>,
                                   indexes: map<string, Index<T>>, bytes: int, messages: int,
                                   indexes': map<string, Index<T>>, bytes': int, messages': int)
    requires zone in indexes
  {
    if m.messageClass.Safety? then indexes' == indexes && bytes' == bytes && messages' == messages
    else && indexes' == indexes[zone := Noted(indexes[zone], m)]
         && bytes' == bytes + NonSafetyBytes(after) - NonSafetyBytes(s)
         && messages' == messages + NonSafetyMessages(after) - NonSafetyMessages(s)
  }

  lemma EnqueueKeepsBooks<T>(p: Process<T>, m: Message<T>, zone: string,
                             indexes: map<string, Index<T>>, flights: seq<InFlight<T>>, bytes: int, messages: int,
                             indexes': map<string, Index<T>>, bytes': int, messages': int)
    requires OrderLists(p) && ZonesKept(p) && Booked(p, indexes, flights, bytes, messages)
    requires m.zoneId == Some(zone) && zone in p.schedulers && Validate(m).None?
    requires EnqueuePosted(m, zone, p.schedulers[zone], Insert(p.schedulers[zone], m), indexes, bytes, messages, indexes', bytes', messages')
    ensures Booked(WithScheduler(p, zone, Insert(p.schedulers[zone], m)), indexes', flights, bytes', messages')
  {
    PostedIs(m, zone, p.schedulers[zone], indexes, bytes, messages, indexes', bytes', messages');
    EnqueueBooked(p, m, indexes, flights, bytes, messages, indexes', bytes', messages');
  }

  lemma AcceptedIn<T>(p: Process<T>, caps: Caps, m: Message<T>, zone: string)
    requires m.zoneId == Some(zone) && zone in p.schedulers && DecideIn(p, caps, m).Accepts()
    ensures Validate(m).None?
    ensures EnqueueIn(p, caps, m) == WithScheduler(p, zone, Insert(p.schedulers[zone], m))
  {
  }

  lemma RefusedIn<T>(p: Process<T>, caps: Caps, m: Message<T>)
    requires Addressed(p, m) && !m.messageClass.Safety? && OverCap(p, caps, m)
    ensures DecideIn(p, caps, m) == CapVerdict(m.messageClass) && EnqueueIn(p, caps, m) == p
  {
  }

  // For a safety message the change is nil, so booking it or not comes to the same.
  lemma PostedIs<T>(m: Message<T>, zone: string, s: State<T>, indexes: map<string, Index<T>>, bytes: int, messages: int,
                    indexes': map<string, Index<T>>, bytes': int, messages': int)
    requires zone in indexes && EnqueuePosted(m, zone, s, Insert(s, m), indexes, bytes, messages, indexes', bytes', messages')
    ensures indexes' == indexes[zone := Noted(indexes[zone], m)]
    ensures bytes' == bytes + NonSafetyBytes(Insert(s, m)) - NonSafetyBytes(s)
    ensures messages' == messages + NonSafetyMessages(Insert(s, m)) - NonSafetyMessages(s)
  {
    if m.messageClass.Safety? {
      SafetyOutsideTheCap(s, m);
    }
  }

  lemma ReadyIsQueued<T>(s: State<T>)
    requires CursorsInRange(s)
    ensures NextSlot(s, None).Some? <==> HasQueued(s)
    ensures NextSlot(s, None).None? <==> forall c :: !Ready(s, None, c)
  {
    if NextSlot(s, None).None? {
      forall c ensures Queued(s, c) == [] {
        assert !ServiceBacklog(s, None)[FirstSlot(c)];
      }
    }
  }

  lemma SkipOne<T>(p: Process<T>, offset: nat)
    requires OrderLists(p) && offset < |p.order| && Skipped(p, offset)
    requires !HasQueued(p.schedulers[p.order[RoundRobin.Slot(p.cursor, offset, |p.order|)]])
    ensures Skipped(p, offset + 1)
  {
  }

  lemma NextZoneIs<T>(p: Process<T>, offset: nat)
    requires OrderLists(p) && offset < |p.order|
    requires HasQueued(p.schedulers[p.order[RoundRobin.Slot(p.cursor, offset, |p.order|)]])
    requires Skipped(p, offset)
    ensures NextZone(p) == Some(RoundRobin.Slot(p.cursor, offset, |p.order|))
  {
    RoundRobin.ScanIs(ZoneBacklog(p), p.cursor, offset);
  }

  lemma NoZone<T>(p: Process<T>)
    requires OrderLists(p) && Skipped(p, |p.order|)
    ensures AllIdle(p)
  {
    if p.order != [] {
      RoundRobin.NothingScanned(ZoneBacklog(p), p.cursor);
    }
    assert NextZone(p).None?;
  }

  ghost predicate AllIdle<T>(p: Process<T>) {
    forall z :: z in p.schedulers ==> !HasQueued(p.schedulers[z])
  }

  // Delivering strikes the index entry of the message's key, if that entry is the message.
  function StruckIfSame<T(==)>(index: Index<T>, m: Message<T>): Index<T> {
    var key := CoalescingKey(m);
    if key.Some? && Lookup(index, key) == Some(m) then index - {key.value} else index
  }

  ghost predicate Filed<T>(zone: string, work: Work<T>, indexes: map<string, Index<T>>, flights: seq<InFlight<T>>,
                           indexes': map<string, Index<T>>, flights': seq<InFlight<T>>)
    requires zone in indexes
  {
    && indexes' == indexes[zone := StruckIfSame(indexes[zone], work.message)]
    && flights' == flights + [InFlight(work.completionToken, work.message)]
  }

  lemma DequeueKeeps<T>(p: Process<T>, caps: Caps, slot: nat, work: Work<T>,
                        indexes: map<string, Index<T>>, flights: seq<InFlight<T>>, bytes: int, messages: int)
    requires ProcessInv(p, caps) && Booked(p, indexes, flights, bytes, messages) && slot < |p.order|
    requires NextSlot(p.schedulers[p.order[slot]], None).Some?
    requires Delivery(p.schedulers[p.order[slot]], None) == Some(work.message)
    requires forall i :: 0 <= i < |flights| ==> flights[i].token != work.completionToken
    ensures var (zone, after) := (p.order[slot], ServedAt(p, slot, work.completionToken));
            && Identified(zone, work) == Serving(work)
            && ProcessInv(after, caps)
            && Booked(after, indexes[zone := StruckIfSame(indexes[zone], work.message)],
                      flights + [InFlight(work.completionToken, work.message)], bytes, messages)
  {
    var zone := p.order[slot];
    DeliveryHomed(p.schedulers[zone], zone);
    UnknownToken(flights, p, work.completionToken);
    ServeInv(p, caps, slot, work.completionToken);
    DeliveryParts(p.schedulers[zone], work.completionToken, indexes[zone]);
    DequeueBooked(p, zone, work.completionToken, RoundRobin.Slot(slot, 1, |p.order|), indexes, flights, bytes, messages);
  }

  // The zone at a slot of the order has something queued and delivers it.
  ghost predicate ServesSlot<T>(p: Process<T>, slot: nat, after: Process<T>, r: DequeueResult<T>)
    requires OrderLists(p) && slot < |p.order|
  {
    var s := p.schedulers[p.order[slot]];
    && CursorsInRange(s) && HasQueued(s)
    && r.Serving? && Delivery(s, None) == Some(r.work.message)
    && after == ServedAt(p, slot, r.work.completionToken)
  }

  ghost predicate ZoneKnown<T>(p: Process<T>, f: InFlight<T>) {
    f.message.zoneId.Some? && f.message.zoneId.value in p.schedulers
  }

  ghost function LandedIn<T>(p: Process<T>, f: InFlight<T>): Process<T>
    requires ZoneKnown(p, f)
  {
    WithScheduler(p, f.message.zoneId.value, SchedulerModel.Complete(p.schedulers[f.message.zoneId.value], f.token))
  }

  lemma LandingKeeps<T>(p: Process<T>, caps: Caps, i: nat,
                                            indexes: map<string, Index<T>>, flights: seq<InFlight<T>>, bytes: int, messages: int,
                                            after: Process<T>, flights': seq<InFlight<T>>, bytes': int, messages': int)
    requires ProcessInv(p, caps) && Booked(p, indexes, flights, bytes, messages) && i < |flights|
    requires ZoneKnown(p, flights[i]) ==> after == LandedIn(p, flights[i])
    requires flights' == Without(flights, i)
    requires ZoneKnown(p, flights[i]) ==>
               bytes' == bytes - ByteShare(flights[i].message) && messages' == messages - MessageShare(flights[i].message)
    ensures ZoneKnown(p, flights[i]) && Home(p, flights[i].token) < |p.order| && after == CompleteIn(p, flights[i].token)
    ensures ProcessInv(after, caps) && Booked(after, indexes, flights', bytes', messages')
  {
    LandingParts(p, i, flights);
    CompleteBooked(p, i, indexes, flights, bytes, messages, bytes', messages');
    CompleteInInv(p, caps, flights[i].token);
  }

  lemma LandingParts<T>(p: Process<T>, i: nat, flights: seq<InFlight<T>>)
    requires OrderLists(p) && ZonesKept(p) && FlightsMatch(flights, p.schedulers) && i < |flights|
    ensures ZoneKnown(p, flights[i]) && Home(p, flights[i].token) < |p.order|
    ensures CompleteIn(p, flights[i].token) == LandedIn(p, flights[i])
  {
    FlightHome(flights, p, i);
  }

  lemma UnknownZone<T>(p: Process<T>, zone: string)
    requires OrderLists(p) && zone !in p.schedulers
    ensures Unregister(p, zone) == p
  {
  }

  lemma UnregisterKeeps<T>(p: Process<T>, caps: Caps, zone: string,
                           indexes: map<string, Index<T>>, flights: seq<InFlight<T>>, bytes: int, messages: int,
                           after: Process<T>, indexes': map<string, Index<T>>, flights': seq<InFlight<T>>,
                           bytes': int, messages': int)
    requires ProcessInv(p, caps) && Booked(p, indexes, flights, bytes, messages) && zone in p.schedulers
    requires after == Unregister(p, zone) && indexes' == indexes - {zone} && flights' == Elsewhere(flights, zone)
    requires bytes' == bytes - NonSafetyBytes(p.schedulers[zone]) && messages' == messages - NonSafetyMessages(p.schedulers[zone])
    ensures ProcessInv(after, caps) && Booked(after, indexes', flights', bytes', messages')
  {
    UnregisterBooked(p, zone, indexes, flights, bytes, messages, bytes', messages');
    UnregisterInv(p, caps, zone);
  }

  // What a scheduler holds less, and no more, has left the totals.
  ghost predicate Returned<T>(s: State<T>, bytes: int, messages: int, after: State<T>, bytes': int, messages': int) {
    && bytes - bytes' == NonSafetyBytes(s) - NonSafetyBytes(after)
    && messages - messages' == NonSafetyMessages(s) - NonSafetyMessages(after)
  }

  // The zones at the first places from the cursor on have nothing queued.
  ghost predicate Skipped<T>(p: Process<T>, offset: nat)
    requires OrderLists(p) && offset <= |p.order|
  {
    forall k :: 0 <= k < offset ==> !ZoneBacklog(p)[RoundRobin.Slot(p.cursor, k, |p.order|)]
  }

  // The cap check sees the prior message in the index and the totals in the books.
  lemma CapCheck<T>(p: Process<T>, caps: Caps, m: Message<T>, indexes: map<string, Index<T>>,
                    flights: seq<InFlight<T>>, bytes: int, messages: int)
    requires ZonesKept(p) && Booked(p, indexes, flights, bytes, messages) && Addressed(p, m)
    ensures var prior := Lookup(indexes[m.zoneId.value], CoalescingKey(m));
            OverCap(p, caps, m) <==> messages + 1 - PriorCount(prior) > caps.maxNonSafetyMessages ||
                                     bytes + m.byteLength - PriorBytes(prior) > caps.maxNonSafetyBytes
  {
    IndexFindsPrior(indexes[m.zoneId.value], p.schedulers[m.zoneId.value], m);
  }

  class ProcessAdmissionControl<T(==)> {
    const caps: Caps
    var schedulersByZone: map<string, AdmissionScheduler<T>>
    var queuedCoalescibleMessagesByZone: map<string, Index<T>>
    var inFlightMessages: seq<InFlight<T>>
    var zoneOrder: seq<string>
    var zoneCursor: nat
    var nonSafetyBytes: int
    var nonSafetyMessages: int
    // What the zones hold, without the books.
    ghost var held: Process<T>

    ghost predicate SchedulersMirror()
      reads `held, `zoneOrder, `zoneCursor, `schedulersByZone, schedulersByZone.Values
    {
      && held.order == zoneOrder && held.cursor == zoneCursor && held.schedulers.Keys == schedulersByZone.Keys
      && (forall z :: z in schedulersByZone ==> Mirrors(schedulersByZone[z], held.schedulers[z]))
      && (forall y, z :: y in schedulersByZone && z in schedulersByZone && y != z ==> schedulersByZone[y] != schedulersByZone[z])
    }

    static ghost predicate Mirrors(scheduler: AdmissionScheduler<T>, s: State<T>)
      reads scheduler
    {
      scheduler.Valid() && scheduler.Abs() == s
    }

    // The same for every zone but one, whose scheduler is at work.
    ghost predicate OthersMirror(zone: string)
      requires zone in schedulersByZone
      reads `held, `zoneOrder, `zoneCursor, `schedulersByZone, schedulersByZone.Values - {schedulersByZone[zone]}
    {
      && held.order == zoneOrder && held.cursor == zoneCursor && held.schedulers.Keys == schedulersByZone.Keys
      && (forall y, z :: y in schedulersByZone && z in schedulersByZone && y != z ==> schedulersByZone[y] != schedulersByZone[z])
      && (forall z :: z in schedulersByZone && z != zone ==> Mirrors(schedulersByZone[z], held.schedulers[z]))
    }

    // Records what a zone's scheduler holds after it has been at work.
    ghost method Adopt(zone: string, s: State<T>)
      requires zone in schedulersByZone && OthersMirror(zone) && Mirrors(schedulersByZone[zone], s)
      modifies this
      ensures SchedulersMirror() && held == WithScheduler(old(held), zone, s)
      ensures unchanged(`schedulersByZone, `zoneOrder, `zoneCursor)
      ensures unchanged(`queuedCoalescibleMessagesByZone, `inFlightMessages, `nonSafetyBytes, `nonSafetyMessages)
    {
      held := WithScheduler(held, zone, s);
    }

    ghost predicate BooksMatch()
      reads `held, `queuedCoalescibleMessagesByZone, `inFlightMessages, `nonSafetyBytes, `nonSafetyMessages
    {
      Booked(held, queuedCoalescibleMessagesByZone, inFlightMessages, nonSafetyBytes, nonSafetyMessages)
    }

    ghost predicate Valid()
      reads this, schedulersByZone.Values
    {
      SchedulersMirror() && ProcessInv(held, caps) && BooksMatch()
    }

    constructor (caps: Caps)
      requires caps.maxActiveSessions > 0 && caps.maxNonSafetyBytes > 0 && caps.maxNonSafetyMessages > 0
      ensures Valid() && this.caps == caps
      ensures held == Process([], map[], 0)
    {
      this.caps := caps;
      schedulersByZone, queuedCoalescibleMessagesByZone := map[], map[];
      inFlightMessages, zoneOrder, zoneCursor := [], [], 0;
      nonSafetyBytes, nonSafetyMessages := 0, 0;
      held := Process([], map[], 0);
    }

    method RegisterZone(zone: string) returns (r: Registration)
      requires Valid()
      modifies this
      ensures Valid()
      ensures (held, r) == Register(old(held), caps, zone) && IsRegistration(old(held), caps, zone, held, r)
      ensures forall z :: z in old(schedulersByZone) ==> z in schedulersByZone && schedulersByZone[z] == old(schedulersByZone)[z]
      ensures forall z :: z in schedulersByZone && z !in old(schedulersByZone) ==> fresh(schedulersByZone[z])
    {
      ghost var p := held;
      r := AdmitZone(zone);
      RegisterMeans(p, caps, zone);
    }

    // Opens the zone unless it is open already or there is no room.
    method AdmitZone(zone: string) returns (r: Registration)
      requires Valid()
      modifies this
      ensures Valid()
      ensures (held, r) == Register(old(held), caps, zone)
      ensures forall z :: z in old(schedulersByZone) ==> z in schedulersByZone && schedulersByZone[z] == old(schedulersByZone)[z]
      ensures forall z :: z in schedulersByZone && z !in old(schedulersByZone) ==> fresh(schedulersByZone[z])
    {
      if zone == "" {
        return CapacityRefused;
      }
      if zone in schedulersByZone {
        return ZoneAdmitted;
      }
      DistinctSize(zoneOrder, schedulersByZone.Keys);
      if |schedulersByZone| >= caps.maxActiveSessions {
        return CapacityRefused;
      }
      var scheduler := new AdmissionScheduler<T>();
      ghost var before, s := held, scheduler.Abs();
      EmptyUnique(s, Empty<T>());
      OpenZone(zone, scheduler, s);
      AddZone(before, caps, zone, s);
      RegisterBooked(before, zone, s, old(queuedCoalescibleMessagesByZone), inFlightMessages, nonSafetyBytes, nonSafetyMessages);
      r := ZoneAdmitted;
    }

    method OpenZone(zone: string, scheduler: AdmissionScheduler<T>, ghost s: State<T>)
      requires SchedulersMirror() && zone !in schedulersByZone
      requires scheduler !in schedulersByZone.Values && Mirrors(scheduler, s)
      modifies this
      ensures SchedulersMirror()
      ensures held == WithZone(old(held), zone, s)
      ensures schedulersByZone == old(schedulersByZone)[zone := scheduler]
      ensures unchanged(`zoneCursor, `inFlightMessages, `nonSafetyBytes, `nonSafetyMessages)
      ensures queuedCoalescibleMessagesByZone == old(queuedCoalescibleMessagesByZone)[zone := map[]]
    {
      AddScheduler(zone, scheduler, s);
      SetIndex(zone, map[]);
    }

    // Adjusts the totals and a zone's index.
    method Book(bytes: int, messages: int, zone: string, index: Index<T>)
      requires SchedulersMirror()
      modifies this
      ensures SchedulersMirror() && unchanged(`schedulersByZone, `held, `zoneOrder, `zoneCursor, `inFlightMessages)
      ensures nonSafetyBytes == old(nonSafetyBytes) + bytes && nonSafetyMessages == old(nonSafetyMessages) + messages
      ensures queuedCoalescibleMessagesByZone == old(queuedCoalescibleMessagesByZone)[zone := index]
    {
      nonSafetyMessages := nonSafetyMessages + messages;
      nonSafetyBytes := nonSafetyBytes + bytes;
      queuedCoalescibleMessagesByZone := queuedCoalescibleMessagesByZone[zone := index];
    }

    method SetIndex(zone: string, index: Index<T>)
      requires SchedulersMirror()
      modifies this
      ensures SchedulersMirror()
      ensures unchanged(`schedulersByZone, `held, `zoneOrder, `zoneCursor, `inFlightMessages, `nonSafetyBytes, `nonSafetyMessages)
      ensures queuedCoalescibleMessagesByZone == old(queuedCoalescibleMessagesByZone)[zone := index]
    {
      queuedCoalescibleMessagesByZone := queuedCoalescibleMessagesByZone[zone := index];
    }

    method AddScheduler(zone: string, scheduler: AdmissionScheduler<T>, ghost s: State<T>)
      requires SchedulersMirror() && zone !in schedulersByZone
      requires scheduler !in schedulersByZone.Values && Mirrors(scheduler, s)
      modifies this
      ensures SchedulersMirror()
      ensures unchanged(`queuedCoalescibleMessagesByZone, `inFlightMessages, `nonSafetyBytes, `nonSafetyMessages)
      ensures held == WithZone(old(held), zone, s)
      ensures schedulersByZone == old(schedulersByZone)[zone := scheduler]
    {
      assert scheduler.Valid();
      held := WithZone(held, zone, s);
      zoneOrder := zoneOrder + [zone];
      schedulersByZone := schedulersByZone[zone := scheduler];
      assert Mirrors(schedulersByZone[zone], held.schedulers[zone]);
    }

    /** Queues a message with its zone's scheduler, unless the cap on all zones together speaks against it. */
    method Enqueue(message: Message<T>) returns (result: AdmissionResult<T>)
      requires Valid()
      modifies this, schedulersByZone.Values
      ensures Valid() && unchanged(`schedulersByZone)
      ensures result == DecideIn(old(held), caps, message) && IsProcessVerdict(old(held), caps, message, result)
      ensures held == EnqueueIn(old(held), caps, message)
    {
      ProcessVerdictIff(held, caps, message, DecideIn(held, caps, message));
      if message.zoneId.None? || message.zoneId.value !in schedulersByZone {
        return Refused(GlobalCapacity);
      }
      result := EnqueueAddressed(message.zoneId.value, message);
    }

    method EnqueueAddressed(zone: string, message: Message<T>) returns (result: AdmissionResult<T>)
      requires Valid() && message.zoneId == Some(zone) && zone in schedulersByZone
      modifies this, schedulersByZone[zone]
      ensures Valid() && unchanged(`schedulersByZone)
      ensures result == DecideIn(old(held), caps, message)
      ensures held == EnqueueIn(old(held), caps, message)
    {
      var over := ExceedsCap(message, zone);
      if !message.messageClass.Safety? && over {
        RefusedIn(held, caps, message);
        return CapVerdict(message.messageClass);
      }
      result := EnqueueWithinCap(zone, message);
    }

    method EnqueueWithinCap(zone: string, message: Message<T>) returns (result: AdmissionResult<T>)
      requires Valid() && message.zoneId == Some(zone) && zone in schedulersByZone
      requires message.messageClass.Safety? || !OverCap(held, caps, message)
      modifies this, schedulersByZone[zone]
      ensures Valid() && unchanged(`schedulersByZone)
      ensures result == DecideIn(old(held), caps, message)
      ensures held == EnqueueIn(old(held), caps, message)
    {
      ghost var before := held;
      result := EnqueueInZone(zone, message);
      if result.Accepts() {
        AcceptedIn(before, caps, message, zone);
        EnqueueInInv(before, caps, message);
        EnqueueKeepsBooks(before, message, zone, old(queuedCoalescibleMessagesByZone), inFlightMessages, old(nonSafetyBytes),
                     old(nonSafetyMessages), queuedCoalescibleMessagesByZone, nonSafetyBytes, nonSafetyMessages);
      }
    }

    // The cap check, which predicts the change from the message that would be replaced.
    method ExceedsCap(message: Message<T>, zone: string) returns (over: bool)
      requires Valid() && message.zoneId == Some(zone) && zone in schedulersByZone
      ensures over == OverCap(held, caps, message)
    {
      var prior := Lookup(queuedCoalescibleMessagesByZone[zone], CoalescingKey(message));
      CapCheck(held, caps, message, queuedCoalescibleMessagesByZone, inFlightMessages, nonSafetyBytes, nonSafetyMessages);
      var messageDelta := if prior.None? then 1 else 0;
      var byteDelta := message.byteLength - if prior.Some? then prior.value.byteLength else 0;
      over := nonSafetyMessages + messageDelta > caps.maxNonSafetyMessages || nonSafetyBytes + byteDelta > caps.maxNonSafetyBytes;
    }

    // Enqueues with the zone's scheduler and books the change it reports.
    method EnqueueInZone(zone: string, message: Message<T>) returns (result: AdmissionResult<T>)
      requires SchedulersMirror() && zone in schedulersByZone && zone in queuedCoalescibleMessagesByZone
      modifies this, schedulersByZone[zone]
      ensures SchedulersMirror() && unchanged(`schedulersByZone, `zoneOrder, `zoneCursor, `inFlightMessages)
      ensures result == Decide(old(held).schedulers[zone], message)
      ensures result.Accepts() ==>
                && held == WithScheduler(old(held), zone, Insert(old(held).schedulers[zone], message))
                && EnqueuePosted(message, zone, old(held).schedulers[zone], held.schedulers[zone],
                                 old(queuedCoalescibleMessagesByZone), old(nonSafetyBytes), old(nonSafetyMessages),
                                 queuedCoalescibleMessagesByZone, nonSafetyBytes, nonSafetyMessages)
      ensures !result.Accepts() ==> unchanged(`held, `queuedCoalescibleMessagesByZone, `nonSafetyBytes, `nonSafetyMessages)
    {
      var bytesBefore, messagesBefore := NonSafetyLoad(zone);
      result := PassOn(zone, message);
      if !message.messageClass.Safety? && result.Accepts() {
        var bytesAfter, messagesAfter := NonSafetyLoad(zone);
        Book(bytesAfter - bytesBefore, messagesAfter - messagesBefore, zone, Noted(queuedCoalescibleMessagesByZone[zone], message));
      }
    }

    // What a zone's scheduler reports to hold outside the safety class.
    method NonSafetyLoad(zone: string) returns (bytes: int, messages: int)
      requires SchedulersMirror() && zone in schedulersByZone
      ensures bytes == NonSafetyBytes(held.schedulers[zone]) && messages == NonSafetyMessages(held.schedulers[zone])
    {
      var books := schedulersByZone[zone].Accounts();
      assert Mirrors(schedulersByZone[zone], held.schedulers[zone]);
      BooksOutsideSafety(held.schedulers[zone], books, schedulersByZone[zone].authorityByPrincipal);
      bytes := books.authority.bytes + books.liveness.bytes + books.diagnostic.bytes;
      messages := books.authority.messages + books.liveness.messages + books.diagnostic.messages;
    }

    method PassOn(zone: string, message: Message<T>) returns (result: AdmissionResult<T>)
      requires SchedulersMirror() && zone in schedulersByZone
      modifies this, schedulersByZone[zone]
      ensures SchedulersMirror() && unchanged(`schedulersByZone, `zoneOrder, `zoneCursor)
      ensures unchanged(`queuedCoalescibleMessagesByZone, `inFlightMessages, `nonSafetyBytes, `nonSafetyMessages)
      ensures result == Decide(old(held).schedulers[zone], message)
      ensures result.Accepts() ==> held == WithScheduler(old(held), zone, Insert(old(held).schedulers[zone], message))
      ensures !result.Accepts() ==> unchanged(`held)
    {
      var scheduler := schedulersByZone[zone];
      assert Mirrors(scheduler, held.schedulers[zone]) && OthersMirror(zone);
      result := scheduler.Enqueue(message);
      if result.Accepts() {
        Adopt(zone, Insert(held.schedulers[zone], message));
      }
    }

    /** Serves the first zone, from the cursor on, that has anything queued. */
    method Dequeue() returns (r: DequeueResult<T>)
      requires Valid()
      modifies this, schedulersByZone.Values
      ensures Valid() && unchanged(`schedulersByZone)
      ensures !r.LostZoneIdentity?
      ensures r.Idle? <==> AllIdle(old(held))
      ensures r.Idle? ==> unchanged(`held)
      ensures r.Serving? ==>
                && NextZone(old(held)).Some?
                && Delivery(old(held).schedulers[old(held).order[NextZone(old(held)).value]], None) == Some(r.work.message)
                && fresh(r.work.completionToken) && held == DequeueFrom(old(held), r.work.completionToken)
    {
      ghost var p := held;
      if |zoneOrder| == 0 {
        NoZone(p);
        return Idle;
      }
      ghost var offset;
      var served;
      offset, served := ScanZones();
      if served.None? {
        NoZone(p);
        return Idle;
      }
      NextZoneIs(p, offset);
      r := served.value;
    }

    method ScanZones() returns (ghost offset: nat, r: Option<DequeueResult<T>>)
      requires Valid() && |zoneOrder| > 0
      modifies this, schedulersByZone.Values
      ensures Valid() && unchanged(`schedulersByZone) && offset <= |old(held).order| && Skipped(old(held), offset)
      ensures r.None? ==> unchanged(`held) && offset == |zoneOrder|
      ensures r.Some? ==>
                && offset < |old(held).order|
                && ServesSlot(old(held), RoundRobin.Slot(old(held).cursor, offset, |old(held).order|), held, r.value)
                && fresh(r.value.work.completionToken)
    {
      ghost var p := held;
      for i := 0 to |zoneOrder|
        invariant Valid() && held == p && unchanged(`schedulersByZone, `zoneOrder)
        invariant Skipped(p, i)
      {
        r := TryZone(i, RoundRobin.Slot(zoneCursor, i, |zoneOrder|));
        if r.Some? {
          return i, r;
        }
      }
      return |zoneOrder|, None;
    }

    // Serves the zone that many places behind the cursor, or finds it empty.
    method TryZone(ghost i: nat, index: nat) returns (r: Option<DequeueResult<T>>)
      requires Valid() && i < |zoneOrder| && index == RoundRobin.Slot(zoneCursor, i, |zoneOrder|) && Skipped(held, i)
      modifies this, schedulersByZone.Values
      ensures Valid() && unchanged(`schedulersByZone)
      ensures r.None? ==> unchanged(`held, `zoneOrder) && Skipped(held, i + 1)
      ensures r.Some? ==> ServesSlot(old(held), index, held, r.value) && fresh(r.value.work.completionToken)
    {
      ghost var p := held;
      r := DequeueZoneAt(index);
      if r.None? {
        SkipOne(p, i);
      }
    }

    method DequeueZoneAt(index: nat) returns (r: Option<DequeueResult<T>>)
      requires Valid() && index < |zoneOrder|
      modifies this, schedulersByZone[zoneOrder[index]]
      ensures Valid() && unchanged(`schedulersByZone, `zoneOrder)
      ensures r.None? <==> !HasQueued(old(held).schedulers[zoneOrder[index]])
      ensures r.None? ==> unchanged(`held)
      ensures r.Some? ==> ServesSlot(old(held), index, held, r.value) && fresh(r.value.work.completionToken)
    {
      ghost var before := held;
      ReadyIsQueued(before.schedulers[zoneOrder[index]]);
      ghost var work;
      work, r := ServeZone(index);
      if work.Some? {
        DequeueKeeps(before, caps, index, work.value, old(queuedCoalescibleMessagesByZone), old(inFlightMessages),
                     nonSafetyBytes, nonSafetyMessages);
      }
    }

    // Dequeues from a zone and, if the delivery belongs to it, files the delivery.
    method ServeZone(index: nat) returns (ghost work: Option<Work<T>>, r: Option<DequeueResult<T>>)
      requires SchedulersMirror() && index < |zoneOrder| && zoneOrder[index] in schedulersByZone
      requires zoneOrder[index] in queuedCoalescibleMessagesByZone
      modifies this, schedulersByZone[zoneOrder[index]]
      ensures SchedulersMirror() && unchanged(`schedulersByZone, `zoneOrder, `nonSafetyBytes, `nonSafetyMessages)
      ensures CursorsInRange(old(held).schedulers[zoneOrder[index]])
      ensures work.None? <==> NextSlot(old(held).schedulers[zoneOrder[index]], None).None?
      ensures work.None? ==> r.None? && unchanged(`held, `queuedCoalescibleMessagesByZone, `inFlightMessages)
      ensures work.Some? ==>
                && r == Some(Identified(zoneOrder[index], work.value))
                && fresh(work.value.completionToken)
                && Delivery(old(held).schedulers[zoneOrder[index]], None) == Some(work.value.message)
      ensures r.Some? && r.value.Serving? ==>
                && held == ServedAt(old(held), index, work.value.completionToken)
                && Filed(zoneOrder[index], work.value, old(queuedCoalescibleMessagesByZone), old(inFlightMessages),
                         queuedCoalescibleMessagesByZone, inFlightMessages)
    {
      var taken := TakeFromZone(zoneOrder[index]);
      work := taken;
      if taken.None? {
        return work, None;
      }
      var result := Identified(zoneOrder[index], taken.value);
      if result.Serving? {
        File(index, taken.value);
      }
      return work, Some(result);
    }

    // Strikes a delivered message from the index, lists its token and moves the cursor behind its zone.
    method File(index: nat, work: Work<T>)
      requires SchedulersMirror() && index < |zoneOrder| && zoneOrder[index] in queuedCoalescibleMessagesByZone
      modifies this
      ensures SchedulersMirror() && unchanged(`schedulersByZone, `zoneOrder, `nonSafetyBytes, `nonSafetyMessages)
      ensures held == old(held).(cursor := RoundRobin.Slot(index, 1, |zoneOrder|))
      ensures Filed(zoneOrder[index], work, old(queuedCoalescibleMessagesByZone), old(inFlightMessages),
                    queuedCoalescibleMessagesByZone, inFlightMessages)
    {
      SetIndex(zoneOrder[index], StruckIfSame(queuedCoalescibleMessagesByZone[zoneOrder[index]], work.message));
      MoveOn(index, InFlight(work.completionToken, work.message));
    }

    method MoveOn(index: nat, flight: InFlight<T>)
      requires SchedulersMirror() && index < |zoneOrder|
      modifies this
      ensures SchedulersMirror()
      ensures unchanged(`schedulersByZone, `zoneOrder, `queuedCoalescibleMessagesByZone, `nonSafetyBytes, `nonSafetyMessages)
      ensures held == old(held).(cursor := RoundRobin.Slot(index, 1, |zoneOrder|))
      ensures inFlightMessages == old(inFlightMessages) + [flight]
    {
      zoneCursor := (index + 1) % |zoneOrder|;
      held := held.(cursor := zoneCursor);
      inFlightMessages := inFlightMessages + [flight];
    }

    method TakeFromZone(zone: string) returns (work: Option<Work<T>>)
      requires SchedulersMirror() && zone in schedulersByZone
      modifies this, schedulersByZone[zone]
      ensures SchedulersMirror()
      ensures unchanged(`schedulersByZone, `zoneOrder, `zoneCursor)
      ensures unchanged(`queuedCoalescibleMessagesByZone, `inFlightMessages, `nonSafetyBytes, `nonSafetyMessages)
      ensures CursorsInRange(old(held).schedulers[zone])
      ensures work.None? <==> NextSlot(old(held).schedulers[zone], None).None?
      ensures work.None? ==> unchanged(`held)
      ensures work.Some? ==>
                && fresh(work.value.completionToken)
                && Delivery(old(held).schedulers[zone], None) == Some(work.value.message)
                && held == WithScheduler(old(held), zone, SchedulerModel.Dequeue(old(held).schedulers[zone], None, work.value.completionToken))
    {
      var scheduler := schedulersByZone[zone];
      assert Mirrors(scheduler, held.schedulers[zone]) && OthersMirror(zone);
      ReadyIsQueued(held.schedulers[zone]);
      work := scheduler.Dequeue(None);
      if work.Some? {
        Adopt(zone, SchedulerModel.Dequeue(held.schedulers[zone], None, work.value.completionToken));
      }
    }

    /**
     * Releases one delivery. Every token in the table belongs to a registered zone, so the
     * branch that finds its zone gone is never taken.
     */
    method Complete(token: CompletionToken) returns (r: ProcessCompletion)
      requires Valid()
      modifies this, schedulersByZone.Values
      ensures Valid() && unchanged(`schedulersByZone)
      ensures r == if Home(old(held), token) < |old(held).order| then DeliveryCompleted else DeliveryNotInFlight
      ensures held == CompleteIn(old(held), token)
    {
      var i := TokenIndex(inFlightMessages, token);
      if i == |inFlightMessages| {
        UnknownToken(inFlightMessages, held, token);
        return DeliveryNotInFlight;
      }
      r := CompleteKnown(i);
    }

    method CompleteKnown(i: nat) returns (r: ProcessCompletion)
      requires Valid() && i < |inFlightMessages|
      modifies this, schedulersByZone.Values
      ensures Valid() && unchanged(`schedulersByZone) && r == DeliveryCompleted
      ensures Home(old(held), old(inFlightMessages)[i].token) < |old(held).order|
      ensures held == CompleteIn(old(held), old(inFlightMessages)[i].token)
    {
      ghost var before := held;
      r := CompleteAt(i);
      LandingKeeps(before, caps, i, queuedCoalescibleMessagesByZone, old(inFlightMessages), old(nonSafetyBytes), old(nonSafetyMessages),
                   held, inFlightMessages, nonSafetyBytes, nonSafetyMessages);
    }

    method CompleteAt(i: nat) returns (r: ProcessCompletion)
      requires SchedulersMirror() && i < |inFlightMessages|
      modifies this, schedulersByZone.Values
      ensures SchedulersMirror() && unchanged(`schedulersByZone, `zoneOrder, `zoneCursor, `queuedCoalescibleMessagesByZone)
      ensures inFlightMessages == Without(old(inFlightMessages), i)
      ensures r == if ZoneKnown(old(held), old(inFlightMessages)[i]) then DeliveryCompleted else ZoneNotRegistered
      ensures r.DeliveryCompleted? ==>
                && held == LandedIn(old(held), old(inFlightMessages)[i])
                && nonSafetyBytes == old(nonSafetyBytes) - ByteShare(old(inFlightMessages)[i].message)
                && nonSafetyMessages == old(nonSafetyMessages) - MessageShare(old(inFlightMessages)[i].message)
    {
      var f := inFlightMessages[i];
      Drop(i);
      if f.message.zoneId.None? || f.message.zoneId.value !in schedulersByZone {
        return ZoneNotRegistered;
      }
      CompleteInZone(f.message.zoneId.value, f.token);
      Deduct(f.message);
      r := DeliveryCompleted;
    }

    method Drop(i: nat)
      requires i < |inFlightMessages|
      modifies this
      ensures unchanged(`schedulersByZone, `zoneOrder, `zoneCursor, `held)
      ensures unchanged(`queuedCoalescibleMessagesByZone, `nonSafetyBytes, `nonSafetyMessages)
      ensures inFlightMessages == Without(old(inFlightMessages), i)
      ensures old(SchedulersMirror()) ==> SchedulersMirror()
    {
      inFlightMessages := Without(inFlightMessages, i);
    }

    // Takes a message's share out of the totals.
    method Deduct(message: Message<T>)
      modifies this
      ensures unchanged(`schedulersByZone, `zoneOrder, `zoneCursor, `held)
      ensures unchanged(`queuedCoalescibleMessagesByZone, `inFlightMessages)
      ensures nonSafetyBytes == old(nonSafetyBytes) - ByteShare(message)
      ensures nonSafetyMessages == old(nonSafetyMessages) - MessageShare(message)
      ensures old(SchedulersMirror()) ==> SchedulersMirror()
    {
      if !message.messageClass.Safety? {
        nonSafetyMessages := nonSafetyMessages - 1;
        nonSafetyBytes := nonSafetyBytes - message.byteLength;
      }
    }

    method CompleteInZone(zone: string, token: CompletionToken)
      requires SchedulersMirror() && zone in schedulersByZone
      modifies this, schedulersByZone[zone]
      ensures SchedulersMirror() && unchanged(`schedulersByZone, `zoneOrder, `zoneCursor)
      ensures unchanged(`queuedCoalescibleMessagesByZone, `inFlightMessages, `nonSafetyBytes, `nonSafetyMessages)
      ensures held == WithScheduler(old(held), zone, SchedulerModel.Complete(old(held).schedulers[zone], token))
    {
      var scheduler := schedulersByZone[zone];
      assert Mirrors(scheduler, held.schedulers[zone]) && OthersMirror(zone);
      var _ := scheduler.Complete(token);
      Adopt(zone, SchedulerModel.Complete(held.schedulers[zone], token));
    }

    /** Returns everything a zone holds and forgets the zone; the other zones keep what they hold. */
    method UnregisterZone(zone: string)
      requires Valid()
      modifies this, schedulersByZone.Values
      ensures Valid()
      ensures held == Unregister(old(held), zone)
      ensures zone in old(schedulersByZone) ==> schedulersByZone == old(schedulersByZone) - {zone}
      ensures zone !in old(schedulersByZone) ==> unchanged(this)
    {
      if zone !in schedulersByZone {
        UnknownZone(held, zone);
        return;
      }
      UnregisterKnown(zone);
    }

    method UnregisterKnown(zone: string)
      requires Valid() && zone in schedulersByZone
      modifies this, schedulersByZone[zone]
      ensures Valid()
      ensures held == Unregister(old(held), zone)
      ensures schedulersByZone == old(schedulersByZone) - {zone}
    {
      ghost var before := held;
      Vacate(zone);
      UnregisterKeeps(before, caps, zone, old(queuedCoalescibleMessagesByZone), old(inFlightMessages), old(nonSafetyBytes), old(nonSafetyMessages),
                      held, queuedCoalescibleMessagesByZone, inFlightMessages, nonSafetyBytes, nonSafetyMessages);
    }

    method Vacate(zone: string)
      requires SchedulersMirror() && zone in schedulersByZone && OrderLists(held)
      requires FlightsMatch(inFlightMessages, held.schedulers) && Homed(held.schedulers[zone], zone)
      modifies this, schedulersByZone[zone]
      ensures SchedulersMirror() && held == Unregister(old(held), zone)
      ensures schedulersByZone == old(schedulersByZone) - {zone}
      ensures queuedCoalescibleMessagesByZone == old(queuedCoalescibleMessagesByZone) - {zone}
      ensures inFlightMessages == Elsewhere(old(inFlightMessages), zone)
      ensures nonSafetyBytes == old(nonSafetyBytes) - NonSafetyBytes(old(held).schedulers[zone])
      ensures nonSafetyMessages == old(nonSafetyMessages) - NonSafetyMessages(old(held).schedulers[zone])
    {
      DrainZone(zone);
      ForgetZone(zone);
    }

    method DrainZone(zone: string)
      requires SchedulersMirror() && zone in schedulersByZone
      requires FlightsMatch(inFlightMessages, held.schedulers) && Homed(held.schedulers[zone], zone)
      modifies this, schedulersByZone[zone]
      ensures unchanged(`held, `schedulersByZone, `zoneOrder, `zoneCursor, `queuedCoalescibleMessagesByZone)
      ensures OthersMirror(zone)
      ensures inFlightMessages == Elsewhere(old(inFlightMessages), zone)
      ensures nonSafetyBytes == old(nonSafetyBytes) - NonSafetyBytes(old(held).schedulers[zone])
      ensures nonSafetyMessages == old(nonSafetyMessages) - NonSafetyMessages(old(held).schedulers[zone])
    {
      var scheduler := schedulersByZone[zone];
      assert Mirrors(scheduler, held.schedulers[zone]);
      Drain(zone, scheduler);
      forall z | z in schedulersByZone && z != zone ensures Mirrors(schedulersByZone[z], held.schedulers[z]) {
        assert old(Mirrors(schedulersByZone[z], held.schedulers[z]));
      }
    }

    // Empties the queues of a zone's scheduler, and then lands what it has in flight.
    method Drain(zone: string, scheduler: AdmissionScheduler<T>)
      requires zone in held.schedulers && Mirrors(scheduler, held.schedulers[zone])
      requires FlightsMatch(inFlightMessages, held.schedulers) && Homed(held.schedulers[zone], zone)
      modifies this, scheduler
      ensures unchanged(`held, `schedulersByZone, `zoneOrder, `zoneCursor, `queuedCoalescibleMessagesByZone)
      ensures inFlightMessages == Elsewhere(old(inFlightMessages), zone)
      ensures nonSafetyBytes == old(nonSafetyBytes) - NonSafetyBytes(old(held).schedulers[zone])
      ensures nonSafetyMessages == old(nonSafetyMessages) - NonSafetyMessages(old(held).schedulers[zone])
    {
      DrainQueues(scheduler);
      DrainStarts(inFlightMessages, held.schedulers, zone, scheduler.Abs());
      DrainFlights(zone, scheduler);
    }

    method DrainQueues(scheduler: AdmissionScheduler<T>)
      requires scheduler.Valid()
      modifies this, scheduler
      ensures unchanged(`held, `schedulersByZone, `zoneOrder, `zoneCursor, `queuedCoalescibleMessagesByZone, `inFlightMessages)
      ensures scheduler.Valid() && QueuedCount(scheduler.Abs()) == 0 && scheduler.Abs().inFlight == old(scheduler.Abs()).inFlight
      ensures Returned(old(scheduler.Abs()), old(nonSafetyBytes), old(nonSafetyMessages),
                       scheduler.Abs(), nonSafetyBytes, nonSafetyMessages)
    {
      var more := true;
      while more
        invariant unchanged(`held, `schedulersByZone, `zoneOrder, `zoneCursor, `queuedCoalescibleMessagesByZone, `inFlightMessages)
        invariant scheduler.Valid() && scheduler.Abs().inFlight == old(scheduler.Abs()).inFlight
        invariant Returned(old(scheduler.Abs()), old(nonSafetyBytes), old(nonSafetyMessages),
                           scheduler.Abs(), nonSafetyBytes, nonSafetyMessages)
        invariant !more ==> QueuedCount(scheduler.Abs()) == 0
        decreases QueuedCount(scheduler.Abs()), more
      {
        more := Flush(scheduler);
      }
    }

    // Delivers the next message and completes it at once.
    method Flush(scheduler: AdmissionScheduler<T>) returns (more: bool)
      requires scheduler.Valid()
      modifies this, scheduler
      ensures unchanged(`held, `schedulersByZone, `zoneOrder, `zoneCursor, `queuedCoalescibleMessagesByZone, `inFlightMessages)
      ensures scheduler.Valid() && scheduler.Abs().inFlight == old(scheduler.Abs()).inFlight
      ensures Returned(old(scheduler.Abs()), old(nonSafetyBytes), old(nonSafetyMessages),
                       scheduler.Abs(), nonSafetyBytes, nonSafetyMessages)
      ensures if more then QueuedCount(scheduler.Abs()) < QueuedCount(old(scheduler.Abs())) else QueuedCount(scheduler.Abs()) == 0
    {
      ghost var s := scheduler.Abs();
      var work := FlushFrom(scheduler);
      if work.None? {
        NothingQueued(s);
        return false;
      }
      FlushOne(s, work.value.completionToken);
      Deduct(work.value.message);
      return true;
    }

    static method FlushFrom(scheduler: AdmissionScheduler<T>) returns (work: Option<Work<T>>)
      requires scheduler.Valid()
      modifies scheduler
      ensures scheduler.Valid() && CursorsInRange(old(scheduler.Abs())) && Inv(old(scheduler.Abs()))
      ensures work.None? ==> scheduler.Abs() == old(scheduler.Abs()) && NextSlot(old(scheduler.Abs()), None).None?
      ensures work.Some? ==>
                && !IsLive(old(scheduler.Abs()), work.value.completionToken)
                && Delivery(old(scheduler.Abs()), None) == Some(work.value.message)
                && scheduler.Abs() == Flushed(old(scheduler.Abs()), work.value.completionToken)
    {
      ReadyIsQueued(scheduler.Abs());
      work := scheduler.Dequeue(None);
      if work.Some? {
        var _ := scheduler.Complete(work.value.completionToken);
      }
    }

    method DrainFlights(zone: string, scheduler: AdmissionScheduler<T>)
      requires scheduler.Valid() && QueuedCount(scheduler.Abs()) == 0 && Draining(inFlightMessages, 0, zone, scheduler.Abs())
      modifies this, scheduler
      ensures unchanged(`held, `schedulersByZone, `zoneOrder, `zoneCursor, `queuedCoalescibleMessagesByZone)
      ensures inFlightMessages == Elsewhere(old(inFlightMessages), zone)
      ensures nonSafetyBytes == old(nonSafetyBytes) - NonSafetyBytes(old(scheduler.Abs()))
      ensures nonSafetyMessages == old(nonSafetyMessages) - NonSafetyMessages(old(scheduler.Abs()))
    {
      var i := 0;
      while i < |inFlightMessages|
        invariant unchanged(`held, `schedulersByZone, `zoneOrder, `zoneCursor, `queuedCoalescibleMessagesByZone)
        invariant scheduler.Valid() && QueuedCount(scheduler.Abs()) == 0 && Draining(inFlightMessages, i, zone, scheduler.Abs())
        invariant Elsewhere(inFlightMessages, zone) == Elsewhere(old(inFlightMessages), zone)
        invariant Returned(old(scheduler.Abs()), old(nonSafetyBytes), old(nonSafetyMessages),
                           scheduler.Abs(), nonSafetyBytes, nonSafetyMessages)
        decreases |inFlightMessages| - i
      {
        if inFlightMessages[i].message.zoneId != Some(zone) {
          PassFlight(inFlightMessages, i, zone, scheduler.Abs());
          i := i + 1;
        } else {
          LandAt(i, zone, scheduler);
        }
      }
      DrainEnds(inFlightMessages, zone, scheduler.Abs());
    }

    method LandAt(i: nat, zone: string, scheduler: AdmissionScheduler<T>)
      requires scheduler.Valid() && Draining(inFlightMessages, i, zone, scheduler.Abs())
      requires i < |inFlightMessages| && inFlightMessages[i].message.zoneId == Some(zone)
      modifies this, scheduler
      ensures unchanged(`held, `schedulersByZone, `zoneOrder, `zoneCursor, `queuedCoalescibleMessagesByZone)
      ensures scheduler.Valid() && Draining(inFlightMessages, i, zone, scheduler.Abs())
      ensures QueuedCount(scheduler.Abs()) == QueuedCount(old(scheduler.Abs()))
      ensures inFlightMessages == Without(old(inFlightMessages), i)
      ensures Elsewhere(inFlightMessages, zone) == Elsewhere(old(inFlightMessages), zone)
      ensures Returned(old(scheduler.Abs()), old(nonSafetyBytes), old(nonSafetyMessages),
                       scheduler.Abs(), nonSafetyBytes, nonSafetyMessages)
    {
      var f := inFlightMessages[i];
      LandOne(inFlightMessages, i, zone, scheduler.Abs());
      Drop(i);
      var _ := scheduler.Complete(f.token);
      Deduct(f.message);
    }

    method ForgetZone(zone: string)
      requires zone in schedulersByZone && OthersMirror(zone) && OrderLists(held)
      modifies this
      ensures SchedulersMirror() && held == Unregister(old(held), zone)
      ensures schedulersByZone == old(schedulersByZone) - {zone}
      ensures queuedCoalescibleMessagesByZone == old(queuedCoalescibleMessagesByZone) - {zone}
      ensures unchanged(`inFlightMessages, `nonSafetyBytes, `nonSafetyMessages)
    {
      CloseZone(zone);
      StrikeFromOrder(zone);
    }

    method CloseZone(zone: string)
      requires zone in schedulersByZone && OthersMirror(zone)
      modifies this
      ensures SchedulersMirror() && held == old(held).(schedulers := old(held).schedulers - {zone})
      ensures schedulersByZone == old(schedulersByZone) - {zone}
      ensures queuedCoalescibleMessagesByZone == old(queuedCoalescibleMessagesByZone) - {zone}
      ensures unchanged(`inFlightMessages, `nonSafetyBytes, `nonSafetyMessages)
    {
      RemoveScheduler(zone);
      RemoveIndex(zone);
    }

    method RemoveIndex(zone: string)
      requires SchedulersMirror()
      modifies this
      ensures SchedulersMirror()
      ensures unchanged(`schedulersByZone, `held, `zoneOrder, `zoneCursor, `inFlightMessages, `nonSafetyBytes, `nonSafetyMessages)
      ensures queuedCoalescibleMessagesByZone == old(queuedCoalescibleMessagesByZone) - {zone}
    {
      queuedCoalescibleMessagesByZone := queuedCoalescibleMessagesByZone - {zone};
    }

    method RemoveScheduler(zone: string)
      requires zone in schedulersByZone && OthersMirror(zone)
      modifies this
      ensures SchedulersMirror() && held == old(held).(schedulers := old(held).schedulers - {zone})
      ensures schedulersByZone == old(schedulersByZone) - {zone}
      ensures unchanged(`queuedCoalescibleMessagesByZone, `inFlightMessages, `nonSafetyBytes, `nonSafetyMessages)
    {
      schedulersByZone := schedulersByZone - {zone};
      held := held.(schedulers := held.schedulers - {zone});
    }

    method StrikeFromOrder(zone: string)
      requires SchedulersMirror()
      modifies this
      ensures SchedulersMirror()
      ensures unchanged(`schedulersByZone, `queuedCoalescibleMessagesByZone, `inFlightMessages, `nonSafetyBytes, `nonSafetyMessages)
      ensures var index := ZoneIndex(old(held).order, zone);
              held == if index < |old(held).order|
                      then Process(Without(old(held).order, index), old(held).schedulers, Clamp(old(held).cursor, |old(held).order| - 1))
                      else old(held)
    {
      var index := ZoneIndex(zoneOrder, zone);
      if index < |zoneOrder| {
        zoneOrder := Without(zoneOrder, index);
        zoneCursor := Clamp(zoneCursor, |zoneOrder|);
        held := Process(zoneOrder, held.schedulers, zoneCursor);
      }
    }
  }
}
