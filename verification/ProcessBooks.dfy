/**
 * The bookkeeping of process admission and what each step does to it: an index of queued
 * coalescible messages per zone, one table of the deliveries in flight in all zones, and
 * two running totals. It is booked when it agrees with what the zones hold.
 */
module ProcessBooks {
  import opened Options
  import opened Admission
  import opened SchedulerModel
  import opened ProcessModel
  import opened CoalescingIndex
  import RoundRobin

  ghost predicate Flies<T>(f: InFlight<T>, schedulers: map<string, State<T>>) {
    && f.message.zoneId.Some? && f.message.zoneId.value in schedulers
    && f in schedulers[f.message.zoneId.value].inFlight
  }

  ghost predicate AllFlightsKnown<T>(flights: seq<InFlight<T>>, s: State<T>) {
    forall i :: 0 <= i < |s.inFlight| ==> s.inFlight[i] in flights
  }

  // The process-wide table lists exactly the deliveries in flight in the zones.
  ghost predicate FlightsMatch<T>(flights: seq<InFlight<T>>, schedulers: map<string, State<T>>) {
    && DistinctTokens(flights)
    && (forall i :: 0 <= i < |flights| ==> Flies(flights[i], schedulers))
    && (forall z :: z in schedulers ==> AllFlightsKnown(flights, schedulers[z]))
  }

  ghost predicate IndexesExact<T>(indexes: map<string, Index<T>>, schedulers: map<string, State<T>>) {
    indexes.Keys == schedulers.Keys && forall z :: z in schedulers ==> Exact(indexes[z], schedulers[z])
  }

  // The running totals are the sums over the zones.
  ghost predicate TotalsMatch<T>(bytes: int, messages: int, p: Process<T>) {
    bytes == TotalBytes(p.order, p.schedulers) && messages == TotalMessages(p.order, p.schedulers)
  }

  ghost predicate Booked<T>(p: Process<T>, indexes: map<string, Index<T>>, flights: seq<InFlight<T>>, bytes: int, messages: int) {
    IndexesExact(indexes, p.schedulers) && FlightsMatch(flights, p.schedulers) && TotalsMatch(bytes, messages, p)
  }

  // ---------- Tokens ----------

  /** A token in the table is live in the zone its message names, and nowhere else. */
  lemma FlightHome<T>(flights: seq<InFlight<T>>, p: Process<T>, i: nat)
    requires OrderLists(p) && ZonesKept(p) && FlightsMatch(flights, p.schedulers) && i < |flights|
    ensures var zone := flights[i].message.zoneId.value;
            && flights[i].message.zoneId.Some? && zone in p.schedulers
            && IsLive(p.schedulers[zone], flights[i].token)
            && MessageFor(p.schedulers[zone], flights[i].token) == flights[i].message
            && Home(p, flights[i].token) < |p.order| && p.order[Home(p, flights[i].token)] == zone
  {
    var f := flights[i];
    assert Flies(f, p.schedulers);
    var zone := f.message.zoneId.value;
    var s := p.schedulers[zone];
    var k :| 0 <= k < |s.inFlight| && s.inFlight[k] == f;
    assert TokenIndex(s.inFlight, f.token) == k;
    var j :| 0 <= j < |p.order| && p.order[j] == zone;
    forall y | y in p.schedulers && y != zone ensures !IsLive(p.schedulers[y], f.token) {
      assert Apart(p.schedulers[y], s);
    }
  }

  /** A token that is not in the table is live nowhere. */
  lemma UnknownToken<T>(flights: seq<InFlight<T>>, p: Process<T>, token: CompletionToken)
    requires OrderLists(p) && FlightsMatch(flights, p.schedulers) && TokenIndex(flights, token) == |flights|
    ensures Home(p, token) == |p.order|
  {
    forall z | z in p.schedulers ensures !IsLive(p.schedulers[z], token) {
      var s := p.schedulers[z];
      assert AllFlightsKnown(flights, s);
      forall k | 0 <= k < |s.inFlight| ensures s.inFlight[k].token != token {
        assert s.inFlight[k] in flights;
      }
    }
  }

  // ---------- Registering ----------

  lemma RegisterFlights<T>(flights: seq<InFlight<T>>, schedulers: map<string, State<T>>, zone: string, s: State<T>)
    requires FlightsMatch(flights, schedulers) && zone !in schedulers && s.inFlight == []
    ensures FlightsMatch(flights, schedulers[zone := s])
  {
    var after := schedulers[zone := s];
    forall i | 0 <= i < |flights| ensures Flies(flights[i], after) {
      assert Flies(flights[i], schedulers);
    }
    forall z | z in after ensures AllFlightsKnown(flights, after[z]) {
      assert z != zone ==> AllFlightsKnown(flights, schedulers[z]);
    }
  }

  lemma RegisterBooked<T>(p: Process<T>, zone: string, s: State<T>,
                          indexes: map<string, Index<T>>, flights: seq<InFlight<T>>, bytes: int, messages: int)
    requires OrderLists(p) && Booked(p, indexes, flights, bytes, messages) && zone !in p.schedulers && IsEmpty(s)
    ensures Booked(WithZone(p, zone, s), indexes[zone := map[]], flights, bytes, messages)
  {
    EmptyHoldsNothing(s, zone);
    RegisterTotals(p, zone, s);
    RegisterFlights(flights, p.schedulers, zone, s);
  }

  // One zone's scheduler changes, and with it that zone's index, the table and the totals.
  lemma ZoneBooked<T>(p: Process<T>, zone: string, s: State<T>, cursor: nat,
                      indexes: map<string, Index<T>>, flights: seq<InFlight<T>>, bytes: int, messages: int)
    requires OrderLists(p) && zone in p.schedulers
    requires IndexesExact(indexes, p.schedulers[zone := s]) && FlightsMatch(flights, p.schedulers[zone := s])
    requires TotalsMatch(bytes + NonSafetyBytes(p.schedulers[zone]) - NonSafetyBytes(s),
                         messages + NonSafetyMessages(p.schedulers[zone]) - NonSafetyMessages(s), p)
    ensures Booked(p.(schedulers := p.schedulers[zone := s], cursor := cursor), indexes, flights, bytes, messages)
  {
    TotalUpdate(p, zone, s);
  }

  lemma IndexSet<T>(indexes: map<string, Index<T>>, schedulers: map<string, State<T>>, zone: string, index: Index<T>, s: State<T>)
    requires IndexesExact(indexes, schedulers) && zone in schedulers && Exact(index, s)
    ensures IndexesExact(indexes[zone := index], schedulers[zone := s])
  {
    assert forall z :: z in schedulers && z != zone ==> Exact(indexes[z], schedulers[z]);
  }

  // ---------- Queueing ----------

  // A zone's scheduler changes without anything taking off or landing.
  lemma SameFlights<T>(flights: seq<InFlight<T>>, schedulers: map<string, State<T>>, zone: string, s: State<T>)
    requires FlightsMatch(flights, schedulers) && zone in schedulers && s.inFlight == schedulers[zone].inFlight
    ensures FlightsMatch(flights, schedulers[zone := s])
  {
    var after := schedulers[zone := s];
    forall i | 0 <= i < |flights| ensures Flies(flights[i], after) {
      assert Flies(flights[i], schedulers);
    }
    forall z | z in after ensures AllFlightsKnown(flights, after[z]) {
      assert AllFlightsKnown(flights, schedulers[z]);
    }
  }

  function Noted<T>(index: Index<T>, m: Message<T>): Index<T> {
    var key := CoalescingKey(m);
    if key.Some? then index[key.value := m] else index
  }

  lemma InsertParts<T>(s: State<T>, m: Message<T>, index: Index<T>)
    requires WellFormed(s) && Exact(index, s) && Validate(m).None?
    ensures Insert(s, m).inFlight == s.inFlight && Exact(Noted(index, m), Insert(s, m))
  {
    InsertKeepsExact(index, s, m);
  }

  /** An accepted message is booked by noting it in its zone's index and adding its zone's change to the totals. */
  lemma EnqueueBooked<T>(p: Process<T>, m: Message<T>,
                         indexes: map<string, Index<T>>, flights: seq<InFlight<T>>, bytes: int, messages: int,
                         indexes': map<string, Index<T>>, bytes': int, messages': int)
    requires OrderLists(p) && ZonesKept(p) && Booked(p, indexes, flights, bytes, messages)
    requires Addressed(p, m) && Validate(m).None?
    requires indexes' == indexes[m.zoneId.value := Noted(indexes[m.zoneId.value], m)]
    requires bytes' - bytes == NonSafetyBytes(Insert(p.schedulers[m.zoneId.value], m)) - NonSafetyBytes(p.schedulers[m.zoneId.value])
    requires messages' - messages
          == NonSafetyMessages(Insert(p.schedulers[m.zoneId.value], m)) - NonSafetyMessages(p.schedulers[m.zoneId.value])
    ensures Booked(p.(schedulers := p.schedulers[m.zoneId.value := Insert(p.schedulers[m.zoneId.value], m)]),
                   indexes', flights, bytes', messages')
  {
    var zone := m.zoneId.value;
    var s, after := p.schedulers[zone], Insert(p.schedulers[zone], m);
    InsertParts(s, m, indexes[zone]);
    SameFlights(flights, p.schedulers, zone, after);
    IndexSet(indexes, p.schedulers, zone, Noted(indexes[zone], m), after);
    ZoneBooked(p, zone, after, p.cursor, indexes', flights, bytes', messages');
  }

  // ---------- Delivering ----------

  lemma TakeOff<T>(flights: seq<InFlight<T>>, schedulers: map<string, State<T>>, zone: string, s: State<T>, f: InFlight<T>)
    requires FlightsMatch(flights, schedulers) && zone in schedulers && s.inFlight == schedulers[zone].inFlight + [f]
    requires f.message.zoneId == Some(zone) && forall i :: 0 <= i < |flights| ==> flights[i].token != f.token
    ensures FlightsMatch(flights + [f], schedulers[zone := s])
  {
    var after, all := schedulers[zone := s], flights + [f];
    forall i | 0 <= i < |all| ensures Flies(all[i], after) {
      if i < |flights| {
        assert Flies(flights[i], schedulers);
      } else {
        assert s.inFlight[|s.inFlight| - 1] == f;
      }
    }
    forall z | z in after ensures AllFlightsKnown(all, after[z]) {
      assert AllFlightsKnown(flights, schedulers[z]);
      forall i | 0 <= i < |after[z].inFlight| ensures after[z].inFlight[i] in all {
        if z == zone && i == |s.inFlight| - 1 {
          assert all[|flights|] == f;
        } else {
          assert schedulers[z].inFlight[i] in flights;
        }
      }
    }
  }

  // What a delivery leaves of the index.
  function Struck<T>(index: Index<T>, m: Message<T>): Index<T> {
    var key := CoalescingKey(m);
    if key.Some? then index - {key.value} else index
  }

  lemma DeliveryParts<T>(s: State<T>, token: CompletionToken, index: Index<T>)
    requires WellFormed(s) && Exact(index, s) && NextSlot(s, None).Some?
    ensures var (m, after) := (Delivery(s, None).value, Dequeue(s, None, token));
            && after.inFlight == s.inFlight + [InFlight(token, m)]
            && (CoalescingKey(m).Some? ==> Lookup(index, CoalescingKey(m)) == Some(m))
            && Exact(Struck(index, m), after)
  {
    var c := SERVICE_CYCLE[NextSlot(s, None).value];
    TakeKeepsExact(index, s, c);
    SameQueuesSameIndex(Struck(index, HeadOf(s, c)), Take(s, c), Dequeue(s, None, token));
  }

  lemma DeliveryHomed<T>(s: State<T>, zone: string)
    requires CursorsInRange(s) && Homed(s, zone) && NextSlot(s, None).Some?
    ensures Delivery(s, None).value.zoneId == Some(zone)
  {
    var c := SERVICE_CYCLE[NextSlot(s, None).value];
    TakeMembers(s, c);
    var i :| 0 <= i < |Queued(s, c)| && Queued(s, c)[i] == HeadOf(s, c);
  }

  /** A delivery is booked by striking its message from the index and listing its token; the totals stay. */
  lemma DequeueBooked<T>(p: Process<T>, zone: string, token: CompletionToken, cursor: nat,
                         indexes: map<string, Index<T>>, flights: seq<InFlight<T>>, bytes: int, messages: int)
    requires OrderLists(p) && ZonesKept(p) && Booked(p, indexes, flights, bytes, messages)
    requires zone in p.schedulers && NextSlot(p.schedulers[zone], None).Some?
    requires forall i :: 0 <= i < |flights| ==> flights[i].token != token
    ensures var m := Delivery(p.schedulers[zone], None).value;
            Booked(p.(schedulers := p.schedulers[zone := Dequeue(p.schedulers[zone], None, token)], cursor := cursor),
                   indexes[zone := Struck(indexes[zone], m)], flights + [InFlight(token, m)], bytes, messages)
  {
    var s, after := p.schedulers[zone], Dequeue(p.schedulers[zone], None, token);
    DeliveryParts(s, token, indexes[zone]);
    DeliveryHomed(s, zone);
    TakeOff(flights, p.schedulers, zone, after, InFlight(token, Delivery(s, None).value));
    SameTotals(s, after, token);
    IndexSet(indexes, p.schedulers, zone, Struck(indexes[zone], Delivery(s, None).value), after);
    ZoneBooked(p, zone, after, cursor, indexes[zone := Struck(indexes[zone], Delivery(s, None).value)],
               flights + [InFlight(token, Delivery(s, None).value)], bytes, messages);
  }

  // ---------- Completing ----------

  lemma StillListed<T>(flights: seq<InFlight<T>>, i: nat, f: InFlight<T>)
    requires i < |flights| && f in flights && f.token != flights[i].token
    ensures f in Without(flights, i)
  {
    var n :| 0 <= n < |flights| && flights[n] == f;
    WithoutAt(flights, i);
    assert Without(flights, i)[if n < i then n else n - 1] == f;
  }

  // What is left in flight was in flight before, under a token other than the one that landed.
  ghost predicate LeftInFlight<T>(before: seq<InFlight<T>>, after: seq<InFlight<T>>, token: CompletionToken) {
    forall n :: 0 <= n < |after| ==> after[n] in before && after[n].token != token
  }

  lemma OthersLeft<T>(inFlight: seq<InFlight<T>>, k: nat)
    requires DistinctTokens(inFlight) && k < |inFlight|
    ensures LeftInFlight(inFlight, Without(inFlight, k), inFlight[k].token)
  {
    WithoutAt(inFlight, k);
  }

  lemma OthersStillKnown<T>(flights: seq<InFlight<T>>, i: nat, s: State<T>, after: State<T>)
    requires AllFlightsKnown(flights, s) && i < |flights| && LeftInFlight(s.inFlight, after.inFlight, flights[i].token)
    ensures AllFlightsKnown(Without(flights, i), after)
  {
    forall n | 0 <= n < |after.inFlight| ensures after.inFlight[n] in Without(flights, i) {
      assert after.inFlight[n] in s.inFlight;
      StillListed(flights, i, after.inFlight[n]);
    }
  }

  lemma Landing<T>(flights: seq<InFlight<T>>, schedulers: map<string, State<T>>, zone: string, s: State<T>, i: nat, k: nat)
    requires FlightsMatch(flights, schedulers) && zone in schedulers && i < |flights| && k < |schedulers[zone].inFlight|
    requires schedulers[zone].inFlight[k] == flights[i] && s.inFlight == Without(schedulers[zone].inFlight, k)
    requires DistinctTokens(schedulers[zone].inFlight)
    requires forall z :: z in schedulers && z != zone ==> Apart(schedulers[z], schedulers[zone])
    ensures FlightsMatch(Without(flights, i), schedulers[zone := s])
  {
    var rest, after := Without(flights, i), schedulers[zone := s];
    WithoutAt(flights, i);
    OthersLeft(schedulers[zone].inFlight, k);
    forall j | 0 <= j < |rest| ensures Flies(rest[j], after) {
      var f := flights[if j < i then j else j + 1];
      assert Flies(f, schedulers);
      if f.message.zoneId.value == zone {
        StillListed(schedulers[zone].inFlight, k, f);
      }
    }
    forall z | z in after ensures AllFlightsKnown(rest, after[z]) {
      assert AllFlightsKnown(flights, schedulers[z]);
      assert z != zone ==> Apart(schedulers[z], schedulers[zone]);
      OthersStillKnown(flights, i, schedulers[z], after[z]);
    }
  }

  // The share of a message in the totals.
  function ByteShare<T>(m: Message<T>): int { if m.messageClass.Safety? then 0 else m.byteLength }

  function MessageShare<T>(m: Message<T>): int { if m.messageClass.Safety? then 0 else 1 }

  lemma LandingInZone<T>(p: Process<T>, i: nat, zone: string, k: nat, after: State<T>, flights: seq<InFlight<T>>)
    requires ZonesKept(p) && FlightsMatch(flights, p.schedulers) && i < |flights| && zone in p.schedulers
    requires k < |p.schedulers[zone].inFlight| && p.schedulers[zone].inFlight[k] == flights[i]
    requires after.inFlight == Without(p.schedulers[zone].inFlight, k)
    ensures FlightsMatch(Without(flights, i), p.schedulers[zone := after])
  {
    Landing(flights, p.schedulers, zone, after, i, k);
  }

  lemma IndexKept<T>(indexes: map<string, Index<T>>, schedulers: map<string, State<T>>, zone: string, s: State<T>)
    requires IndexesExact(indexes, schedulers) && zone in schedulers && Exact(indexes[zone], s)
    ensures IndexesExact(indexes, schedulers[zone := s])
  {
    assert forall z :: z in schedulers && z != zone ==> Exact(indexes[z], schedulers[z]);
  }

  /** A completion is booked by dropping its token from the table and its message's share from the totals. */
  lemma CompleteBooked<T>(p: Process<T>, i: nat,
                          indexes: map<string, Index<T>>, flights: seq<InFlight<T>>, bytes: int, messages: int,
                          bytes': int, messages': int)
    requires OrderLists(p) && ZonesKept(p) && Booked(p, indexes, flights, bytes, messages) && i < |flights|
    requires bytes' == bytes - ByteShare(flights[i].message) && messages' == messages - MessageShare(flights[i].message)
    ensures Booked(CompleteIn(p, flights[i].token), indexes, Without(flights, i), bytes', messages')
  {
    FlightHome(flights, p, i);
    var zone, token := flights[i].message.zoneId.value, flights[i].token;
    var s := p.schedulers[zone];
    CompleteTotals(s, token);
    CompleteExact(indexes[zone], s, token);
    LandingInZone(p, i, zone, TokenIndex(s.inFlight, token), Complete(s, token), flights);
    IndexKept(indexes, p.schedulers, zone, Complete(s, token));
    ZoneBooked(p, zone, Complete(s, token), p.cursor, indexes, Without(flights, i), bytes', messages');
  }

  lemma CompleteExact<T>(index: Index<T>, s: State<T>, token: CompletionToken)
    requires WellFormed(s) && Exact(index, s) && IsLive(s, token)
    ensures Exact(index, Complete(s, token))
    ensures Complete(s, token).inFlight == Without(s.inFlight, TokenIndex(s.inFlight, token))
  {
    CompleteKeepsClassQueues(s, token);
    assert Queued(Complete(s, token), Liveness) == Queued(s, Liveness) && Queued(Complete(s, token), Diagnostic) == Queued(s, Diagnostic);
    SameQueuesSameIndex(index, s, Complete(s, token));
  }

  // ---------- Unregistering ----------

  // The deliveries in flight outside a zone.
  function Elsewhere<T>(flights: seq<InFlight<T>>, zone: string): seq<InFlight<T>> {
    if flights == [] then []
    else if flights[0].message.zoneId == Some(zone) then Elsewhere(flights[1..], zone)
    else [flights[0]] + Elsewhere(flights[1..], zone)
  }

  lemma {:induction false} ElsewhereConcat<T>(a: seq<InFlight<T>>, b: seq<InFlight<T>>, zone: string)
    ensures Elsewhere(a + b, zone) == Elsewhere(a, zone) + Elsewhere(b, zone)
  {
    if a == [] {
      assert a + b == b;
    } else {
      var whole := a + b;
      assert whole[0] == a[0] && whole[1..] == a[1..] + b;
      ElsewhereConcat(a[1..], b, zone);
    }
  }

  lemma {:induction false} ElsewhereMembers<T>(flights: seq<InFlight<T>>, zone: string)
    ensures forall i :: 0 <= i < |Elsewhere(flights, zone)| ==>
              Elsewhere(flights, zone)[i] in flights && Elsewhere(flights, zone)[i].message.zoneId != Some(zone)
    ensures forall i :: 0 <= i < |flights| && flights[i].message.zoneId != Some(zone) ==> flights[i] in Elsewhere(flights, zone)
  {
    if flights != [] {
      var rest := flights[1..];
      ElsewhereMembers(rest, zone);
      forall i | 0 <= i < |flights| && flights[i].message.zoneId != Some(zone) ensures flights[i] in Elsewhere(flights, zone) {
        assert i > 0 ==> rest[i - 1] == flights[i];
      }
    }
  }

  lemma {:induction false} ElsewhereDistinct<T>(flights: seq<InFlight<T>>, zone: string)
    requires DistinctTokens(flights)
    ensures DistinctTokens(Elsewhere(flights, zone))
  {
    if flights != [] {
      ElsewhereDistinct(flights[1..], zone);
      ElsewhereMembers(flights[1..], zone);
      var rest := Elsewhere(flights[1..], zone);
      forall j | 0 <= j < |rest| ensures rest[j].token != flights[0].token {
        assert rest[j] in flights[1..];
      }
    }
  }

  lemma UnregisterFlights<T>(flights: seq<InFlight<T>>, schedulers: map<string, State<T>>, zone: string)
    requires FlightsMatch(flights, schedulers) && zone in schedulers
    requires forall z :: z in schedulers ==> Homed(schedulers[z], z)
    ensures FlightsMatch(Elsewhere(flights, zone), schedulers - {zone})
  {
    var rest, after := Elsewhere(flights, zone), schedulers - {zone};
    ElsewhereMembers(flights, zone);
    ElsewhereDistinct(flights, zone);
    forall i | 0 <= i < |rest| ensures Flies(rest[i], after) {
      assert rest[i] in flights;
      assert Flies(rest[i], schedulers);
    }
    forall z | z in after ensures AllFlightsKnown(rest, after[z]) {
      assert AllFlightsKnown(flights, schedulers[z]);
    }
  }

  /** Unregistering a zone is booked by forgetting its index and its deliveries and taking its whole share from the totals. */
  lemma UnregisterBooked<T>(p: Process<T>, zone: string,
                            indexes: map<string, Index<T>>, flights: seq<InFlight<T>>, bytes: int, messages: int,
                            bytes': int, messages': int)
    requires OrderLists(p) && ZonesKept(p) && Booked(p, indexes, flights, bytes, messages) && zone in p.schedulers
    requires bytes' == bytes - NonSafetyBytes(p.schedulers[zone]) && messages' == messages - NonSafetyMessages(p.schedulers[zone])
    ensures Booked(Unregister(p, zone), indexes - {zone}, Elsewhere(flights, zone), bytes', messages')
  {
    UnregisterReturns(p, zone);
    UnregisterFlights(flights, p.schedulers, zone);
  }
}
