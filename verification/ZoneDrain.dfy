/**
 * Emptying one zone before it is unregistered: everything queued is delivered and
 * completed at once, then every delivery of the zone still in flight is completed. Each
 * step takes exactly the share of one message out of the totals.
 */
module ZoneDrain {
  import opened Options
  import opened Admission
  import opened SchedulerModel
  import opened ProcessModel
  import opened ProcessBooks

  // ---------- What is queued ----------

  function QueuedCount<T>(s: State<T>): nat {
    |s.safety| + |Flatten(s.authority)| + |s.liveness| + |s.diagnostic|
  }

  lemma TakeCount<T>(s: State<T>, c: MessageClass)
    requires CursorsInRange(s) && Queued(s, c) != []
    ensures QueuedCount(Take(s, c)) == QueuedCount(s) - 1
  {
    if c.Authority? {
      var i := NextPrincipal(s);
      FlattenSplit(s.authority, i);
      FlattenUpdate(s.authority, i, PrincipalQueue(s.authority[i].principal, s.authority[i].queued[1..]));
    }
  }

  lemma SameCount<T>(a: State<T>, b: State<T>)
    requires forall c :: Queued(a, c) == Queued(b, c)
    ensures QueuedCount(a) == QueuedCount(b)
  {
    assert Queued(a, Safety) == Queued(b, Safety) && Queued(a, Authority) == Queued(b, Authority);
    assert Queued(a, Liveness) == Queued(b, Liveness) && Queued(a, Diagnostic) == Queued(b, Diagnostic);
  }

  lemma NothingQueued<T>(s: State<T>)
    requires CursorsInRange(s) && NextSlot(s, None).None?
    ensures QueuedCount(s) == 0
  {
    forall c ensures Queued(s, c) == [] {
      assert !ServiceBacklog(s, None)[FirstSlot(c)];
    }
    assert Queued(s, Safety) == [] && Queued(s, Authority) == [] && Queued(s, Liveness) == [] && Queued(s, Diagnostic) == [];
  }

  // A delivery that is completed at once.
  ghost function Flushed<T>(s: State<T>, token: CompletionToken): State<T>
    requires CursorsInRange(s)
  {
    Complete(Dequeue(s, None, token), token)
  }

  lemma LastToken<T>(inFlight: seq<InFlight<T>>, f: InFlight<T>)
    requires TokenIndex(inFlight, f.token) == |inFlight|
    ensures TokenIndex(inFlight + [f], f.token) == |inFlight|
    ensures Without(inFlight + [f], |inFlight|) == inFlight
  {
    var all := inFlight + [f];
    assert all[|inFlight|] == f;
    forall j | 0 <= j < |inFlight| ensures all[j].token != f.token {
      assert all[j] == inFlight[j];
    }
  }

  lemma Departed<T>(s: State<T>, token: CompletionToken)
    requires WellFormed(s) && !IsLive(s, token) && NextSlot(s, None).Some?
    ensures var after := Dequeue(s, None, token);
            && WellFormed(after) && IsLive(after, token) && MessageFor(after, token) == Delivery(s, None).value
            && Without(after.inFlight, TokenIndex(after.inFlight, token)) == s.inFlight
            && QueuedCount(after) == QueuedCount(s) - 1
  {
    var c := SERVICE_CYCLE[NextSlot(s, None).value];
    LastToken(s.inFlight, InFlight(token, HeadOf(s, c)));
    TakeCount(s, c);
    HeadValid(s, c);
    TakeWellFormed(s, c);
  }

  /** Flushing takes one message off the queues, leaves the deliveries in flight as they are and returns one share. */
  lemma FlushOne<T>(s: State<T>, token: CompletionToken)
    requires Inv(s) && !IsLive(s, token) && NextSlot(s, None).Some?
    ensures var (m, after) := (Delivery(s, None).value, Flushed(s, token));
            && after.inFlight == s.inFlight && QueuedCount(after) == QueuedCount(s) - 1
            && NonSafetyBytes(after) == NonSafetyBytes(s) - ByteShare(m)
            && NonSafetyMessages(after) == NonSafetyMessages(s) - MessageShare(m)
  {
    var served := Dequeue(s, None, token);
    Departed(s, token);
    SameTotals(s, served, token);
    CompleteTotals(served, token);
    CompleteKeepsClassQueues(served, token);
    SameCount(served, Flushed(s, token));
  }

  // ---------- What is in flight ----------

  // Up to i nothing belongs to the zone; from there on exactly what is still in flight in it.
  ghost predicate Draining<T>(flights: seq<InFlight<T>>, i: nat, zone: string, s: State<T>) {
    && i <= |flights| && DistinctTokens(flights) && DistinctTokens(s.inFlight)
    && (forall k :: 0 <= k < i ==> flights[k].message.zoneId != Some(zone))
    && (forall k :: i <= k < |flights| && flights[k].message.zoneId == Some(zone) ==> flights[k] in s.inFlight)
    && (forall n :: 0 <= n < |s.inFlight| ==> s.inFlight[n] in flights && s.inFlight[n].message.zoneId == Some(zone))
  }

  lemma PassFlight<T>(flights: seq<InFlight<T>>, i: nat, zone: string, s: State<T>)
    requires Draining(flights, i, zone, s) && i < |flights| && flights[i].message.zoneId != Some(zone)
    ensures Draining(flights, i + 1, zone, s)
  {
  }

  lemma DrainStarts<T>(flights: seq<InFlight<T>>, schedulers: map<string, State<T>>, zone: string, s: State<T>)
    requires FlightsMatch(flights, schedulers) && zone in schedulers && s.inFlight == schedulers[zone].inFlight
    requires Homed(schedulers[zone], zone) && DistinctTokens(s.inFlight)
    ensures Draining(flights, 0, zone, s)
  {
    assert AllFlightsKnown(flights, schedulers[zone]);
    forall k | 0 <= k < |flights| && flights[k].message.zoneId == Some(zone) ensures flights[k] in s.inFlight {
      assert Flies(flights[k], schedulers);
    }
  }

  lemma {:induction false} ElsewhereAll<T>(flights: seq<InFlight<T>>, zone: string)
    requires forall k :: 0 <= k < |flights| ==> flights[k].message.zoneId != Some(zone)
    ensures Elsewhere(flights, zone) == flights
  {
    if flights != [] {
      ElsewhereAll(flights[1..], zone);
    }
  }

  lemma {:induction false} ElsewhereNone<T>(flights: seq<InFlight<T>>, zone: string)
    requires forall k :: 0 <= k < |flights| ==> flights[k].message.zoneId == Some(zone)
    ensures Elsewhere(flights, zone) == []
  {
    if flights != [] {
      ElsewhereNone(flights[1..], zone);
    }
  }

  lemma ElsewhereWithout<T>(flights: seq<InFlight<T>>, i: nat, zone: string)
    requires i < |flights| && flights[i].message.zoneId == Some(zone)
    ensures Elsewhere(Without(flights, i), zone) == Elsewhere(flights, zone)
  {
    var tail := flights[i..];
    assert flights == flights[..i] + tail && tail[0] == flights[i] && tail[1..] == flights[i + 1..];
    ElsewhereConcat(flights[..i], tail, zone);
    ElsewhereConcat(flights[..i], flights[i + 1..], zone);
  }

  lemma DrainEnds<T>(flights: seq<InFlight<T>>, zone: string, s: State<T>)
    requires Draining(flights, |flights|, zone, s) && QueuedCount(s) == 0
    ensures s.inFlight == [] && Elsewhere(flights, zone) == flights
    ensures NonSafetyBytes(s) == 0 && NonSafetyMessages(s) == 0
  {
    ElsewhereAll(flights, zone);
    ElsewhereNone(s.inFlight, zone);
    ElsewhereAll(s.inFlight, zone);
    assert Flatten(s.authority) == [] && s.liveness == [] && s.diagnostic == [];
  }

  lemma NextToLand<T>(flights: seq<InFlight<T>>, i: nat, zone: string, s: State<T>)
    requires Draining(flights, i, zone, s) && i < |flights| && flights[i].message.zoneId == Some(zone)
    ensures IsLive(s, flights[i].token) && MessageFor(s, flights[i].token) == flights[i].message
    ensures s.inFlight[TokenIndex(s.inFlight, flights[i].token)] == flights[i]
  {
    var k :| 0 <= k < |s.inFlight| && s.inFlight[k] == flights[i];
  }

  lemma LandNext<T>(flights: seq<InFlight<T>>, i: nat, zone: string, s: State<T>, after: State<T>)
    requires Draining(flights, i, zone, s) && i < |flights| && flights[i].message.zoneId == Some(zone)
    requires IsLive(s, flights[i].token) && s.inFlight[TokenIndex(s.inFlight, flights[i].token)] == flights[i]
    requires after.inFlight == Without(s.inFlight, TokenIndex(s.inFlight, flights[i].token))
    ensures Draining(Without(flights, i), i, zone, after)
  {
    var k, rest := TokenIndex(s.inFlight, flights[i].token), Without(flights, i);
    WithoutAt(flights, i);
    WithoutAt(s.inFlight, k);
    OthersLeft(s.inFlight, k);
    forall j | i <= j < |rest| && rest[j].message.zoneId == Some(zone) ensures rest[j] in after.inFlight {
      assert flights[j + 1] in s.inFlight && flights[j + 1].token != flights[i].token;
      StillListed(s.inFlight, k, flights[j + 1]);
    }
    forall n | 0 <= n < |after.inFlight| ensures after.inFlight[n] in rest && after.inFlight[n].message.zoneId == Some(zone) {
      StillListed(flights, i, after.inFlight[n]);
    }
  }

  /** Completing the next delivery of the zone keeps the others' and returns one share. */
  lemma LandOne<T>(flights: seq<InFlight<T>>, i: nat, zone: string, s: State<T>)
    requires Inv(s) && Draining(flights, i, zone, s) && i < |flights| && flights[i].message.zoneId == Some(zone)
    ensures var (m, after) := (flights[i].message, Complete(s, flights[i].token));
            && Draining(Without(flights, i), i, zone, after) && QueuedCount(after) == QueuedCount(s)
            && NonSafetyBytes(after) == NonSafetyBytes(s) - ByteShare(m)
            && NonSafetyMessages(after) == NonSafetyMessages(s) - MessageShare(m)
    ensures Elsewhere(Without(flights, i), zone) == Elsewhere(flights, zone)
  {
    var token := flights[i].token;
    NextToLand(flights, i, zone, s);
    CompleteTotals(s, token);
    CompleteKeepsClassQueues(s, token);
    SameCount(s, Complete(s, token));
    LandNext(flights, i, zone, s, Complete(s, token));
    ElsewhereWithout(flights, i, zone);
  }
}
