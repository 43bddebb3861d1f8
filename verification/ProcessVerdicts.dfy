/**
 * What process admission answers, on plain facts about the zones: when a zone is registered,
 * what each verdict on a message means, and what is left when a zone is unregistered.
 */
module ProcessVerdicts {
  import opened Options
  import opened Admission
  import opened SchedulerModel
  import opened ProcessModel
  import opened Verdicts
  import RoundRobin

  // ---------- Messages ----------

  // With the message inserted, the zones would hold more outside the safety class than the caps allow.
  ghost predicate OverCaps<T>(p: Process<T>, caps: Caps, m: Message<T>)
    requires m.zoneId.Some? && m.zoneId.value in p.schedulers
  {
    var after := p.schedulers[m.zoneId.value := Insert(p.schedulers[m.zoneId.value], m)];
    TotalBytes(p.order, after) > caps.maxNonSafetyBytes || TotalMessages(p.order, after) > caps.maxNonSafetyMessages
  }

  // Process admission answers itself for an unknown zone, and for all but safety messages over the caps.
  ghost predicate CapacitySpeaks<T>(p: Process<T>, caps: Caps, m: Message<T>) {
    m.zoneId.None? || m.zoneId.value !in p.schedulers || (m.messageClass != Safety && OverCaps(p, caps, m))
  }

  ghost predicate IsCapacityAnswer<T>(p: Process<T>, m: Message<T>, r: AdmissionResult<T>) {
    if m.zoneId.None? || m.zoneId.value !in p.schedulers then r == Refused(GlobalCapacity)
    else if m.messageClass.Liveness? then r == Shed(GlobalCapacity)
    else if m.messageClass.Diagnostic? then r == Dropped(GlobalCapacity)
    else r == Refused(GlobalCapacity)
  }

  ghost predicate IsProcessVerdict<T>(p: Process<T>, caps: Caps, m: Message<T>, r: AdmissionResult<T>) {
    if CapacitySpeaks(p, caps, m) then IsCapacityAnswer(p, m, r) else IsVerdict(p.schedulers[m.zoneId.value], m, r)
  }

  /** Every verdict of process admission has its condition on the message and the zones, and is given exactly under it. */
  lemma ProcessVerdictIff<T>(p: Process<T>, caps: Caps, m: Message<T>, r: AdmissionResult<T>)
    requires ProcessInv(p, caps)
    ensures DecideIn(p, caps, m) == r <==> IsProcessVerdict(p, caps, m, r)
  {
    if CapacitySpeaks(p, caps, m) {
      CapacityAnswers(p, caps, m, r);
    } else {
      ZoneAnswers(p, caps, m);
      VerdictIff(p.schedulers[m.zoneId.value], m, r);
    }
  }

  lemma CapacityAnswers<T>(p: Process<T>, caps: Caps, m: Message<T>, r: AdmissionResult<T>)
    requires OrderLists(p) && CapacitySpeaks(p, caps, m)
    ensures DecideIn(p, caps, m) == r <==> IsCapacityAnswer(p, m, r)
  {
    if Addressed(p, m) {
      OverIff(p, caps, m);
    }
  }

  lemma ZoneAnswers<T>(p: Process<T>, caps: Caps, m: Message<T>)
    requires OrderLists(p) && !CapacitySpeaks(p, caps, m)
    ensures DecideIn(p, caps, m) == Decide(p.schedulers[m.zoneId.value], m)
  {
    if !m.messageClass.Safety? {
      OverIff(p, caps, m);
    }
  }

  lemma OverIff<T>(p: Process<T>, caps: Caps, m: Message<T>)
    requires OrderLists(p) && Addressed(p, m) && !m.messageClass.Safety?
    ensures OverCap(p, caps, m) <==> OverCaps(p, caps, m)
  {
    var s := p.schedulers[m.zoneId.value];
    PredictedChange(s, m);
    TotalUpdate(p, m.zoneId.value, Insert(s, m));
  }

  // ---------- Zones ----------

  // A zone is admitted exactly if it has a name and is registered already or there is room for one more.
  ghost predicate IsRegistration<T>(p: Process<T>, caps: Caps, zone: string, after: Process<T>, r: Registration) {
    && (r.ZoneAdmitted? <==> zone != "" && (zone in p.schedulers || |p.schedulers| < caps.maxActiveSessions))
    && (r.CapacityRefused? || zone in p.schedulers ==> after == p)
    && (r.ZoneAdmitted? && zone !in p.schedulers ==> IsOpened(p, zone, after))
  }

  // A new zone comes last in the order, with an empty scheduler; every other zone is as before.
  ghost predicate IsOpened<T>(p: Process<T>, zone: string, after: Process<T>) {
    && after.order == p.order + [zone] && after.cursor == p.cursor
    && after.schedulers.Keys == p.schedulers.Keys + {zone}
    && IsEmpty(after.schedulers[zone])
    && forall z :: z in p.schedulers ==> after.schedulers[z] == p.schedulers[z]
  }

  /** Registering admits, refuses and opens a zone exactly as described. */
  lemma RegisterMeans<T>(p: Process<T>, caps: Caps, zone: string)
    requires OrderLists(p)
    ensures IsRegistration(p, caps, zone, Register(p, caps, zone).0, Register(p, caps, zone).1)
  {
    OrderIsKeys(p.order, p.schedulers.Keys);
  }

  lemma {:induction false} OrderIsKeys(order: seq<string>, keys: set<string>)
    requires forall z :: z in order <==> z in keys
    requires forall i, j :: 0 <= i < j < |order| ==> order[i] != order[j]
    ensures |order| == |keys|
  {
    if order == [] {
      assert keys == {};
    } else {
      var rest := order[1..];
      assert forall z :: z in rest <==> z in keys - {order[0]} by {
        forall z ensures z in rest <==> z in keys - {order[0]} {
          if z in rest {
            var i :| 0 <= i < |rest| && rest[i] == z;
            assert order[i + 1] == z;
          }
          if z in keys && z != order[0] {
            var i :| 0 <= i < |order| && order[i] == z;
            assert rest[i - 1] == z;
          }
        }
      }
      OrderIsKeys(rest, keys - {order[0]});
    }
  }

  // The zone is gone, the others keep their schedulers and their order, and the cursor stays unless the order became too short.
  ghost predicate IsLeft<T>(p: Process<T>, zone: string, after: Process<T>) {
    && zone !in after.schedulers && zone !in after.order
    && after.schedulers.Keys == p.schedulers.Keys - {zone}
    && (forall z :: z in after.schedulers ==> after.schedulers[z] == p.schedulers[z])
    && (exists i :: 0 <= i < |p.order| && p.order[i] == zone && after.order == p.order[..i] + p.order[i + 1..])
    && after.cursor == (if after.order == [] then 0 else if p.cursor < |after.order| then p.cursor else |after.order| - 1)
  }

  /** Unregistering an unknown zone changes nothing; otherwise the zone leaves and everything else stays. */
  lemma UnregisterMeans<T>(p: Process<T>, zone: string)
    requires OrderLists(p)
    ensures zone !in p.schedulers ==> Unregister(p, zone) == p
    ensures zone in p.schedulers ==> IsLeft(p, zone, Unregister(p, zone))
  {
    if zone in p.schedulers {
      UnregisterOrder(p, zone);
      Strike(p.order, ZoneIndex(p.order, zone));
    }
  }

  // The first zone with work, counted from the one whose turn it is.
  ghost predicate FirstZone<T>(p: Process<T>, k: int)
    requires OrderLists(p)
  {
    0 <= k < |p.order| && !IdleZone(p, k) && forall j :: 0 <= j < k ==> IdleZone(p, j)
  }

  ghost predicate IdleZone<T>(p: Process<T>, j: nat)
    requires OrderLists(p) && j < |p.order|
  {
    !HasQueued(p.schedulers[p.order[RoundRobin.Slot(p.cursor, j, |p.order|)]])
  }

  // The zone in turn delivers from all classes, and the turn passes to the zone behind it; no other zone changes.
  ghost predicate IsServed<T>(p: Process<T>, token: CompletionToken, k: int, after: Process<T>)
    requires OrderLists(p) && ZonesKept(p)
  {
    && FirstZone(p, k)
    && var i := RoundRobin.Slot(p.cursor, k, |p.order|);
       && after.order == p.order && after.cursor == RoundRobin.Slot(i, 1, |p.order|)
       && after.schedulers == p.schedulers[p.order[i] := Dequeue(p.schedulers[p.order[i]], None, token)]
  }

  /** Where no zone has work nothing happens; otherwise the first zone in turn that has work is served. */
  lemma DequeueServesZone<T>(p: Process<T>, token: CompletionToken)
    requires OrderLists(p) && ZonesKept(p)
    ensures (forall z :: z in p.schedulers ==> !HasQueued(p.schedulers[z])) ==> DequeueFrom(p, token) == p
    ensures (exists z :: z in p.schedulers && HasQueued(p.schedulers[z])) ==> exists k :: IsServed(p, token, k, DequeueFrom(p, token))
  {
    if NextZone(p).Some? {
      var k := ScanIsFirstZone(p);
      assert IsServed(p, token, k, DequeueFrom(p, token));
    }
  }

  lemma ScanIsFirstZone<T>(p: Process<T>) returns (k: nat)
    requires OrderLists(p) && NextZone(p).Some?
    ensures FirstZone(p, k) && NextZone(p) == Some(RoundRobin.Slot(p.cursor, k, |p.order|))
  {
    var backlog := ZoneBacklog(p);
    k := RoundRobin.ScanFrom(backlog, p.cursor, 0).value;
    forall j | 0 <= j < k ensures IdleZone(p, j) {
      assert !backlog[RoundRobin.Slot(p.cursor, j, |backlog|)];
    }
  }

  /** A token completes in the one zone that has it in flight, and changes no other zone; an unknown token changes nothing. */
  lemma CompleteInHome<T>(p: Process<T>, token: CompletionToken, zone: string)
    requires OrderLists(p) && ZonesKept(p)
    ensures CompleteIn(p, token).order == p.order && CompleteIn(p, token).cursor == p.cursor
    ensures CompleteIn(p, token).schedulers.Keys == p.schedulers.Keys
    ensures zone in p.schedulers ==>
              CompleteIn(p, token).schedulers[zone]
              == if IsLive(p.schedulers[zone], token) then Complete(p.schedulers[zone], token) else p.schedulers[zone]
  {
    var i := Home(p, token);
    if zone in p.schedulers && IsLive(p.schedulers[zone], token) {
      var j :| 0 <= j < |p.order| && p.order[j] == zone;
      assert p.order[i] != zone ==> Apart(p.schedulers[p.order[i]], p.schedulers[zone]);
    }
  }
}
