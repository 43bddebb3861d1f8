/**
 * What process admission does, without its bookkeeping: one scheduler per registered
 * zone, the order in which zones are served, and a cap on what all zones hold together
 * outside the safety class. The cap is stated on sums over the zones.
 */
module ProcessModel {
  import opened Options
  import opened Admission
  import opened SchedulerModel
  import RoundRobin

  datatype Caps = Caps(maxActiveSessions: nat, maxNonSafetyBytes: nat, maxNonSafetyMessages: nat)

  datatype Process<+T> = Process(order: seq<string>, schedulers: map<string, State<T>>, cursor: nat)

  datatype Registration = ZoneAdmitted | CapacityRefused

  // ---------- Totals ----------

  function NonSafetyBytes<T>(s: State<T>): int {
    Held(s, Authority).bytes + Held(s, Liveness).bytes + Held(s, Diagnostic).bytes
  }

  function NonSafetyMessages<T>(s: State<T>): int {
    Held(s, Authority).messages + Held(s, Liveness).messages + Held(s, Diagnostic).messages
  }

  function TotalBytes<T>(order: seq<string>, schedulers: map<string, State<T>>): int {
    if order == [] then 0
    else (if order[0] in schedulers then NonSafetyBytes(schedulers[order[0]]) else 0) + TotalBytes(order[1..], schedulers)
  }

  function TotalMessages<T>(order: seq<string>, schedulers: map<string, State<T>>): int {
    if order == [] then 0
    else (if order[0] in schedulers then NonSafetyMessages(schedulers[order[0]]) else 0) + TotalMessages(order[1..], schedulers)
  }

  // ---------- Operations ----------

  ghost function Register<T>(p: Process<T>, caps: Caps, zone: string): (r: (Process<T>, Registration)) {
    if zone == "" then (p, CapacityRefused)
    else if zone in p.schedulers then (p, ZoneAdmitted)
    else if |p.order| >= caps.maxActiveSessions then (p, CapacityRefused)
    else (WithZone(p, zone, Empty<T>()), ZoneAdmitted)
  }

  function WithZone<T>(p: Process<T>, zone: string, s: State<T>): Process<T> {
    p.(order := p.order + [zone], schedulers := p.schedulers[zone := s])
  }

  // Where a message is to be queued, if its zone is registered.
  predicate Addressed<T>(p: Process<T>, m: Message<T>) {
    m.zoneId.Some? && m.zoneId.value in p.schedulers
  }

  predicate OverCap<T>(p: Process<T>, caps: Caps, m: Message<T>)
    requires Addressed(p, m)
  {
    var prior := PriorFor(p.schedulers[m.zoneId.value], m);
    || TotalMessages(p.order, p.schedulers) + 1 - PriorCount(prior) > caps.maxNonSafetyMessages
    || TotalBytes(p.order, p.schedulers) + m.byteLength - PriorBytes(prior) > caps.maxNonSafetyBytes
  }

  function CapVerdict<T>(c: MessageClass): AdmissionResult<T> {
    match c
    case Authority => Refused(GlobalCapacity)
    case Liveness => Shed(GlobalCapacity)
    case _ => Dropped(GlobalCapacity)
  }

  function DecideIn<T>(p: Process<T>, caps: Caps, m: Message<T>): AdmissionResult<T> {
    if !Addressed(p, m) then Refused(GlobalCapacity)
    else if !m.messageClass.Safety? && OverCap(p, caps, m) then CapVerdict(m.messageClass)
    else Decide(p.schedulers[m.zoneId.value], m)
  }

  function EnqueueIn<T>(p: Process<T>, caps: Caps, m: Message<T>): Process<T> {
    if DecideIn(p, caps, m).Accepts() && Addressed(p, m)
    then p.(schedulers := p.schedulers[m.zoneId.value := Insert(p.schedulers[m.zoneId.value], m)])
    else p
  }

  predicate HasQueued<T>(s: State<T>) { exists c :: Queued(s, c) != [] }

  ghost predicate OrderLists<T>(p: Process<T>) {
    && (forall i :: 0 <= i < |p.order| ==> p.order[i] in p.schedulers)
    && (forall i, j :: 0 <= i < j < |p.order| ==> p.order[i] != p.order[j])
    && (forall z :: z in p.schedulers ==> z in p.order)
    && (if p.order == [] then p.cursor == 0 else p.cursor < |p.order|)
  }

  ghost function ZoneBacklog<T>(p: Process<T>): (backlog: seq<bool>)
    requires OrderLists(p)
    ensures |backlog| == |p.order|
    ensures forall i :: 0 <= i < |backlog| ==> backlog[i] == HasQueued(p.schedulers[p.order[i]])
  {
    seq(|p.order|, i requires 0 <= i < |p.order| => HasQueued(p.schedulers[p.order[i]]))
  }

  // The slot of the zone order the next dequeue serves.
  ghost function NextZone<T>(p: Process<T>): (r: Option<nat>)
    requires OrderLists(p)
    ensures r.Some? ==> r.value < |p.order| && HasQueued(p.schedulers[p.order[r.value]])
    ensures r.None? <==> forall z :: z in p.schedulers ==> !HasQueued(p.schedulers[z])
  {
    var r := RoundRobin.Scan(ZoneBacklog(p), p.cursor);
    assert r.None? ==> forall z :: z in p.schedulers ==> !HasQueued(p.schedulers[z]) by {
      if r.None? {
        forall z | z in p.schedulers ensures !HasQueued(p.schedulers[z]) {
          var i :| 0 <= i < |p.order| && p.order[i] == z;
          assert !ZoneBacklog(p)[i];
        }
      }
    }
    r
  }

  ghost function DequeueFrom<T>(p: Process<T>, token: CompletionToken): Process<T>
    requires OrderLists(p) && forall z :: z in p.schedulers ==> CursorsInRange(p.schedulers[z])
  {
    var slot := NextZone(p);
    if slot.None? then p else ServedAt(p, slot.value, token)
  }

  // The state once the zone at a slot of the order was served.
  ghost function ServedAt<T>(p: Process<T>, slot: nat, token: CompletionToken): Process<T>
    requires slot < |p.order| && p.order[slot] in p.schedulers && CursorsInRange(p.schedulers[p.order[slot]])
  {
    var zone := p.order[slot];
    p.(schedulers := p.schedulers[zone := Dequeue(p.schedulers[zone], None, token)],
       cursor := RoundRobin.Slot(slot, 1, |p.order|))
  }

  // The zone in which a delivery is in flight.
  function Home<T>(p: Process<T>, token: CompletionToken, from: nat := 0): (i: nat)
    requires from <= |p.order|
    ensures from <= i <= |p.order|
    ensures i < |p.order| ==> p.order[i] in p.schedulers && IsLive(p.schedulers[p.order[i]], token)
    ensures forall j :: from <= j < i ==> !(p.order[j] in p.schedulers && IsLive(p.schedulers[p.order[j]], token))
    decreases |p.order| - from
  {
    if from == |p.order| || (p.order[from] in p.schedulers && IsLive(p.schedulers[p.order[from]], token)) then from
    else Home(p, token, from + 1)
  }

  function CompleteIn<T>(p: Process<T>, token: CompletionToken): Process<T> {
    var i := Home(p, token);
    if i == |p.order| then p
    else p.(schedulers := p.schedulers[p.order[i] := Complete(p.schedulers[p.order[i]], token)])
  }

  function ZoneIndex(order: seq<string>, zone: string, from: nat := 0): (i: nat)
    requires from <= |order|
    ensures from <= i <= |order|
    ensures i < |order| ==> order[i] == zone
    ensures forall j :: from <= j < i ==> order[j] != zone
    decreases |order| - from
  {
    if from == |order| || order[from] == zone then from else ZoneIndex(order, zone, from + 1)
  }

  function Unregister<T>(p: Process<T>, zone: string): Process<T> {
    var i := ZoneIndex(p.order, zone);
    if i == |p.order| then p
    else Process(Without(p.order, i), p.schedulers - {zone}, Clamp(p.cursor, |p.order| - 1))
  }

  // ---------- The invariant ----------

  // Every message a zone's scheduler holds is addressed to that zone.
  ghost predicate Homed<T>(s: State<T>, zone: string) {
    && (forall c, i :: 0 <= i < |Queued(s, c)| ==> Queued(s, c)[i].zoneId == Some(zone))
    && (forall i :: 0 <= i < |s.inFlight| ==> s.inFlight[i].message.zoneId == Some(zone))
  }

  // No delivery is in flight in two zones.
  ghost predicate Apart<T>(a: State<T>, b: State<T>) {
    forall i, j :: 0 <= i < |a.inFlight| && 0 <= j < |b.inFlight| ==> a.inFlight[i].token != b.inFlight[j].token
  }

  ghost predicate ZonesKept<T>(p: Process<T>) {
    && (forall z :: z in p.schedulers ==> z != "" && Inv(p.schedulers[z]) && Homed(p.schedulers[z], z))
    && (forall y, z :: y in p.schedulers && z in p.schedulers && y != z ==> Apart(p.schedulers[y], p.schedulers[z]))
  }

  ghost predicate WithinCaps<T>(p: Process<T>, caps: Caps) {
    && |p.order| <= caps.maxActiveSessions
    && TotalBytes(p.order, p.schedulers) <= caps.maxNonSafetyBytes
    && TotalMessages(p.order, p.schedulers) <= caps.maxNonSafetyMessages
  }

  ghost predicate ProcessInv<T>(p: Process<T>, caps: Caps) {
    OrderLists(p) && ZonesKept(p) && WithinCaps(p, caps)
  }

  // ---------- Sums over the zones ----------

  lemma {:induction false} TotalConcat<T>(a: seq<string>, b: seq<string>, schedulers: map<string, State<T>>)
    ensures TotalBytes(a + b, schedulers) == TotalBytes(a, schedulers) + TotalBytes(b, schedulers)
    ensures TotalMessages(a + b, schedulers) == TotalMessages(a, schedulers) + TotalMessages(b, schedulers)
  {
    if a == [] {
      assert a + b == b;
    } else {
      var whole := a + b;
      assert whole[0] == a[0] && whole[1..] == a[1..] + b;
      TotalConcat(a[1..], b, schedulers);
    }
  }

  // Zones outside the list do not matter to its total.
  lemma {:induction false} TotalAgrees<T>(order: seq<string>, a: map<string, State<T>>, b: map<string, State<T>>)
    requires forall i :: 0 <= i < |order| ==> order[i] in a && order[i] in b && a[order[i]] == b[order[i]]
    ensures TotalBytes(order, a) == TotalBytes(order, b)
    ensures TotalMessages(order, a) == TotalMessages(order, b)
  {
    if order != [] {
      forall i | 0 <= i < |order[1..]|
        ensures order[1..][i] in a && order[1..][i] in b && a[order[1..][i]] == b[order[1..][i]]
      {
        assert order[1..][i] == order[i + 1];
      }
      TotalAgrees(order[1..], a, b);
    }
  }

  // The total of a list is the share of one zone and the total of the others.
  lemma TotalSplit<T>(order: seq<string>, i: nat, schedulers: map<string, State<T>>)
    requires i < |order| && order[i] in schedulers
    ensures TotalBytes(order, schedulers) == TotalBytes(Without(order, i), schedulers) + NonSafetyBytes(schedulers[order[i]])
    ensures TotalMessages(order, schedulers)
         == TotalMessages(Without(order, i), schedulers) + NonSafetyMessages(schedulers[order[i]])
  {
    var tail := order[i..];
    assert order == order[..i] + tail && tail[0] == order[i] && tail[1..] == order[i + 1..];
    TotalConcat(order[..i], tail, schedulers);
    TotalConcat(order[..i], order[i + 1..], schedulers);
  }

  /** Changing one zone's scheduler changes the total by that zone's change. */
  lemma TotalUpdate<T>(p: Process<T>, zone: string, s: State<T>)
    requires OrderLists(p) && zone in p.schedulers
    ensures TotalBytes(p.order, p.schedulers[zone := s])
         == TotalBytes(p.order, p.schedulers) - NonSafetyBytes(p.schedulers[zone]) + NonSafetyBytes(s)
    ensures TotalMessages(p.order, p.schedulers[zone := s])
         == TotalMessages(p.order, p.schedulers) - NonSafetyMessages(p.schedulers[zone]) + NonSafetyMessages(s)
  {
    var i := ZoneIndex(p.order, zone);
    TotalSplit(p.order, i, p.schedulers);
    TotalSplit(p.order, i, p.schedulers[zone := s]);
    WithoutAt(p.order, i);
    TotalAgrees(Without(p.order, i), p.schedulers, p.schedulers[zone := s]);
  }

  lemma NonSafetyNonNegative<T>(s: State<T>)
    requires WellFormed(s)
    ensures NonSafetyBytes(s) >= 0 && NonSafetyMessages(s) >= 0
  {
    HeldNonNegative(s, Authority);
    HeldNonNegative(s, Liveness);
    HeldNonNegative(s, Diagnostic);
  }

  lemma HeldNonNegative<T>(s: State<T>, c: MessageClass)
    requires WellFormed(s)
    ensures Held(s, c).bytes >= 0 && Held(s, c).messages >= 0
  {
    QueuedNonNegative(s, c);
    SelectMembers(s.inFlight, OfClass(c));
    var flying := Select(s.inFlight, OfClass(c));
    assert forall i :: 0 <= i < |flying| ==> Validate(flying[i]).None?;
    BytesNonNegative(flying);
  }

  // ---------- What the pre-check predicts ----------

  /**
   * Whenever a scheduler accepts a non-safety message, its zone's total moves by exactly
   * the change the cap check predicted from the queued message it would replace.
   */
  lemma PredictedChange<T>(s: State<T>, m: Message<T>)
    requires !m.messageClass.Safety?
    ensures NonSafetyBytes(Insert(s, m)) == NonSafetyBytes(s) + m.byteLength - PriorBytes(PriorFor(s, m))
    ensures NonSafetyMessages(Insert(s, m)) == NonSafetyMessages(s) + 1 - PriorCount(PriorFor(s, m))
  {
    InsertHeld(s, m, Authority);
    InsertHeld(s, m, Liveness);
    InsertHeld(s, m, Diagnostic);
  }

  lemma SafetyOutsideTheCap<T>(s: State<T>, m: Message<T>)
    requires m.messageClass.Safety?
    ensures NonSafetyBytes(Insert(s, m)) == NonSafetyBytes(s)
    ensures NonSafetyMessages(Insert(s, m)) == NonSafetyMessages(s)
  {
    InsertHeld(s, m, Authority);
    InsertHeld(s, m, Liveness);
    InsertHeld(s, m, Diagnostic);
  }

  // ---------- The invariant is kept ----------

  lemma OrderKept<T>(p: Process<T>, zone: string, s: State<T>)
    requires OrderLists(p) && zone in p.schedulers
    ensures OrderLists(p.(schedulers := p.schedulers[zone := s]))
  {
  }

  ghost predicate ApartFromOthers<T>(p: Process<T>, zone: string, s: State<T>) {
    forall z :: z in p.schedulers && z != zone ==> Apart(p.schedulers[z], s) && Apart(s, p.schedulers[z])
  }

  lemma SetZone<T>(p: Process<T>, zone: string, s: State<T>)
    requires ZonesKept(p) && zone != "" && Inv(s) && Homed(s, zone) && ApartFromOthers(p, zone, s)
    ensures ZonesKept(p.(schedulers := p.schedulers[zone := s]))
  {
    var after := p.schedulers[zone := s];
    forall y, z | y in after && z in after && y != z ensures Apart(after[y], after[z]) {
      if y == zone {
        assert Apart(s, p.schedulers[z]);
      } else if z == zone {
        assert Apart(p.schedulers[y], s);
      } else {
        assert Apart(p.schedulers[y], p.schedulers[z]);
      }
    }
    forall z | z in after ensures z != "" && Inv(after[z]) && Homed(after[z], z) {
    }
  }

  // Replacing one zone's scheduler by a sound one that keeps to its own tokens.
  lemma ReplaceZone<T>(p: Process<T>, caps: Caps, zone: string, s: State<T>)
    requires ProcessInv(p, caps) && zone in p.schedulers
    requires Inv(s) && Homed(s, zone) && ApartFromOthers(p, zone, s)
    requires TotalBytes(p.order, p.schedulers) - NonSafetyBytes(p.schedulers[zone]) + NonSafetyBytes(s) <= caps.maxNonSafetyBytes
    requires TotalMessages(p.order, p.schedulers) - NonSafetyMessages(p.schedulers[zone]) + NonSafetyMessages(s)
          <= caps.maxNonSafetyMessages
    ensures ProcessInv(p.(schedulers := p.schedulers[zone := s]), caps)
  {
    OrderKept(p, zone, s);
    SetZone(p, zone, s);
    TotalUpdate(p, zone, s);
  }

  lemma RegisterInv<T>(p: Process<T>, caps: Caps, zone: string)
    requires ProcessInv(p, caps)
    ensures ProcessInv(Register(p, caps, zone).0, caps)
  {
    if zone != "" && zone !in p.schedulers && |p.order| < caps.maxActiveSessions {
      AddZone(p, caps, zone, Empty<T>());
    }
  }

  lemma EmptyHoldsNothing<T>(s: State<T>, zone: string)
    requires IsEmpty(s)
    ensures Inv(s) && Homed(s, zone) && NonSafetyBytes(s) == 0 && NonSafetyMessages(s) == 0
  {
    EmptyInv(s);
  }

  lemma AddZone<T>(p: Process<T>, caps: Caps, zone: string, s: State<T>)
    requires ProcessInv(p, caps) && zone != "" && zone !in p.schedulers && |p.order| < caps.maxActiveSessions
    requires IsEmpty(s)
    ensures ProcessInv(WithZone(p, zone, s), caps)
  {
    EmptyHoldsNothing(s, zone);
    SetZone(p, zone, s);
    RegisterOrder(p, zone, s);
    RegisterTotals(p, zone, s);
    assert ZonesKept(WithZone(p, zone, s));
  }

  lemma RegisterTotals<T>(p: Process<T>, zone: string, s: State<T>)
    requires OrderLists(p) && zone !in p.schedulers && NonSafetyBytes(s) == 0 && NonSafetyMessages(s) == 0
    ensures TotalBytes(p.order + [zone], p.schedulers[zone := s]) == TotalBytes(p.order, p.schedulers)
    ensures TotalMessages(p.order + [zone], p.schedulers[zone := s]) == TotalMessages(p.order, p.schedulers)
  {
    var after, last := p.schedulers[zone := s], [zone];
    TotalConcat(p.order, last, after);
    TotalAgrees(p.order, p.schedulers, after);
    assert last[1..] == [];
  }

  lemma RegisterOrder<T>(p: Process<T>, zone: string, s: State<T>)
    requires OrderLists(p) && zone !in p.schedulers
    ensures OrderLists(WithZone(p, zone, s))
  {
    var after := WithZone(p, zone, s);
    forall z | z in after.schedulers ensures z in after.order {
      assert z == zone ==> after.order[|p.order|] == z;
    }
  }

  lemma EnqueueInInv<T>(p: Process<T>, caps: Caps, m: Message<T>)
    requires ProcessInv(p, caps)
    ensures ProcessInv(EnqueueIn(p, caps, m), caps)
  {
    if Addressed(p, m) && DecideIn(p, caps, m).Accepts() {
      InsertSound(p, caps, m);
      InsertWithinCaps(p, caps, m);
      ReplaceZone(p, caps, m.zoneId.value, Insert(p.schedulers[m.zoneId.value], m));
    }
  }

  lemma InsertSound<T>(p: Process<T>, caps: Caps, m: Message<T>)
    requires ZonesKept(p) && Addressed(p, m) && DecideIn(p, caps, m).Accepts()
    ensures var (zone, after) := (m.zoneId.value, Insert(p.schedulers[m.zoneId.value], m));
            Inv(after) && Homed(after, zone) && ApartFromOthers(p, zone, after)
  {
    var s := p.schedulers[m.zoneId.value];
    EnqueueInv(s, m);
    InsertHomed(s, m, m.zoneId.value);
    ApartKept(p, m.zoneId.value, Insert(s, m));
  }

  /** Because the pre-check predicts the change exactly, no accepted message exceeds the caps. */
  lemma InsertWithinCaps<T>(p: Process<T>, caps: Caps, m: Message<T>)
    requires OrderLists(p) && WithinCaps(p, caps) && Addressed(p, m) && DecideIn(p, caps, m).Accepts()
    ensures var (s, after) := (p.schedulers[m.zoneId.value], Insert(p.schedulers[m.zoneId.value], m));
            && TotalBytes(p.order, p.schedulers) - NonSafetyBytes(s) + NonSafetyBytes(after) <= caps.maxNonSafetyBytes
            && TotalMessages(p.order, p.schedulers) - NonSafetyMessages(s) + NonSafetyMessages(after) <= caps.maxNonSafetyMessages
  {
    var s := p.schedulers[m.zoneId.value];
    if m.messageClass.Safety? {
      SafetyOutsideTheCap(s, m);
    } else {
      PredictedChange(s, m);
    }
  }

  /** An addressed message is accepted exactly if it is valid and leaves its zone within its limits and all zones within the caps. */
  lemma AcceptedIffWithinCaps<T>(p: Process<T>, caps: Caps, m: Message<T>)
    requires ProcessInv(p, caps) && Addressed(p, m)
    ensures var (zone, after) := (m.zoneId.value, Insert(p.schedulers[m.zoneId.value], m));
            DecideIn(p, caps, m).Accepts() <==>
              Validate(m).None? && WithinLimits(after) && WithinCaps(p.(schedulers := p.schedulers[zone := after]), caps)
  {
    var s := p.schedulers[m.zoneId.value];
    AcceptedIffWithinLimits(s, m);
    TotalUpdate(p, m.zoneId.value, Insert(s, m));
    if m.messageClass.Safety? {
      SafetyOutsideTheCap(s, m);
    } else {
      PredictedChange(s, m);
    }
  }

  // A scheduler whose flight is part of the zone's flight stays apart from the others.
  lemma ApartKept<T>(p: Process<T>, zone: string, s: State<T>)
    requires ZonesKept(p) && zone in p.schedulers
    requires forall i :: 0 <= i < |s.inFlight| ==> s.inFlight[i] in p.schedulers[zone].inFlight
    ensures ApartFromOthers(p, zone, s)
  {
    forall z | z in p.schedulers && z != zone ensures Apart(p.schedulers[z], s) && Apart(s, p.schedulers[z]) {
      assert Apart(p.schedulers[z], p.schedulers[zone]);
    }
  }

  lemma InsertHomed<T>(s: State<T>, m: Message<T>, zone: string)
    requires Homed(s, zone) && m.zoneId == Some(zone)
    ensures Homed(Insert(s, m), zone)
  {
    var after := Insert(s, m);
    forall c, i | 0 <= i < |Queued(after, c)| ensures Queued(after, c)[i].zoneId == Some(zone) {
      if c == m.messageClass {
        InsertMembers(s, m, i);
      } else {
        assert Queued(after, c) == Queued(s, c);
      }
    }
  }

  lemma InsertMembers<T>(s: State<T>, m: Message<T>, i: nat)
    requires i < |Queued(Insert(s, m), m.messageClass)|
    ensures var x := Queued(Insert(s, m), m.messageClass)[i];
            x == m || exists j :: 0 <= j < |Queued(s, m.messageClass)| && Queued(s, m.messageClass)[j] == x
  {
    var before, after := Queued(s, m.messageClass), Queued(Insert(s, m), m.messageClass);
    if m.messageClass.Authority? {
      var k := PrincipalIndex(s.authority, PrincipalOf(m));
      if k < |s.authority| {
        var q := PrincipalQueue(s.authority[k].principal, s.authority[k].queued + [m]);
        FlattenSplit(s.authority, k);
        FlattenUpdate(s.authority, k, q);
        var left, right := Flatten(s.authority[..k]), Flatten(s.authority[k + 1..]);
        assert before == left + s.authority[k].queued + right && after == left + q.queued + right;
        if i < |left| + |s.authority[k].queued| {
          assert before[i] == after[i];
        } else if i > |left| + |s.authority[k].queued| {
          assert before[i - 1] == after[i];
        }
      } else {
        FlattenConcat(s.authority, [PrincipalQueue(PrincipalOf(m), [m])]);
        assert Flatten([PrincipalQueue(PrincipalOf(m), [m])]) == [m];
        if i < |before| {
          assert before[i] == after[i];
        }
      }
    } else if after[i] != m {
      assert before[i] == after[i];
    }
  }

  lemma DequeueFromInv<T>(p: Process<T>, caps: Caps, token: CompletionToken)
    requires ProcessInv(p, caps) && Home(p, token) == |p.order|
    ensures ProcessInv(DequeueFrom(p, token), caps)
  {
    if NextZone(p).Some? {
      ServeInv(p, caps, NextZone(p).value, token);
    }
  }

  lemma ServeInv<T>(p: Process<T>, caps: Caps, slot: nat, token: CompletionToken)
    requires ProcessInv(p, caps) && slot < |p.order| && Home(p, token) == |p.order|
    ensures ProcessInv(ServedAt(p, slot, token), caps)
  {
    var zone := p.order[slot];
    var after := Dequeue(p.schedulers[zone], None, token);
    DequeueSound(p, zone, token);
    SameTotals(p.schedulers[zone], after, token);
    ReplaceZone(p, caps, zone, after);
  }

  // A token that is live nowhere is new to every zone.
  ghost predicate NewToken<T>(p: Process<T>, token: CompletionToken) {
    forall z :: z in p.schedulers ==> !IsLive(p.schedulers[z], token)
  }

  lemma HomelessIsNew<T>(p: Process<T>, token: CompletionToken)
    requires OrderLists(p) && Home(p, token) == |p.order|
    ensures NewToken(p, token)
  {
    forall z | z in p.schedulers ensures !IsLive(p.schedulers[z], token) {
      var i :| 0 <= i < |p.order| && p.order[i] == z;
    }
  }

  lemma SameTotals<T>(s: State<T>, after: State<T>, token: CompletionToken)
    requires WellFormed(s) && after == Dequeue(s, None, token)
    ensures NonSafetyBytes(after) == NonSafetyBytes(s) && NonSafetyMessages(after) == NonSafetyMessages(s)
  {
    DequeueHeld(s, None, token, Authority);
    DequeueHeld(s, None, token, Liveness);
    DequeueHeld(s, None, token, Diagnostic);
  }

  lemma DequeueSound<T>(p: Process<T>, zone: string, token: CompletionToken)
    requires OrderLists(p) && ZonesKept(p) && zone in p.schedulers && Home(p, token) == |p.order|
    ensures var after := Dequeue(p.schedulers[zone], None, token);
            Inv(after) && Homed(after, zone) && ApartFromOthers(p, zone, after)
  {
    var s := p.schedulers[zone];
    var after := Dequeue(s, None, token);
    HomelessIsNew(p, token);
    DequeueInv(s, None, token);
    DequeueHomed(s, zone, token);
    forall z | z in p.schedulers && z != zone ensures Apart(p.schedulers[z], after) && Apart(after, p.schedulers[z]) {
      assert Apart(p.schedulers[z], s) && !IsLive(p.schedulers[z], token);
    }
  }

  lemma DequeueHomed<T>(s: State<T>, zone: string, token: CompletionToken)
    requires WellFormed(s) && Homed(s, zone)
    ensures Homed(Dequeue(s, None, token), zone)
  {
    var slot := NextSlot(s, None);
    if slot.Some? {
      var c := SERVICE_CYCLE[slot.value];
      var after := Dequeue(s, None, token);
      TakeMembers(s, c);
      forall d, i | 0 <= i < |Queued(after, d)| ensures Queued(after, d)[i].zoneId == Some(zone) {
        if d == c {
          assert Queued(after, d)[i] in Queued(s, d);
        } else {
          assert Queued(after, d) == Queued(s, d);
        }
      }
      assert HeadOf(s, c) in Queued(s, c);
    }
  }

  lemma TakeMembers<T>(s: State<T>, c: MessageClass)
    requires CursorsInRange(s) && Queued(s, c) != []
    ensures HeadOf(s, c) in Queued(s, c)
    ensures forall m :: m in Queued(Take(s, c), c) ==> m in Queued(s, c)
  {
    if c.Authority? {
      var i := NextPrincipal(s);
      var q := s.authority[i];
      FlattenSplit(s.authority, i);
      FlattenUpdate(s.authority, i, PrincipalQueue(q.principal, q.queued[1..]));
      assert q.queued[0] in q.queued;
      assert forall m :: m in q.queued[1..] ==> m in q.queued;
    } else {
      var ms := Queued(s, c);
      assert ms[0] in ms;
      assert forall m :: m in ms[1..] ==> m in ms;
    }
  }

  lemma CompleteInInv<T>(p: Process<T>, caps: Caps, token: CompletionToken)
    requires ProcessInv(p, caps)
    ensures ProcessInv(CompleteIn(p, token), caps)
  {
    var i := Home(p, token);
    if i < |p.order| {
      CompleteZone(p, caps, p.order[i], token);
    }
  }

  lemma CompleteZone<T>(p: Process<T>, caps: Caps, zone: string, token: CompletionToken)
    requires ProcessInv(p, caps) && zone in p.schedulers && IsLive(p.schedulers[zone], token)
    ensures ProcessInv(p.(schedulers := p.schedulers[zone := Complete(p.schedulers[zone], token)]), caps)
  {
    CompleteSound(p, zone, token);
    CompleteTotals(p.schedulers[zone], token);
    ReplaceZone(p, caps, zone, Complete(p.schedulers[zone], token));
  }

  lemma CompleteSound<T>(p: Process<T>, zone: string, token: CompletionToken)
    requires ZonesKept(p) && zone in p.schedulers && IsLive(p.schedulers[zone], token)
    ensures var after := Complete(p.schedulers[zone], token);
            Inv(after) && Homed(after, zone) && ApartFromOthers(p, zone, after)
  {
    var s := p.schedulers[zone];
    CompleteInv(s, token);
    CompleteHomed(s, zone, token);
    ApartKept(p, zone, Complete(s, token));
  }

  lemma CompleteHomed<T>(s: State<T>, zone: string, token: CompletionToken)
    requires WellFormed(s) && Homed(s, zone) && IsLive(s, token)
    ensures Homed(Complete(s, token), zone)
    ensures forall i :: 0 <= i < |Complete(s, token).inFlight| ==> Complete(s, token).inFlight[i] in s.inFlight
  {
    CompleteKeepsClassQueues(s, token);
    WithoutAt(s.inFlight, TokenIndex(s.inFlight, token));
  }

  lemma CompleteKeepsClassQueues<T>(s: State<T>, token: CompletionToken)
    requires WellFormed(s) && IsLive(s, token)
    ensures forall c :: Queued(Complete(s, token), c) == Queued(s, c)
    ensures Complete(s, token).inFlight == Without(s.inFlight, TokenIndex(s.inFlight, token))
  {
    var p := PrincipalOf(MessageFor(s, token));
    var landed := Landed(s, token);
    if Complete(s, token) != landed {
      HoldsNothing(landed, p);
      var i := PrincipalIndex(s.authority, p);
      if i < |s.authority| {
        DropFlatten(s.authority, i);
      }
    }
  }

  /** Completing a delivery takes its message's share, unless it is a safety message, out of the total. */
  lemma CompleteTotals<T>(s: State<T>, token: CompletionToken)
    requires WellFormed(s) && IsLive(s, token)
    ensures var (m, after) := (MessageFor(s, token), Complete(s, token));
            if m.messageClass.Safety?
            then NonSafetyBytes(after) == NonSafetyBytes(s) && NonSafetyMessages(after) == NonSafetyMessages(s)
            else NonSafetyBytes(after) == NonSafetyBytes(s) - m.byteLength && NonSafetyMessages(after) == NonSafetyMessages(s) - 1
    ensures NonSafetyBytes(Complete(s, token)) <= NonSafetyBytes(s) && NonSafetyMessages(Complete(s, token)) <= NonSafetyMessages(s)
  {
    assert MessageFor(s, token).byteLength > 0;
    CompleteHeld(s, token, Authority);
    CompleteHeld(s, token, Liveness);
    CompleteHeld(s, token, Diagnostic);
  }

  /**
   * Unregistering a zone returns exactly what that zone held and leaves every other
   * zone's scheduler as it was.
   */
  lemma UnregisterReturns<T>(p: Process<T>, zone: string)
    requires OrderLists(p) && zone in p.schedulers
    ensures var after := Unregister(p, zone);
            && TotalBytes(p.order, p.schedulers) == TotalBytes(after.order, after.schedulers) + NonSafetyBytes(p.schedulers[zone])
            && TotalMessages(p.order, p.schedulers)
               == TotalMessages(after.order, after.schedulers) + NonSafetyMessages(p.schedulers[zone])
            && zone !in after.schedulers
            && forall z :: z in p.schedulers && z != zone ==> z in after.schedulers && after.schedulers[z] == p.schedulers[z]
  {
    var i := ZoneIndex(p.order, zone);
    TotalSplit(p.order, i, p.schedulers);
    UnregisterOthers(p, zone, i);
  }

  lemma UnregisterOthers<T>(p: Process<T>, zone: string, i: nat)
    requires OrderLists(p) && i < |p.order| && p.order[i] == zone
    ensures TotalBytes(Without(p.order, i), p.schedulers - {zone}) == TotalBytes(Without(p.order, i), p.schedulers)
    ensures TotalMessages(Without(p.order, i), p.schedulers - {zone}) == TotalMessages(Without(p.order, i), p.schedulers)
  {
    WithoutAt(p.order, i);
    TotalAgrees(Without(p.order, i), p.schedulers, p.schedulers - {zone});
  }

  lemma UnregisterInv<T>(p: Process<T>, caps: Caps, zone: string)
    requires ProcessInv(p, caps)
    ensures ProcessInv(Unregister(p, zone), caps)
  {
    if zone in p.schedulers {
      UnregisterReturns(p, zone);
      NonSafetyNonNegative(p.schedulers[zone]);
      UnregisterOrder(p, zone);
    }
  }

  lemma UnregisterOrder<T>(p: Process<T>, zone: string)
    requires OrderLists(p) && zone in p.schedulers
    ensures OrderLists(Unregister(p, zone)) && |Unregister(p, zone).order| < |p.order|
  {
    Strike(p.order, ZoneIndex(p.order, zone));
  }

  // A list without repetitions loses one entry and keeps the others.
  lemma Strike(order: seq<string>, i: nat)
    requires i < |order| && forall j, k :: 0 <= j < k < |order| ==> order[j] != order[k]
    ensures |Without(order, i)| == |order| - 1
    ensures forall z :: z in Without(order, i) <==> z in order && z != order[i]
    ensures forall j, k :: 0 <= j < k < |Without(order, i)| ==> Without(order, i)[j] != Without(order, i)[k]
  {
    WithoutAt(order, i);
    forall z | z in order && z != order[i] ensures z in Without(order, i) {
      var j :| 0 <= j < |order| && order[j] == z;
      assert Without(order, i)[if j < i then j else j - 1] == z;
    }
  }
}
