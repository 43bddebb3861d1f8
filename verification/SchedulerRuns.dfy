/**
 * Whole runs of a scheduler: every accepted message has one fate, queues deliver in
 * admission order, and every class and principal with work is served in its turn.
 */
module SchedulerRuns {
  import opened Options
  import opened Admission
  import opened SchedulerModel
  import RoundRobin

  datatype Op<+T> =
    | EnqueueOp(message: Message<T>)
    | DequeueOp(allowed: Option<seq<MessageClass>>, token: CompletionToken)
    | CompleteOp(token: CompletionToken)
    | CancelOp

  // What a caller sees of one operation.
  datatype Event<+T> =
    | Nothing
    | Accepted(message: Message<T>, replaced: Option<Message<T>>)
    | Delivered(message: Message<T>)
    | Released(message: Message<T>)
    | Cancelled(messages: seq<Message<T>>)

  // A token handed out by a dequeue is new: it is not the token of a delivery in flight.
  ghost predicate Legal<T>(s: State<T>, op: Op<T>) {
    op.DequeueOp? ==> !IsLive(s, op.token)
  }

  ghost function Step<T>(s: State<T>, op: Op<T>): (after: State<T>)
    requires Inv(s) && Legal(s, op)
    ensures Inv(after)
  {
    match op
    case EnqueueOp(m) => EnqueueInv(s, m); Enqueue(s, m)
    case DequeueOp(allowed, token) => DequeueInv(s, allowed, token); Dequeue(s, allowed, token)
    case CompleteOp(token) => CompleteInv(s, token); Complete(s, token)
    case CancelOp => CancelInv(s); CancelQueued(s)
  }

  ghost function EventOf<T>(s: State<T>, op: Op<T>): Event<T>
    requires Inv(s)
  {
    match op
    case EnqueueOp(m) => EnqueueEvent(m, Decide(s, m))
    case DequeueOp(allowed, _) => DequeueEvent(Delivery(s, allowed))
    case CompleteOp(token) => if IsLive(s, token) then Released(MessageFor(s, token)) else Nothing
    case CancelOp => Cancelled(AllQueued(s))
  }

  ghost function EnqueueEvent<T>(m: Message<T>, verdict: AdmissionResult<T>): Event<T> {
    if verdict.Admitted? then Accepted(m, None)
    else if verdict.Replaced? then Accepted(m, Some(verdict.replacedMessage))
    else Nothing
  }

  ghost function DequeueEvent<T>(delivery: Option<Message<T>>): Event<T> {
    if delivery.Some? then Delivered(delivery.value) else Nothing
  }

  ghost predicate LegalRun<T>(s: State<T>, ops: seq<Op<T>>)
    requires Inv(s)
    decreases |ops|
  {
    ops != [] ==> Legal(s, ops[0]) && LegalRun(Step(s, ops[0]), ops[1..])
  }

  ghost function After<T>(s: State<T>, ops: seq<Op<T>>): (after: State<T>)
    requires Inv(s) && LegalRun(s, ops)
    ensures Inv(after)
    decreases |ops|
  {
    if ops == [] then s else After(Step(s, ops[0]), ops[1..])
  }

  ghost function Events<T>(s: State<T>, ops: seq<Op<T>>): seq<Event<T>>
    requires Inv(s) && LegalRun(s, ops)
    decreases |ops|
  {
    if ops == [] then [] else [EventOf(s, ops[0])] + Events(Step(s, ops[0]), ops[1..])
  }

  // ---------- One fate per message ----------

  datatype Fate = IsAccepted | IsReplaced | IsDelivered | IsReleased | IsCancelled

  // How often a message occurs in a list.
  ghost function Count<T>(ms: seq<Message<T>>, m: Message<T>): nat {
    if ms == [] then 0 else RoundRobin.Bit(ms[0] == m) + Count(ms[1..], m)
  }

  // How often one event gives a message a fate.
  ghost function Gives<T>(event: Event<T>, fate: Fate, m: Message<T>): nat {
    match fate
    case IsAccepted => RoundRobin.Bit(event.Accepted? && event.message == m)
    case IsReplaced => if event.Accepted? then CountPrior(event.replaced, m) else 0
    case IsDelivered => RoundRobin.Bit(event.Delivered? && event.message == m)
    case IsReleased => RoundRobin.Bit(event.Released? && event.message == m)
    case IsCancelled => if event.Cancelled? then Count(event.messages, m) else 0
  }

  ghost function CountPrior<T>(prior: Option<Message<T>>, m: Message<T>): nat {
    RoundRobin.Bit(prior.Some? && prior.value == m)
  }

  // How often a run gives a message a fate.
  ghost function Times<T>(events: seq<Event<T>>, fate: Fate, m: Message<T>): nat {
    if events == [] then 0 else Gives(events[0], fate, m) + Times(events[1..], fate, m)
  }

  ghost function Waiting<T>(s: State<T>, m: Message<T>): nat {
    Count(s.safety, m) + Count(Flatten(s.authority), m) + Count(s.liveness, m) + Count(s.diagnostic, m)
  }

  ghost function Flying<T>(inFlight: seq<InFlight<T>>, m: Message<T>): nat {
    if inFlight == [] then 0 else RoundRobin.Bit(inFlight[0].message == m) + Flying(inFlight[1..], m)
  }

  lemma {:induction false} CountConcat<T>(a: seq<Message<T>>, b: seq<Message<T>>, m: Message<T>)
    ensures Count(a + b, m) == Count(a, m) + Count(b, m)
  {
    if a == [] {
      assert a + b == b;
    } else {
      var whole := a + b;
      assert whole[0] == a[0] && whole[1..] == a[1..] + b;
      CountConcat(a[1..], b, m);
    }
  }

  lemma CountThree<T>(a: seq<Message<T>>, b: seq<Message<T>>, c: seq<Message<T>>, m: Message<T>)
    ensures Count(a + b + c, m) == Count(a, m) + Count(b, m) + Count(c, m)
  {
    CountConcat(a, b, m);
    CountConcat(a + b, c, m);
  }

  lemma CountAppend<T>(a: seq<Message<T>>, x: Message<T>, m: Message<T>)
    ensures Count(a + [x], m) == Count(a, m) + RoundRobin.Bit(x == m)
  {
    CountConcat(a, [x], m);
    assert Count([x][1..], m) == 0;
  }

  lemma CountPut<T>(ms: seq<Message<T>>, x: Message<T>, m: Message<T>)
    ensures Count(PutByKey(ms, x), m) + CountPrior(PriorOf(ms, x.coalesceKey), m) == Count(ms, m) + RoundRobin.Bit(x == m)
  {
    var i := KeyIndex(ms, x.coalesceKey);
    if i < |ms| {
      assert ms == ms[..i] + [ms[i]] + ms[i + 1..];
      assert ms[i := x] == ms[..i] + [x] + ms[i + 1..];
      CountThree(ms[..i], [ms[i]], ms[i + 1..], m);
      CountThree(ms[..i], [x], ms[i + 1..], m);
      CountAppend([], x, m);
      CountAppend([], ms[i], m);
      assert [] + [x] == [x] && [] + [ms[i]] == [ms[i]];
    } else {
      CountAppend(ms, x, m);
    }
  }

  lemma CountInserted<T>(queues: seq<PrincipalQueue<T>>, x: Message<T>, m: Message<T>)
    ensures Count(Flatten(InsertForPrincipal(queues, x)), m) == Count(Flatten(queues), m) + RoundRobin.Bit(x == m)
  {
    var i := PrincipalIndex(queues, PrincipalOf(x));
    if i < |queues| {
      var q := PrincipalQueue(queues[i].principal, queues[i].queued + [x]);
      CountReplacedQueue(queues, i, q, m);
      CountAppend(queues[i].queued, x, m);
    } else {
      var q := PrincipalQueue(PrincipalOf(x), [x]);
      FlattenConcat(queues, [q]);
      assert Flatten([q]) == [x];
      CountAppend(Flatten(queues), x, m);
    }
  }

  lemma CountReplacedQueue<T>(queues: seq<PrincipalQueue<T>>, i: nat, q: PrincipalQueue<T>, m: Message<T>)
    requires i < |queues|
    ensures Count(Flatten(queues[i := q]), m) + Count(queues[i].queued, m) == Count(Flatten(queues), m) + Count(q.queued, m)
  {
    FlattenSplit(queues, i);
    FlattenUpdate(queues, i, q);
    CountThree(Flatten(queues[..i]), queues[i].queued, Flatten(queues[i + 1..]), m);
    CountThree(Flatten(queues[..i]), q.queued, Flatten(queues[i + 1..]), m);
  }

  lemma InsertWaiting<T>(s: State<T>, x: Message<T>, m: Message<T>)
    ensures Waiting(Insert(s, x), m) + CountPrior(PriorFor(s, x), m) == Waiting(s, m) + RoundRobin.Bit(x == m)
  {
    match x.messageClass
    case Safety => CountAppend(s.safety, x, m);
    case Authority => CountInserted(s.authority, x, m);
    case Liveness => CountPut(s.liveness, x, m);
    case Diagnostic => CountPut(s.diagnostic, x, m);
  }

  lemma TakeWaiting<T>(s: State<T>, c: MessageClass, m: Message<T>)
    requires CursorsInRange(s) && Queued(s, c) != []
    ensures Waiting(s, m) == Waiting(Take(s, c), m) + RoundRobin.Bit(HeadOf(s, c) == m)
  {
    if c.Authority? {
      var i := NextPrincipal(s);
      var q := s.authority[i];
      CountReplacedQueue(s.authority, i, PrincipalQueue(q.principal, q.queued[1..]), m);
    }
  }

  lemma {:induction false} FlyingConcat<T>(a: seq<InFlight<T>>, b: seq<InFlight<T>>, m: Message<T>)
    ensures Flying(a + b, m) == Flying(a, m) + Flying(b, m)
  {
    if a == [] {
      assert a + b == b;
    } else {
      var whole := a + b;
      assert whole[0] == a[0] && whole[1..] == a[1..] + b;
      FlyingConcat(a[1..], b, m);
    }
  }

  lemma FlyingWithout<T>(a: seq<InFlight<T>>, i: nat, m: Message<T>)
    requires i < |a|
    ensures Flying(a, m) == Flying(Without(a, i), m) + RoundRobin.Bit(a[i].message == m)
  {
    assert a == a[..i] + a[i..] && a[i..][1..] == a[i + 1..];
    FlyingConcat(a[..i], a[i..], m);
    FlyingConcat(a[..i], a[i + 1..], m);
  }

  lemma WaitingIsCount<T>(s: State<T>, m: Message<T>)
    ensures Count(AllQueued(s), m) == Waiting(s, m)
  {
    CountThree(s.safety, Flatten(s.authority), s.liveness, m);
    CountConcat(s.safety + Flatten(s.authority) + s.liveness, s.diagnostic, m);
  }

  // Between them, two states and the event that leads from one to the other lose no copy of a message.
  ghost predicate Conserves<T>(s: State<T>, e: Event<T>, next: State<T>, m: Message<T>) {
    WaitingConserved(s, e, next, m) && FlyingConserved(s, e, next, m)
  }

  ghost predicate WaitingConserved<T>(s: State<T>, e: Event<T>, next: State<T>, m: Message<T>) {
    Waiting(s, m) + Gives(e, IsAccepted, m)
    == Waiting(next, m) + Gives(e, IsReplaced, m) + Gives(e, IsDelivered, m) + Gives(e, IsCancelled, m)
  }

  ghost predicate FlyingConserved<T>(s: State<T>, e: Event<T>, next: State<T>, m: Message<T>) {
    Flying(s.inFlight, m) + Gives(e, IsDelivered, m) == Flying(next.inFlight, m) + Gives(e, IsReleased, m)
  }

  lemma EnqueueConserves<T>(s: State<T>, x: Message<T>, m: Message<T>)
    ensures Conserves(s, EnqueueEvent(x, Decide(s, x)), Enqueue(s, x), m)
  {
    var verdict := Decide(s, x);
    if verdict.Accepts() {
      InsertWaiting(s, x, m);
      VerdictNamesPrior(s, x);
    }
  }

  lemma VerdictNamesPrior<T>(s: State<T>, x: Message<T>)
    requires Decide(s, x).Accepts()
    ensures PriorFor(s, x) == if Decide(s, x).Replaced? then Some(Decide(s, x).replacedMessage) else None
    ensures Insert(s, x).inFlight == s.inFlight
  {
  }

  lemma NothingWaits<T>(s: State<T>, m: Message<T>)
    ensures Waiting(CancelQueued(s), m) == 0
  {
    DrainedIsEmpty(s.authority, s.inFlight);
  }

  lemma CancelConserves<T>(s: State<T>, m: Message<T>)
    ensures Conserves(s, Cancelled(AllQueued(s)), CancelQueued(s), m)
  {
    WaitingIsCount(s, m);
    NothingWaits(s, m);
  }

  lemma DequeueConserves<T>(s: State<T>, allowed: Option<seq<MessageClass>>, token: CompletionToken, m: Message<T>)
    requires CursorsInRange(s)
    ensures Conserves(s, DequeueEvent(Delivery(s, allowed)), Dequeue(s, allowed, token), m)
  {
    var slot := NextSlot(s, allowed);
    if slot.Some? {
      var c := SERVICE_CYCLE[slot.value];
      LaunchConserves(s, c, slot.value, token, m);
    }
  }

  lemma LaunchConserves<T>(s: State<T>, c: MessageClass, slot: nat, token: CompletionToken, m: Message<T>)
    requires CursorsInRange(s) && Queued(s, c) != [] && slot < 15
    ensures var f := InFlight(token, HeadOf(s, c));
            Conserves(s, Delivered(HeadOf(s, c)),
                      Take(s, c).(inFlight := s.inFlight + [f], serviceCursor := RoundRobin.Slot(slot, 1, 15)), m)
  {
    var f := InFlight(token, HeadOf(s, c));
    TakeWaiting(s, c, m);
    FlyingConcat(s.inFlight, [f], m);
    assert Flying([f][1..], m) == 0;
  }

  lemma CompleteConserves<T>(s: State<T>, token: CompletionToken, m: Message<T>)
    requires WellFormed(s) && IsLive(s, token)
    ensures Conserves(s, Released(MessageFor(s, token)), Complete(s, token), m)
  {
    FlyingWithout(s.inFlight, TokenIndex(s.inFlight, token), m);
    CompleteKeepsQueues(s, token);
    WaitingIsCount(s, m);
    WaitingIsCount(Complete(s, token), m);
  }

  // What one operation does to the copies of a message that wait or are in flight.
  lemma StepConserves<T>(s: State<T>, op: Op<T>, m: Message<T>)
    requires Inv(s) && Legal(s, op)
    ensures Conserves(s, EventOf(s, op), Step(s, op), m)
  {
    match op
    case EnqueueOp(x) => EnqueueConserves(s, x, m);
    case DequeueOp(allowed, token) => DequeueConserves(s, allowed, token, m);
    case CompleteOp(token) =>
      if IsLive(s, token) {
        CompleteConserves(s, token, m);
      }
    case CancelOp => CancelConserves(s, m);
  }

  lemma CompleteKeepsQueues<T>(s: State<T>, token: CompletionToken)
    requires WellFormed(s) && IsLive(s, token)
    ensures AllQueued(Complete(s, token)) == AllQueued(s)
    ensures forall p :: QueueOf(Complete(s, token).authority, p) == QueueOf(s.authority, p)
  {
    var p := PrincipalOf(MessageFor(s, token));
    var landed := Landed(s, token);
    if Complete(s, token) != landed {
      HoldsNothing(landed, p);
      var i := PrincipalIndex(s.authority, p);
      if i < |s.authority| {
        DropFlatten(s.authority, i);
        forall q ensures QueueOf(Without(s.authority, i), q) == QueueOf(s.authority, q) {
          DropQueueOf(s.authority, i, q);
        }
      }
    }
  }

  lemma {:induction false} RunConserves<T>(s: State<T>, ops: seq<Op<T>>, m: Message<T>)
    requires Inv(s) && LegalRun(s, ops)
    ensures var (es, end) := (Events(s, ops), After(s, ops));
            && Waiting(s, m) + Times(es, IsAccepted, m)
               == Waiting(end, m) + Times(es, IsReplaced, m) + Times(es, IsDelivered, m) + Times(es, IsCancelled, m)
            && Flying(s.inFlight, m) + Times(es, IsDelivered, m) == Flying(end.inFlight, m) + Times(es, IsReleased, m)
    decreases |ops|
  {
    if ops != [] {
      StepConserves(s, ops[0], m);
      RunConserves(Step(s, ops[0]), ops[1..], m);
      assert Events(s, ops)[1..] == Events(Step(s, ops[0]), ops[1..]);
    }
  }

  /**
   * Over any run from an empty scheduler, every copy accepted of a message is exactly one
   * of still queued, in flight, completed, replaced or cancelled.
   */
  lemma OneFate<T>(s: State<T>, ops: seq<Op<T>>, m: Message<T>)
    requires IsEmpty(s) && Inv(s) && LegalRun(s, ops)
    ensures var (es, end) := (Events(s, ops), After(s, ops));
            && Times(es, IsAccepted, m)
               == Waiting(end, m) + Flying(end.inFlight, m)
                  + Times(es, IsReleased, m) + Times(es, IsReplaced, m) + Times(es, IsCancelled, m)
            && Times(es, IsDelivered, m) <= Times(es, IsAccepted, m)
  {
    RunConserves(s, ops, m);
  }

  // ---------- First in, first out ----------

  // The queues that keep admission order: safety, and one per authority principal.
  datatype Lane = SafetyLane | PrincipalLane(p: string)

  predicate InLane<T>(lane: Lane, m: Message<T>) {
    match lane
    case SafetyLane => m.messageClass.Safety?
    case PrincipalLane(p) => m.messageClass.Authority? && PrincipalOf(m) == p
  }

  function LaneQueue<T>(s: State<T>, lane: Lane): seq<Message<T>> {
    match lane
    case SafetyLane => s.safety
    case PrincipalLane(p) => QueueOf(s.authority, p)
  }

  function LaneOnly<T>(ms: seq<Message<T>>, lane: Lane): seq<Message<T>> {
    if ms == [] then []
    else if InLane(lane, ms[0]) then [ms[0]] + LaneOnly(ms[1..], lane)
    else LaneOnly(ms[1..], lane)
  }

  // The lane's messages in the order they were accepted.
  ghost function AdmittedTo<T>(events: seq<Event<T>>, lane: Lane): seq<Message<T>> {
    if events == [] then []
    else Enters(events[0], lane) + AdmittedTo(events[1..], lane)
  }

  // The lane's messages in the order they left it, delivered or cancelled.
  ghost function LeftFrom<T>(events: seq<Event<T>>, lane: Lane): seq<Message<T>> {
    if events == [] then []
    else LeavesWith(events[0], lane) + LeftFrom(events[1..], lane)
  }

  ghost function LeavesWith<T>(event: Event<T>, lane: Lane): seq<Message<T>> {
    match event
    case Delivered(m) => LaneOnly([m], lane)
    case Cancelled(ms) => LaneOnly(ms, lane)
    case _ => []
  }

  lemma LaneOnlyOne<T>(m: Message<T>, lane: Lane)
    ensures LaneOnly([m], lane) == if InLane(lane, m) then [m] else []
  {
    assert LaneOnly([m][1..], lane) == [];
  }

  lemma {:induction false} LaneConcat<T>(a: seq<Message<T>>, b: seq<Message<T>>, lane: Lane)
    ensures LaneOnly(a + b, lane) == LaneOnly(a, lane) + LaneOnly(b, lane)
  {
    if a == [] {
      assert a + b == b;
    } else {
      var whole := a + b;
      assert whole[0] == a[0] && whole[1..] == a[1..] + b;
      LaneConcat(a[1..], b, lane);
    }
  }

  lemma {:induction false} LaneAllOrNone<T>(ms: seq<Message<T>>, lane: Lane, all: bool)
    requires forall i :: 0 <= i < |ms| ==> InLane(lane, ms[i]) == all
    ensures LaneOnly(ms, lane) == if all then ms else []
  {
    if ms != [] {
      LaneAllOrNone(ms[1..], lane, all);
      assert ms == [ms[0]] + ms[1..];
    }
  }

  lemma {:induction false} LaneOfQueues<T>(queues: seq<PrincipalQueue<T>>, lane: Lane)
    requires forall i :: 0 <= i < |queues| ==> QueueOwned(queues[i])
    requires DistinctPrincipals(queues)
    ensures LaneOnly(Flatten(queues), lane) == if lane.PrincipalLane? then QueueOf(queues, lane.p) else []
  {
    if queues != [] {
      var q, rest := queues[0], queues[1..];
      LaneOfQueues(rest, lane);
      LaneConcat(q.queued, Flatten(rest), lane);
      assert QueueOwned(q);
      var all := lane.PrincipalLane? && lane.p == q.principal;
      forall i | 0 <= i < |q.queued| ensures InLane(lane, q.queued[i]) == all {
        assert ValidIn(Authority, q.queued[i]);
      }
      LaneAllOrNone(q.queued, lane, all);
      if lane.PrincipalLane? {
        QueueOfTail(queues, lane.p);
      }
    }
  }

  lemma QueueOfTail<T>(queues: seq<PrincipalQueue<T>>, p: string)
    requires queues != [] && DistinctPrincipals(queues)
    ensures if queues[0].principal == p then QueueOf(queues, p) == queues[0].queued && QueueOf(queues[1..], p) == []
            else QueueOf(queues, p) == QueueOf(queues[1..], p)
  {
    var i, j := PrincipalIndex(queues, p), PrincipalIndex(queues[1..], p);
    assert forall k :: 0 <= k < |queues| - 1 ==> queues[1..][k] == queues[k + 1];
    if 0 < i < |queues| {
      assert queues[1..][i - 1].principal == p;
    }
  }

  // Cancelling takes a lane's messages out in queue order.
  lemma LaneOfAll<T>(s: State<T>, lane: Lane)
    requires WellFormed(s)
    ensures LaneOnly(AllQueued(s), lane) == LaneQueue(s, lane)
  {
    LaneConcat(s.safety + Flatten(s.authority) + s.liveness, s.diagnostic, lane);
    LaneConcat(s.safety + Flatten(s.authority), s.liveness, lane);
    LaneConcat(s.safety, Flatten(s.authority), lane);
    LaneOfQueues(s.authority, lane);
    forall i | 0 <= i < |s.safety| ensures InLane(lane, s.safety[i]) == lane.SafetyLane? {
      assert ValidIn(Safety, s.safety[i]);
    }
    forall i | 0 <= i < |s.liveness| ensures !InLane(lane, s.liveness[i]) {
      assert ValidIn(Liveness, s.liveness[i]);
    }
    forall i | 0 <= i < |s.diagnostic| ensures !InLane(lane, s.diagnostic[i]) {
      assert ValidIn(Diagnostic, s.diagnostic[i]);
    }
    LaneAllOrNone(s.safety, lane, lane.SafetyLane?);
    LaneAllOrNone(s.liveness, lane, false);
    LaneAllOrNone(s.diagnostic, lane, false);
  }

  ghost function Enters<T>(event: Event<T>, lane: Lane): seq<Message<T>> {
    if event.Accepted? then LaneOnly([event.message], lane) else []
  }

  lemma EnqueueKeepsOrder<T>(s: State<T>, m: Message<T>, lane: Lane)
    ensures LaneQueue(s, lane) + Enters(EnqueueEvent(m, Decide(s, m)), lane) == LaneQueue(Enqueue(s, m), lane)
  {
    var before := LaneQueue(s, lane);
    assert before + [] == before;
    if Decide(s, m).Accepts() {
      LaneOnlyOne(m, lane);
      if m.messageClass.Authority? && lane.PrincipalLane? {
        InsertQueueOf(s.authority, m, lane.p);
      }
    }
  }

  lemma DequeueKeepsOrder<T>(s: State<T>, allowed: Option<seq<MessageClass>>, token: CompletionToken, lane: Lane)
    requires WellFormed(s)
    ensures LaneQueue(s, lane) == LeavesWith(DequeueEvent(Delivery(s, allowed)), lane) + LaneQueue(Dequeue(s, allowed, token), lane)
  {
    var slot := NextSlot(s, allowed);
    if slot.Some? {
      TakeKeepsOrder(s, SERVICE_CYCLE[slot.value], lane);
    }
  }

  lemma StepKeepsOrder<T>(s: State<T>, op: Op<T>, lane: Lane)
    requires Inv(s) && Legal(s, op)
    ensures LaneQueue(s, lane) + Enters(EventOf(s, op), lane) == LeavesWith(EventOf(s, op), lane) + LaneQueue(Step(s, op), lane)
  {
    match op
    case EnqueueOp(m) => EnqueueKeepsOrder(s, m, lane);
    case DequeueOp(allowed, token) => DequeueKeepsOrder(s, allowed, token, lane);
    case CompleteOp(token) =>
      if IsLive(s, token) {
        CompleteKeepsQueues(s, token);
      }
    case CancelOp => CancelKeepsOrder(s, lane);
  }

  lemma CancelKeepsOrder<T>(s: State<T>, lane: Lane)
    requires WellFormed(s)
    ensures LaneQueue(s, lane) == LaneOnly(AllQueued(s), lane) && LaneQueue(CancelQueued(s), lane) == []
  {
    LaneOfAll(s, lane);
    if lane.PrincipalLane? {
      QueueOfDrained(s.authority, s.inFlight, lane.p);
    }
  }

  lemma {:induction false} TakeKeepsOrder<T>(s: State<T>, c: MessageClass, lane: Lane)
    requires WellFormed(s) && Queued(s, c) != []
    ensures LaneQueue(s, lane) == LaneOnly([HeadOf(s, c)], lane) + LaneQueue(Take(s, c), lane)
  {
    var m := HeadOf(s, c);
    HeadValid(s, c);
    LaneOnlyOne(m, lane);
    if c.Authority? && lane.PrincipalLane? {
      var i := NextPrincipal(s);
      QueueAt(s.authority, i);
      UpdateQueueOf(s.authority, i, s.authority[i].queued[1..], lane.p);
      assert s.authority[i].queued == [m] + s.authority[i].queued[1..];
    } else if c.Safety? {
      assert s.safety == [m] + s.safety[1..];
    }
  }

  /**
   * In the safety class, and within one principal, messages leave in the order they were
   * admitted: what was waiting, then what was admitted, is what left, then what waits.
   */
  lemma {:induction false} FirstInFirstOut<T>(s: State<T>, ops: seq<Op<T>>, lane: Lane)
    requires Inv(s) && LegalRun(s, ops)
    ensures LaneQueue(s, lane) + AdmittedTo(Events(s, ops), lane)
         == LeftFrom(Events(s, ops), lane) + LaneQueue(After(s, ops), lane)
    decreases |ops|
  {
    if ops != [] {
      var event, next, rest := EventOf(s, ops[0]), Step(s, ops[0]), Events(Step(s, ops[0]), ops[1..]);
      StepKeepsOrder(s, ops[0], lane);
      FirstInFirstOut(next, ops[1..], lane);
      assert ([event] + rest)[1..] == rest;
      Associative(LaneQueue(s, lane), Enters(event, lane), AdmittedTo(rest, lane));
      Associative(LeavesWith(event, lane), LaneQueue(next, lane), AdmittedTo(rest, lane));
      Associative(LeavesWith(event, lane), LeftFrom(rest, lane), LaneQueue(After(s, ops), lane));
    }
  }

  // ---------- Service in turn ----------

  ghost function Weight(c: MessageClass): nat {
    match c
    case Safety => 8
    case Authority => 4
    case Liveness => 2
    case Diagnostic => 1
  }

  ghost function SlotsOf(c: MessageClass): (marked: seq<bool>)
    ensures |marked| == 15
    ensures forall i :: 0 <= i < 15 ==> marked[i] == (SERVICE_CYCLE[i] == c)
  {
    seq(15, i requires 0 <= i < 15 => SERVICE_CYCLE[i] == c)
  }

  // The scans of the service cycle behind the successful dequeues of a run.
  ghost function ServiceTurns<T>(s: State<T>, ops: seq<Op<T>>): seq<RoundRobin.Turn>
    requires Inv(s) && LegalRun(s, ops)
    decreases |ops|
  {
    if ops == [] then []
    else
      var rest := ServiceTurns(Step(s, ops[0]), ops[1..]);
      if EventOf(s, ops[0]).Delivered? then [RoundRobin.Turn(ServiceBacklog(s, ops[0].allowed), s.serviceCursor)] + rest
      else rest
  }

  // At every delivery of the run the class had work and was allowed.
  ghost predicate ReadyThroughout<T>(s: State<T>, ops: seq<Op<T>>, c: MessageClass)
    requires Inv(s) && LegalRun(s, ops)
    decreases |ops|
  {
    ops != [] ==>
      && (EventOf(s, ops[0]).Delivered? ==> Ready(s, ops[0].allowed, c))
      && ReadyThroughout(Step(s, ops[0]), ops[1..], c)
  }

  ghost function Deliveries<T>(events: seq<Event<T>>): nat {
    if events == [] then 0 else RoundRobin.Bit(events[0].Delivered?) + Deliveries(events[1..])
  }

  ghost function DeliveriesOf<T>(events: seq<Event<T>>, c: MessageClass): nat {
    if events == [] then 0
    else RoundRobin.Bit(events[0].Delivered? && events[0].message.messageClass == c) + DeliveriesOf(events[1..], c)
  }

  lemma CursorMovesOnDelivery<T>(s: State<T>, op: Op<T>)
    requires Inv(s) && Legal(s, op)
    ensures if EventOf(s, op).Delivered?
            then var turn := RoundRobin.Turn(ServiceBacklog(s, op.allowed), s.serviceCursor);
                 && RoundRobin.Successful(turn)
                 && Step(s, op).serviceCursor == RoundRobin.NextCursor(turn)
                 && SERVICE_CYCLE[RoundRobin.Served(turn)] == EventOf(s, op).message.messageClass
            else Step(s, op).serviceCursor == s.serviceCursor
  {
    if op.DequeueOp? && NextSlot(s, op.allowed).Some? {
      HeadValid(s, SERVICE_CYCLE[NextSlot(s, op.allowed).value]);
    }
  }

  lemma {:induction false} TurnsChained<T>(s: State<T>, ops: seq<Op<T>>)
    requires Inv(s) && LegalRun(s, ops)
    ensures var turns := ServiceTurns(s, ops);
            && RoundRobin.Chained(turns, 15)
            && (turns != [] ==> turns[0].cursor == s.serviceCursor)
            && |turns| == Deliveries(Events(s, ops))
    decreases |ops|
  {
    if ops != [] {
      CursorMovesOnDelivery(s, ops[0]);
      TurnsChained(Step(s, ops[0]), ops[1..]);
      if EventOf(s, ops[0]).Delivered? {
        RoundRobin.ChainedCons(RoundRobin.Turn(ServiceBacklog(s, ops[0].allowed), s.serviceCursor),
                               ServiceTurns(Step(s, ops[0]), ops[1..]), 15);
      }
    }
  }

  lemma {:induction false} TurnsServe<T>(s: State<T>, ops: seq<Op<T>>, c: MessageClass)
    requires Inv(s) && LegalRun(s, ops) && RoundRobin.Chained(ServiceTurns(s, ops), 15)
    ensures RoundRobin.ServedMarked(ServiceTurns(s, ops), SlotsOf(c)) == DeliveriesOf(Events(s, ops), c)
    decreases |ops|
  {
    if ops != [] {
      CursorMovesOnDelivery(s, ops[0]);
      TurnsChained(Step(s, ops[0]), ops[1..]);
      TurnsServe(Step(s, ops[0]), ops[1..], c);
      var turns := ServiceTurns(s, ops);
      if EventOf(s, ops[0]).Delivered? {
        assert turns[1..] == ServiceTurns(Step(s, ops[0]), ops[1..]);
      }
    }
  }

  lemma {:induction false} ReadySlots<T>(s: State<T>, ops: seq<Op<T>>, c: MessageClass)
    requires Inv(s) && LegalRun(s, ops) && ReadyThroughout(s, ops, c)
    ensures forall t, i :: 0 <= t < |ServiceTurns(s, ops)| && 0 <= i < 15 && SERVICE_CYCLE[i] == c ==>
              |ServiceTurns(s, ops)[t].available| == 15 && ServiceTurns(s, ops)[t].available[i]
    decreases |ops|
  {
    if ops != [] {
      ReadySlots(Step(s, ops[0]), ops[1..], c);
    }
  }

  lemma SlotWeights(c: MessageClass)
    ensures RoundRobin.Marks(SlotsOf(c)) == Weight(c)
  {
    match c
    case Safety => RoundRobin.MarkedBlock(SlotsOf(c), 0, 8);
    case Authority => RoundRobin.MarkedBlock(SlotsOf(c), 8, 12);
    case Liveness => RoundRobin.MarkedBlock(SlotsOf(c), 12, 14);
    case Diagnostic => RoundRobin.MarkedBlock(SlotsOf(c), 14, 15);
  }

  /**
   * No class starves: in any run with fifteen deliveries, whatever else happens between
   * them, a class with allowed work at each of them is served at least its weight.
   */
  lemma WeightedService<T>(s: State<T>, ops: seq<Op<T>>, c: MessageClass)
    requires Inv(s) && LegalRun(s, ops) && ReadyThroughout(s, ops, c)
    requires Deliveries(Events(s, ops)) >= 15
    ensures DeliveriesOf(Events(s, ops), c) >= Weight(c)
  {
    TurnsChained(s, ops);
    TurnsServe(s, ops, c);
    ReadySlots(s, ops, c);
    SlotWeights(c);
    RoundRobin.FairService(ServiceTurns(s, ops), SlotsOf(c));
  }

  /** When every class has allowed work throughout, fifteen deliveries serve each exactly its weight. */
  lemma ExactWeightedService<T>(s: State<T>, ops: seq<Op<T>>, c: MessageClass)
    requires Inv(s) && LegalRun(s, ops) && forall d :: ReadyThroughout(s, ops, d)
    requires Deliveries(Events(s, ops)) == 15
    ensures DeliveriesOf(Events(s, ops), c) == Weight(c)
  {
    TurnsChained(s, ops);
    TurnsServe(s, ops, c);
    SlotWeights(c);
    forall t, i | 0 <= t < |ServiceTurns(s, ops)| && 0 <= i < 15
      ensures ServiceTurns(s, ops)[t].available[i]
    {
      ReadySlots(s, ops, SERVICE_CYCLE[i]);
    }
    RoundRobin.ExactService(ServiceTurns(s, ops), SlotsOf(c));
  }

  // ---------- Principals in turn ----------

  ghost predicate DeliversAuthority<T>(event: Event<T>) {
    event.Delivered? && event.message.messageClass.Authority?
  }

  ghost function PrincipalTurns<T>(s: State<T>, ops: seq<Op<T>>): seq<RoundRobin.Turn>
    requires Inv(s) && LegalRun(s, ops)
    decreases |ops|
  {
    if ops == [] then []
    else
      var rest := PrincipalTurns(Step(s, ops[0]), ops[1..]);
      if DeliversAuthority(EventOf(s, ops[0])) then [RoundRobin.Turn(AuthorityBacklog(s), s.principalCursor)] + rest
      else rest
  }

  // No principal enters or leaves the order, and the one at `slot` has work at every authority delivery.
  ghost predicate SteadyPrincipals<T>(s: State<T>, ops: seq<Op<T>>, names: seq<string>, slot: nat)
    requires Inv(s) && LegalRun(s, ops)
    decreases |ops|
  {
    && Principals(s.authority) == names
    && slot < |names|
    && (ops != [] ==>
          && (DeliversAuthority(EventOf(s, ops[0])) ==> s.authority[slot].queued != [])
          && SteadyPrincipals(Step(s, ops[0]), ops[1..], names, slot))
  }

  ghost function AuthorityDeliveries<T>(events: seq<Event<T>>): nat { DeliveriesOf(events, Authority) }

  ghost function DeliveriesTo<T>(events: seq<Event<T>>, p: string): nat {
    if events == [] then 0
    else RoundRobin.Bit(DeliversAuthority(events[0]) && PrincipalOf(events[0].message) == p) + DeliveriesTo(events[1..], p)
  }

  lemma PrincipalCursorMoves<T>(s: State<T>, op: Op<T>, names: seq<string>)
    requires Inv(s) && Legal(s, op) && Principals(s.authority) == names && Principals(Step(s, op).authority) == names
    ensures if DeliversAuthority(EventOf(s, op))
            then var turn := RoundRobin.Turn(AuthorityBacklog(s), s.principalCursor);
                 && RoundRobin.Successful(turn)
                 && Step(s, op).principalCursor == RoundRobin.NextCursor(turn)
                 && names[RoundRobin.Served(turn)] == PrincipalOf(EventOf(s, op).message)
            else Step(s, op).principalCursor == s.principalCursor
  {
    match op
    case EnqueueOp(m) =>
    case DequeueOp(allowed, token) =>
      var slot := NextSlot(s, allowed);
      if slot.Some? {
        HeadValid(s, SERVICE_CYCLE[slot.value]);
        FlattenBacklog(s);
      }
    case CompleteOp(token) =>
      if IsLive(s, token) {
        assert |Complete(s, token).authority| == |s.authority|;
      }
    case CancelOp =>
      assert |Drained(s.authority, s.inFlight)| == |s.authority|;
  }

  lemma {:induction false} PrincipalTurnsChained<T>(s: State<T>, ops: seq<Op<T>>, names: seq<string>, slot: nat)
    requires Inv(s) && LegalRun(s, ops) && SteadyPrincipals(s, ops, names, slot)
    ensures var turns := PrincipalTurns(s, ops);
            && RoundRobin.Chained(turns, |names|)
            && (turns != [] ==> turns[0].cursor == s.principalCursor)
            && |turns| == AuthorityDeliveries(Events(s, ops))
            && forall t :: 0 <= t < |turns| ==> turns[t].available[slot]
    decreases |ops|
  {
    if ops != [] {
      var next := Step(s, ops[0]);
      PrincipalCursorMoves(s, ops[0], names);
      PrincipalTurnsChained(next, ops[1..], names, slot);
      if DeliversAuthority(EventOf(s, ops[0])) {
        RoundRobin.ChainedCons(RoundRobin.Turn(AuthorityBacklog(s), s.principalCursor), PrincipalTurns(next, ops[1..]), |names|);
      }
    }
  }

  lemma {:induction false} PrincipalTurnsServe<T>(s: State<T>, ops: seq<Op<T>>, names: seq<string>, slot: nat)
    requires Inv(s) && LegalRun(s, ops) && SteadyPrincipals(s, ops, names, slot)
    requires RoundRobin.Chained(PrincipalTurns(s, ops), |names|)
    ensures RoundRobin.ServedMarked(PrincipalTurns(s, ops), RoundRobin.OnlySlot(|names|, slot)) == DeliveriesTo(Events(s, ops), names[slot])
    decreases |ops|
  {
    if ops != [] {
      PrincipalCursorMoves(s, ops[0], names);
      PrincipalTurnsChained(Step(s, ops[0]), ops[1..], names, slot);
      PrincipalTurnsServe(Step(s, ops[0]), ops[1..], names, slot);
      assert forall i, j :: 0 <= i < j < |names| ==> s.authority[i].principal != s.authority[j].principal;
      var turns := PrincipalTurns(s, ops);
      if DeliversAuthority(EventOf(s, ops[0])) {
        assert turns[1..] == PrincipalTurns(Step(s, ops[0]), ops[1..]);
      }
    }
  }

  /**
   * While the principal order stands still, a principal with work is served within as many
   * authority deliveries as there are principals.
   */
  lemma PrincipalServedInTurn<T>(s: State<T>, ops: seq<Op<T>>, names: seq<string>, slot: nat)
    requires Inv(s) && LegalRun(s, ops) && SteadyPrincipals(s, ops, names, slot)
    requires AuthorityDeliveries(Events(s, ops)) >= |names|
    ensures DeliveriesTo(Events(s, ops), names[slot]) >= 1
  {
    PrincipalTurnsChained(s, ops, names, slot);
    PrincipalTurnsServe(s, ops, names, slot);
    RoundRobin.MarkedBlock(RoundRobin.OnlySlot(|names|, slot), slot, slot + 1);
    RoundRobin.FairService(PrincipalTurns(s, ops), RoundRobin.OnlySlot(|names|, slot));
  }
}
