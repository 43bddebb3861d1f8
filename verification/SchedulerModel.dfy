/**
 * What one gateway-control scheduler does, without its bookkeeping: the queues, the
 * messages in flight and the two cursors. Every total is the sum of what is held, so
 * the counters, the order array and the completion checks of the implementation
 * (Scheduler.dfy) are measured against this description.
 */
module SchedulerModel {
  import opened Options
  import opened Admission
  import RoundRobin

  // The identity of one delivery; tokens are only ever compared.
  class CompletionToken {
    constructor () {}
  }

  datatype InFlight<+T> = InFlight(token: CompletionToken, message: Message<T>)

  datatype PrincipalQueue<+T> = PrincipalQueue(principal: string, queued: seq<Message<T>>)

  datatype State<+T> = State(
    safety: seq<Message<T>>,
    authority: seq<PrincipalQueue<T>>,
    principalCursor: nat,
    liveness: seq<Message<T>>,
    diagnostic: seq<Message<T>>,
    inFlight: seq<InFlight<T>>,
    serviceCursor: nat)

  const SERVICE_CYCLE: seq<MessageClass> := [
    Safety, Safety, Safety, Safety, Safety, Safety, Safety, Safety,
    Authority, Authority, Authority, Authority, Liveness, Liveness, Diagnostic]

  // The first slot of a class in the cycle.
  function FirstSlot(c: MessageClass): (slot: nat)
    ensures slot < 15 && SERVICE_CYCLE[slot] == c
  {
    match c
    case Safety => 0
    case Authority => 8
    case Liveness => 12
    case Diagnostic => 14
  }

  // A scheduler that was just created.
  ghost predicate IsEmpty<T>(s: State<T>) {
    && s.safety == [] && s.authority == [] && s.liveness == [] && s.diagnostic == []
    && s.inFlight == [] && s.principalCursor == 0 && s.serviceCursor == 0
  }

  ghost function Empty<T>(): (s: State<T>)
    ensures IsEmpty(s)
  {
    assert IsEmpty<T>(State([], [], 0, [], [], [], 0));
    var s: State<T> :| IsEmpty(s);
    s
  }

  lemma EmptyUnique<T>(a: State<T>, b: State<T>)
    requires IsEmpty(a) && IsEmpty(b)
    ensures a == b
  {
  }

  // ---------- What is held ----------

  // Whose share of the messages in flight is meant.
  datatype Holder = OfClass(c: MessageClass) | OfPrincipal(p: string)

  predicate Holds<T>(h: Holder, m: Message<T>) {
    match h
    case OfClass(c) => m.messageClass == c
    case OfPrincipal(p) => m.messageClass.Authority? && PrincipalOf(m) == p
  }

  function PrincipalOf<T>(m: Message<T>): string {
    if m.stablePrincipal.Some? then m.stablePrincipal.value else ""
  }

  function Select<T>(inFlight: seq<InFlight<T>>, h: Holder): seq<Message<T>> {
    if inFlight == [] then []
    else if Holds(h, inFlight[0].message) then [inFlight[0].message] + Select(inFlight[1..], h)
    else Select(inFlight[1..], h)
  }

  function Flatten<T>(queues: seq<PrincipalQueue<T>>): seq<Message<T>> {
    if queues == [] then [] else queues[0].queued + Flatten(queues[1..])
  }

  function Queued<T>(s: State<T>, c: MessageClass): seq<Message<T>> {
    match c
    case Safety => s.safety
    case Authority => Flatten(s.authority)
    case Liveness => s.liveness
    case Diagnostic => s.diagnostic
  }

  function AllQueued<T>(s: State<T>): seq<Message<T>> {
    s.safety + Flatten(s.authority) + s.liveness + s.diagnostic
  }

  function PrincipalIndex<T>(queues: seq<PrincipalQueue<T>>, p: string, from: nat := 0): (i: nat)
    requires from <= |queues|
    ensures from <= i <= |queues|
    ensures i < |queues| ==> queues[i].principal == p
    ensures forall j :: from <= j < i ==> queues[j].principal != p
    decreases |queues| - from
  {
    if from == |queues| || queues[from].principal == p then from else PrincipalIndex(queues, p, from + 1)
  }

  function Principals<T>(queues: seq<PrincipalQueue<T>>): (names: seq<string>)
    ensures |names| == |queues|
    ensures forall i :: 0 <= i < |queues| ==> names[i] == queues[i].principal
  {
    seq(|queues|, i requires 0 <= i < |queues| => queues[i].principal)
  }

  function QueueOf<T>(queues: seq<PrincipalQueue<T>>, p: string): seq<Message<T>> {
    var i := PrincipalIndex(queues, p);
    if i < |queues| then queues[i].queued else []
  }

  function Together<T>(queued: seq<Message<T>>, flying: seq<Message<T>>): Account {
    Account(Bytes(queued) + Bytes(flying), |queued| + |flying|)
  }

  // Queued and in-flight messages of a class, as bytes and count.
  function Held<T>(s: State<T>, c: MessageClass): Account {
    Together(Queued(s, c), Select(s.inFlight, OfClass(c)))
  }

  function HeldBy<T>(s: State<T>, p: string): Account {
    Together(QueueOf(s.authority, p), Select(s.inFlight, OfPrincipal(p)))
  }

  // ---------- Operations ----------

  function Without<X>(xs: seq<X>, i: nat): seq<X>
    requires i < |xs|
  {
    xs[..i] + xs[i + 1..]
  }

  function Decide<T>(s: State<T>, m: Message<T>): AdmissionResult<T> {
    match Validate(m)
    case Some(reason) => Fence(reason)
    case None =>
      match m.messageClass
      case Safety =>
        if CanReserve(Held(s, Safety), m.byteLength, SAFETY_LIMITS) then Admitted else Fence(SafetyCapacity)
      case Authority =>
        if !CanReserve(HeldBy(s, PrincipalOf(m)), m.byteLength, PRINCIPAL_LIMITS) then Refused(PrincipalCapacity)
        else if !CanReserve(Held(s, Authority), m.byteLength, AUTHORITY_LIMITS) then Fence(AuthorityCapacity)
        else Admitted
      case Liveness => DecideCoalesced(s, m, Shed(LivenessCapacity))
      case Diagnostic => DecideCoalesced(s, m, Dropped(DiagnosticCapacity))
  }

  function DecideCoalesced<T>(s: State<T>, m: Message<T>, over: AdmissionResult<T>): AdmissionResult<T> {
    var prior := PriorOf(Queued(s, m.messageClass), m.coalesceKey);
    var held := Held(s, m.messageClass);
    var next := Account(held.bytes - PriorBytes(prior) + m.byteLength, held.messages - PriorCount(prior) + 1);
    if !next.Within(LimitsOf(m.messageClass)) then over
    else if prior.Some? then Replaced(prior.value)
    else Admitted
  }

  function Enqueue<T>(s: State<T>, m: Message<T>): State<T> {
    if Decide(s, m).Accepts() then Insert(s, m) else s
  }

  function Insert<T>(s: State<T>, m: Message<T>): State<T> {
    match m.messageClass
    case Safety => s.(safety := s.safety + [m])
    case Authority => s.(authority := InsertForPrincipal(s.authority, m))
    case Liveness => s.(liveness := PutByKey(s.liveness, m))
    case Diagnostic => s.(diagnostic := PutByKey(s.diagnostic, m))
  }

  function InsertForPrincipal<T>(queues: seq<PrincipalQueue<T>>, m: Message<T>): seq<PrincipalQueue<T>> {
    var i := PrincipalIndex(queues, PrincipalOf(m));
    if i < |queues| then queues[i := PrincipalQueue(queues[i].principal, queues[i].queued + [m])]
    else queues + [PrincipalQueue(PrincipalOf(m), [m])]
  }

  // An absent list of allowed classes allows all of them.
  predicate Allows(allowed: Option<seq<MessageClass>>, c: MessageClass) {
    allowed.Some? ==> c in allowed.value
  }

  predicate Ready<T>(s: State<T>, allowed: Option<seq<MessageClass>>, c: MessageClass) {
    Allows(allowed, c) && Queued(s, c) != []
  }

  function ServiceBacklog<T>(s: State<T>, allowed: Option<seq<MessageClass>>): (backlog: seq<bool>)
    ensures |backlog| == 15
    ensures forall i :: 0 <= i < 15 ==> backlog[i] == Ready(s, allowed, SERVICE_CYCLE[i])
  {
    seq(15, i requires 0 <= i < 15 => Ready(s, allowed, SERVICE_CYCLE[i]))
  }

  function AuthorityBacklog<T>(s: State<T>): (backlog: seq<bool>)
    ensures |backlog| == |s.authority|
    ensures forall i :: 0 <= i < |backlog| ==> backlog[i] == (s.authority[i].queued != [])
  {
    seq(|s.authority|, i requires 0 <= i < |s.authority| => s.authority[i].queued != [])
  }

  predicate CursorsInRange<T>(s: State<T>) {
    s.serviceCursor < 15 && (if s.authority == [] then s.principalCursor == 0 else s.principalCursor < |s.authority|)
  }

  // The slot of the service cycle the next dequeue serves.
  function NextSlot<T>(s: State<T>, allowed: Option<seq<MessageClass>>): (r: Option<nat>)
    requires CursorsInRange(s)
    ensures r.Some? ==> r.value < 15 && Ready(s, allowed, SERVICE_CYCLE[r.value])
  {
    RoundRobin.Scan(ServiceBacklog(s, allowed), s.serviceCursor)
  }

  function NextPrincipal<T>(s: State<T>): (i: nat)
    requires CursorsInRange(s) && Flatten(s.authority) != []
    ensures i < |s.authority| && s.authority[i].queued != []
  {
    FlattenBacklog(s);
    RoundRobin.Scan(AuthorityBacklog(s), s.principalCursor).value
  }

  // The message a dequeue delivers, if it delivers one.
  function Delivery<T>(s: State<T>, allowed: Option<seq<MessageClass>>): Option<Message<T>>
    requires CursorsInRange(s)
  {
    var slot := NextSlot(s, allowed);
    if slot.None? then None else Some(HeadOf(s, SERVICE_CYCLE[slot.value]))
  }

  function HeadOf<T>(s: State<T>, c: MessageClass): Message<T>
    requires CursorsInRange(s) && Queued(s, c) != []
  {
    match c
    case Safety => s.safety[0]
    case Authority => s.authority[NextPrincipal(s)].queued[0]
    case Liveness => s.liveness[0]
    case Diagnostic => s.diagnostic[0]
  }

  // The state once the head of a class has left its queue.
  function Take<T>(s: State<T>, c: MessageClass): State<T>
    requires CursorsInRange(s) && Queued(s, c) != []
  {
    match c
    case Safety => s.(safety := s.safety[1..])
    case Authority =>
      var i := NextPrincipal(s);
      s.(authority := s.authority[i := PrincipalQueue(s.authority[i].principal, s.authority[i].queued[1..])],
         principalCursor := RoundRobin.Slot(i, 1, |s.authority|))
    case Liveness => s.(liveness := s.liveness[1..])
    case Diagnostic => s.(diagnostic := s.diagnostic[1..])
  }

  function Dequeue<T>(s: State<T>, allowed: Option<seq<MessageClass>>, token: CompletionToken): State<T>
    requires CursorsInRange(s)
  {
    var slot := NextSlot(s, allowed);
    if slot.None? then s
    else
      var c := SERVICE_CYCLE[slot.value];
      Take(s, c).(inFlight := s.inFlight + [InFlight(token, HeadOf(s, c))],
                  serviceCursor := RoundRobin.Slot(slot.value, 1, 15))
  }

  function TokenIndex<T>(inFlight: seq<InFlight<T>>, token: CompletionToken, from: nat := 0): (i: nat)
    requires from <= |inFlight|
    ensures from <= i <= |inFlight|
    ensures i < |inFlight| ==> inFlight[i].token == token
    ensures forall j :: from <= j < i ==> inFlight[j].token != token
    decreases |inFlight| - from
  {
    if from == |inFlight| || inFlight[from].token == token then from else TokenIndex(inFlight, token, from + 1)
  }

  predicate IsLive<T>(s: State<T>, token: CompletionToken) { TokenIndex(s.inFlight, token) < |s.inFlight| }

  function MessageFor<T>(s: State<T>, token: CompletionToken): Message<T>
    requires IsLive(s, token)
  {
    s.inFlight[TokenIndex(s.inFlight, token)].message
  }

  function Clamp(cursor: nat, size: nat): nat {
    if size == 0 then 0 else if cursor < size - 1 then cursor else size - 1
  }

  function Complete<T>(s: State<T>, token: CompletionToken): State<T> {
    if !IsLive(s, token) then s
    else
      var m := MessageFor(s, token);
      var landed := Landed(s, token);
      if m.messageClass.Authority? && HeldBy(landed, PrincipalOf(m)).messages == 0
      then DropPrincipal(landed, PrincipalOf(m))
      else landed
  }

  // The state without the delivery of a token, before its principal is looked at.
  function Landed<T>(s: State<T>, token: CompletionToken): State<T>
    requires IsLive(s, token)
  {
    s.(inFlight := Without(s.inFlight, TokenIndex(s.inFlight, token)))
  }

  function DropPrincipal<T>(s: State<T>, p: string): State<T> {
    var i := PrincipalIndex(s.authority, p);
    if i == |s.authority| then s
    else s.(authority := Without(s.authority, i),
            principalCursor := Clamp(s.principalCursor, |s.authority| - 1))
  }

  // Principals that still have work in flight keep an empty queue.
  function Drained<T>(queues: seq<PrincipalQueue<T>>, inFlight: seq<InFlight<T>>): seq<PrincipalQueue<T>> {
    if queues == [] then []
    else if Select(inFlight, OfPrincipal(queues[0].principal)) == [] then Drained(queues[1..], inFlight)
    else [PrincipalQueue(queues[0].principal, [])] + Drained(queues[1..], inFlight)
  }

  function CancelQueued<T>(s: State<T>): State<T> {
    var kept := Drained(s.authority, s.inFlight);
    s.(safety := [], authority := kept, principalCursor := Clamp(s.principalCursor, |kept|),
       liveness := [], diagnostic := [])
  }

  // ---------- The invariant ----------

  ghost predicate DistinctPrincipals<T>(queues: seq<PrincipalQueue<T>>) {
    forall i, j :: 0 <= i < j < |queues| ==> queues[i].principal != queues[j].principal
  }

  ghost predicate DistinctTokens<T>(inFlight: seq<InFlight<T>>) {
    forall i, j :: 0 <= i < j < |inFlight| ==> inFlight[i].token != inFlight[j].token
  }

  ghost predicate QueueOwned<T>(q: PrincipalQueue<T>) {
    forall i :: 0 <= i < |q.queued| ==> ValidIn(Authority, q.queued[i]) && PrincipalOf(q.queued[i]) == q.principal
  }

  ghost predicate WellFormed<T>(s: State<T>) {
    && CursorsInRange(s)
    && AllValidIn(Safety, s.safety)
    && AllValidIn(Liveness, s.liveness) && DistinctKeys(s.liveness)
    && AllValidIn(Diagnostic, s.diagnostic) && DistinctKeys(s.diagnostic)
    && DistinctPrincipals(s.authority)
    && (forall i :: 0 <= i < |s.authority| ==> QueueOwned(s.authority[i]))
    && DistinctTokens(s.inFlight)
    && (forall i :: 0 <= i < |s.inFlight| ==> Validate(s.inFlight[i].message).None?)
  }

  // A principal is listed exactly while it holds something.
  ghost predicate ListedWhileHolding<T>(s: State<T>) {
    && (forall i :: 0 <= i < |s.authority| ==> PrincipalHolds(s, i))
    && (forall i :: 0 <= i < |s.inFlight| ==> FlightListed(s, i))
  }

  ghost predicate PrincipalHolds<T>(s: State<T>, i: nat) {
    i < |s.authority| && HeldBy(s, s.authority[i].principal).messages > 0
  }

  ghost predicate FlightListed<T>(s: State<T>, i: nat)
    requires i < |s.inFlight|
  {
    var m := s.inFlight[i].message;
    m.messageClass.Authority? ==> PrincipalIndex(s.authority, PrincipalOf(m)) < |s.authority|
  }

  ghost predicate WithinLimits<T>(s: State<T>) {
    && (forall c :: Held(s, c).Within(LimitsOf(c)))
    && (forall p :: HeldBy(s, p).Within(PRINCIPAL_LIMITS))
  }

  ghost predicate Inv<T>(s: State<T>) {
    WellFormed(s) && ListedWhileHolding(s) && WithinLimits(s)
  }

  // ---------- Sequences of queues ----------

  lemma Associative<X>(a: seq<X>, b: seq<X>, c: seq<X>)
    ensures a + b + c == a + (b + c)
  {
  }

  lemma {:induction false} FlattenConcat<T>(a: seq<PrincipalQueue<T>>, b: seq<PrincipalQueue<T>>)
    ensures Flatten(a + b) == Flatten(a) + Flatten(b)
  {
    if a == [] {
      assert a + b == b;
    } else {
      var whole := a + b;
      assert whole[0] == a[0] && whole[1..] == a[1..] + b;
      FlattenConcat(a[1..], b);
      Associative(a[0].queued, Flatten(a[1..]), Flatten(b));
    }
  }

  // The messages of one queue, between those of the queues before and after it.
  lemma FlattenSplit<T>(queues: seq<PrincipalQueue<T>>, i: nat)
    requires i < |queues|
    ensures Flatten(queues) == Flatten(queues[..i]) + queues[i].queued + Flatten(queues[i + 1..])
  {
    assert queues == queues[..i] + queues[i..];
    FlattenConcat(queues[..i], queues[i..]);
    assert queues[i..][1..] == queues[i + 1..];
  }

  lemma FlattenUpdate<T>(queues: seq<PrincipalQueue<T>>, i: nat, q: PrincipalQueue<T>)
    requires i < |queues|
    ensures Flatten(queues[i := q]) == Flatten(queues[..i]) + q.queued + Flatten(queues[i + 1..])
  {
    FlattenSplit(queues[i := q], i);
    assert queues[i := q][..i] == queues[..i];
    assert queues[i := q][i + 1..] == queues[i + 1..];
  }

  lemma {:induction false} FlattenEmpty<T>(queues: seq<PrincipalQueue<T>>)
    ensures Flatten(queues) == [] <==> forall i :: 0 <= i < |queues| ==> queues[i].queued == []
  {
    if queues != [] {
      FlattenEmpty(queues[1..]);
      assert forall i :: 1 <= i < |queues| ==> queues[i] == queues[1..][i - 1];
      if Flatten(queues) == [] {
        assert queues[0].queued == [];
      }
    }
  }

  lemma FlattenBacklog<T>(s: State<T>)
    requires CursorsInRange(s)
    ensures Flatten(s.authority) != [] <==> RoundRobin.Scan(AuthorityBacklog(s), s.principalCursor).Some?
  {
    FlattenEmpty(s.authority);
    if RoundRobin.Scan(AuthorityBacklog(s), s.principalCursor).Some? {
      var i := RoundRobin.Scan(AuthorityBacklog(s), s.principalCursor).value;
      assert s.authority[i].queued != [];
    } else {
      forall i | 0 <= i < |s.authority| ensures s.authority[i].queued == [] {
        assert !AuthorityBacklog(s)[i];
      }
    }
  }

  lemma {:induction false} SelectConcat<T>(a: seq<InFlight<T>>, b: seq<InFlight<T>>, h: Holder)
    ensures Select(a + b, h) == Select(a, h) + Select(b, h)
  {
    if a == [] {
      assert a + b == b;
    } else {
      SelectConcat(a[1..], b, h);
      assert (a + b)[1..] == a[1..] + b;
    }
  }

  lemma SelectAppend<T>(a: seq<InFlight<T>>, f: InFlight<T>, h: Holder)
    ensures Select(a + [f], h) == Select(a, h) + if Holds(h, f.message) then [f.message] else []
  {
    SelectConcat(a, [f], h);
    assert Select([f][1..], h) == [];
  }

  // `before` is `after` and, if the message belongs to the holder, its share.
  predicate LosesShare<T>(before: Account, after: Account, h: Holder, m: Message<T>) {
    if Holds(h, m) then before.AddsMessage(after, m) else before == after
  }

  lemma WithoutTail<X>(xs: seq<X>, i: nat)
    requires 0 < i < |xs|
    ensures Without(xs, i) != [] && Without(xs, i)[0] == xs[0]
    ensures Without(xs, i)[1..] == Without(xs[1..], i - 1)
  {
  }

  lemma {:induction false} SelectRemove<T>(a: seq<InFlight<T>>, i: nat, h: Holder)
    requires i < |a|
    ensures LosesShare(AccountOf(Select(a, h)), AccountOf(Select(Without(a, i), h)), h, a[i].message)
    decreases i
  {
    if i == 0 {
      assert Without(a, 0) == a[1..];
      AccountCons(a, h);
    } else {
      var tail, rest := a[1..], Without(a, i);
      WithoutTail(a, i);
      SelectRemove(tail, i - 1, h);
      AccountCons(a, h);
      AccountCons(rest, h);
    }
  }

  lemma AccountCons<T>(a: seq<InFlight<T>>, h: Holder)
    requires a != []
    ensures LosesShare(AccountOf(Select(a, h)), AccountOf(Select(a[1..], h)), h, a[0].message)
  {
    var rest := Select(a[1..], h);
    if Holds(h, a[0].message) {
      var all := Select(a, h);
      assert all == [a[0].message] + rest;
      assert all[1..] == rest;
    }
  }

  lemma {:induction false} SelectEmpty<T>(a: seq<InFlight<T>>, h: Holder)
    ensures Select(a, h) == [] <==> forall i :: 0 <= i < |a| ==> !Holds(h, a[i].message)
  {
    if a != [] {
      SelectEmpty(a[1..], h);
      assert forall i :: 1 <= i < |a| ==> a[i] == a[1..][i - 1];
      if Select(a, h) == [] {
        assert !Holds(h, a[0].message);
      }
    }
  }

  // ---------- What each operation does to what is held ----------

  function PriorFor<T>(s: State<T>, m: Message<T>): Option<Message<T>> {
    if Coalesces(m.messageClass) then PriorOf(Queued(s, m.messageClass), m.coalesceKey) else None
  }

  lemma PutHeld<T>(ms: seq<Message<T>>, m: Message<T>)
    ensures var prior := PriorOf(ms, m.coalesceKey);
            AccountOf(PutByKey(ms, m)).Adds(AccountOf(ms), m.byteLength - PriorBytes(prior), 1 - PriorCount(prior))
  {
    var i := KeyIndex(ms, m.coalesceKey);
    if i < |ms| {
      AccountReplace(ms, i, m);
    } else {
      AccountAppend(ms, m);
    }
  }

  lemma InsertForPrincipalHeld<T>(queues: seq<PrincipalQueue<T>>, m: Message<T>)
    ensures AccountOf(Flatten(InsertForPrincipal(queues, m))).AddsMessage(AccountOf(Flatten(queues)), m)
  {
    var i := PrincipalIndex(queues, PrincipalOf(m));
    if i < |queues| {
      var q := PrincipalQueue(queues[i].principal, queues[i].queued + [m]);
      FlattenSplit(queues, i);
      FlattenUpdate(queues, i, q);
      AccountThree(Flatten(queues[..i]), queues[i].queued, Flatten(queues[i + 1..]));
      AccountThree(Flatten(queues[..i]), q.queued, Flatten(queues[i + 1..]));
      AccountAppend(queues[i].queued, m);
    } else {
      var q := PrincipalQueue(PrincipalOf(m), [m]);
      FlattenConcat(queues, [q]);
      assert Flatten([q]) == [m];
      AccountAppend(Flatten(queues), m);
    }
  }

  lemma AccountThree<T>(a: seq<Message<T>>, b: seq<Message<T>>, c: seq<Message<T>>)
    ensures AccountOf(a + b + c) == Account(Bytes(a) + Bytes(b) + Bytes(c), |a| + |b| + |c|)
  {
    BytesConcat(a, b);
    BytesConcat(a + b, c);
  }

  lemma AccountTail<T>(ms: seq<Message<T>>)
    requires ms != []
    ensures AccountOf(ms).AddsMessage(AccountOf(ms[1..]), ms[0])
  {
  }

  /** An accepted message adds its own share, less the share of the message it replaces. */
  lemma InsertHeld<T>(s: State<T>, m: Message<T>, c: MessageClass)
    ensures if c == m.messageClass
            then Held(Insert(s, m), c).Adds(Held(s, c), m.byteLength - PriorBytes(PriorFor(s, m)), 1 - PriorCount(PriorFor(s, m)))
            else Held(Insert(s, m), c) == Held(s, c)
  {
    match m.messageClass
    case Safety => AccountAppend(s.safety, m);
    case Authority => InsertForPrincipalHeld(s.authority, m);
    case Liveness => PutHeld(s.liveness, m);
    case Diagnostic => PutHeld(s.diagnostic, m);
  }

  lemma InsertHeldBy<T>(s: State<T>, m: Message<T>, p: string)
    ensures LosesShare(HeldBy(Insert(s, m), p), HeldBy(s, p), OfPrincipal(p), m)
  {
    if m.messageClass.Authority? {
      InsertQueueOf(s.authority, m, p);
      AccountAppend(QueueOf(s.authority, p), m);
    }
  }

  lemma InsertQueueOf<T>(queues: seq<PrincipalQueue<T>>, m: Message<T>, p: string)
    ensures QueueOf(InsertForPrincipal(queues, m), p)
         == if p == PrincipalOf(m) then QueueOf(queues, p) + [m] else QueueOf(queues, p)
  {
    var after := InsertForPrincipal(queues, m);
    var i, j, j' := PrincipalIndex(queues, PrincipalOf(m)), PrincipalIndex(queues, p), PrincipalIndex(after, p);
    assert forall k :: 0 <= k < |queues| ==> after[k].principal == queues[k].principal;
    if j < |queues| {
      assert j' == j;
    } else if p == PrincipalOf(m) {
      assert after[|queues|].principal == p;
      assert j' == |queues|;
    }
  }

  // Replacing the queue of the principal at `i` changes no other principal's queue.
  lemma UpdateQueueOf<T>(queues: seq<PrincipalQueue<T>>, i: nat, queued: seq<Message<T>>, p: string)
    requires i < |queues| && DistinctPrincipals(queues)
    ensures QueueOf(queues[i := PrincipalQueue(queues[i].principal, queued)], p)
         == if p == queues[i].principal then queued else QueueOf(queues, p)
  {
    var after := queues[i := PrincipalQueue(queues[i].principal, queued)];
    var j, j' := PrincipalIndex(queues, p), PrincipalIndex(after, p);
    assert forall k :: 0 <= k < |queues| ==> after[k].principal == queues[k].principal;
    assert j' == j;
  }

  lemma QueueAt<T>(queues: seq<PrincipalQueue<T>>, i: nat)
    requires i < |queues| && DistinctPrincipals(queues)
    ensures PrincipalIndex(queues, queues[i].principal) == i
  {
  }

  lemma TakeHeld<T>(s: State<T>, c: MessageClass, d: MessageClass)
    requires CursorsInRange(s) && Queued(s, c) != []
    ensures if c == d then AccountOf(Queued(s, d)).AddsMessage(AccountOf(Queued(Take(s, c), d)), HeadOf(s, c))
            else Queued(s, d) == Queued(Take(s, c), d)
  {
    if c == d {
      if c.Authority? {
        var i := NextPrincipal(s);
        var q := s.authority[i];
        FlattenSplit(s.authority, i);
        FlattenUpdate(s.authority, i, PrincipalQueue(q.principal, q.queued[1..]));
        AccountThree(Flatten(s.authority[..i]), q.queued, Flatten(s.authority[i + 1..]));
        AccountThree(Flatten(s.authority[..i]), q.queued[1..], Flatten(s.authority[i + 1..]));
        AccountTail(q.queued);
      } else {
        AccountTail(Queued(s, c));
      }
    }
  }

  lemma HeadValid<T>(s: State<T>, c: MessageClass)
    requires WellFormed(s) && Queued(s, c) != []
    ensures ValidIn(c, HeadOf(s, c))
    ensures c.Authority? ==> PrincipalOf(HeadOf(s, c)) == s.authority[NextPrincipal(s)].principal
  {
    if c.Authority? {
      var i := NextPrincipal(s);
      assert QueueOwned(s.authority[i]);
      assert ValidIn(Authority, s.authority[i].queued[0]);
    }
  }

  /** Delivery moves a message between queue and flight; it releases nothing. */
  lemma DequeueHeld<T>(s: State<T>, allowed: Option<seq<MessageClass>>, token: CompletionToken, d: MessageClass)
    requires WellFormed(s)
    ensures Held(Dequeue(s, allowed, token), d) == Held(s, d)
  {
    var slot := NextSlot(s, allowed);
    if slot.Some? {
      var c := SERVICE_CYCLE[slot.value];
      var m := HeadOf(s, c);
      HeadValid(s, c);
      TakeHeld(s, c, d);
      SelectAppend(s.inFlight, InFlight(token, m), OfClass(d));
      var flying := Select(s.inFlight, OfClass(d));
      if c == d {
        MovedCountsOn(Queued(s, d), Queued(Take(s, c), d), flying, m);
      } else {
        assert flying + [] == flying;
      }
    }
  }

  // A message that leaves a queue for the flight is counted on.
  lemma MovedCountsOn<T>(queued: seq<Message<T>>, rest: seq<Message<T>>, flying: seq<Message<T>>, m: Message<T>)
    requires AccountOf(queued).AddsMessage(AccountOf(rest), m)
    ensures Together(rest, flying + [m]) == Together(queued, flying)
  {
    AccountAppend(flying, m);
  }

  lemma DequeueHeldBy<T>(s: State<T>, allowed: Option<seq<MessageClass>>, token: CompletionToken, p: string)
    requires WellFormed(s)
    ensures HeldBy(Dequeue(s, allowed, token), p) == HeldBy(s, p)
  {
    var slot := NextSlot(s, allowed);
    if slot.Some? {
      var c := SERVICE_CYCLE[slot.value];
      var m := HeadOf(s, c);
      HeadValid(s, c);
      SelectAppend(s.inFlight, InFlight(token, m), OfPrincipal(p));
      var flying := Select(s.inFlight, OfPrincipal(p));
      AccountAppend(flying, m);
      assert flying + [] == flying;
      if c.Authority? {
        var i := NextPrincipal(s);
        UpdateQueueOf(s.authority, i, s.authority[i].queued[1..], p);
        QueueAt(s.authority, i);
        AccountTail(s.authority[i].queued);
      }
    }
  }

  // Dropping a principal that holds nothing disturbs no queue.
  lemma DropQueueOf<T>(queues: seq<PrincipalQueue<T>>, i: nat, p: string)
    requires i < |queues| && DistinctPrincipals(queues) && queues[i].queued == []
    ensures QueueOf(Without(queues, i), p) == QueueOf(queues, p)
  {
    var after := Without(queues, i);
    WithoutAt(queues, i);
    var j, j' := PrincipalIndex(queues, p), PrincipalIndex(after, p);
    if j < i {
      assert after[j].principal == p;
      assert j' == j;
    } else if i < j < |queues| {
      assert after[j - 1].principal == p;
      assert j' == j - 1;
    }
  }

  lemma WithoutAt<X>(xs: seq<X>, i: nat)
    requires i < |xs|
    ensures |Without(xs, i)| == |xs| - 1
    ensures forall k :: 0 <= k < |xs| - 1 ==> Without(xs, i)[k] == xs[if k < i then k else k + 1]
  {
  }

  lemma DropFlatten<T>(queues: seq<PrincipalQueue<T>>, i: nat)
    requires i < |queues| && queues[i].queued == []
    ensures Flatten(Without(queues, i)) == Flatten(queues)
  {
    FlattenSplit(queues, i);
    FlattenConcat(queues[..i], queues[i + 1..]);
    var before := Flatten(queues[..i]);
    assert before + [] == before;
  }

  // A principal whose count is zero has an empty queue and nothing in flight.
  lemma HoldsNothing<T>(s: State<T>, p: string)
    ensures HeldBy(s, p).messages >= 0
    ensures HeldBy(s, p).messages == 0 <==> QueueOf(s.authority, p) == [] && Select(s.inFlight, OfPrincipal(p)) == []
  {
  }

  // A principal that is not listed holds nothing.
  lemma AbsentHoldsNothing<T>(s: State<T>, p: string)
    requires ListedWhileHolding(s) && PrincipalIndex(s.authority, p) == |s.authority|
    ensures HeldBy(s, p) == Account(0, 0)
  {
    SelectEmpty(s.inFlight, OfPrincipal(p));
    forall i | 0 <= i < |s.inFlight| ensures !Holds(OfPrincipal(p), s.inFlight[i].message) {
      assert FlightListed(s, i);
    }
  }

  lemma DropHeld<T>(s: State<T>, p: string, c: MessageClass, q: string)
    requires DistinctPrincipals(s.authority) && HeldBy(s, p).messages == 0
    ensures Held(DropPrincipal(s, p), c) == Held(s, c)
    ensures HeldBy(DropPrincipal(s, p), q) == HeldBy(s, q)
  {
    var i := PrincipalIndex(s.authority, p);
    HoldsNothing(s, p);
    if i < |s.authority| {
      QueueAt(s.authority, i);
      DropQueueOf(s.authority, i, q);
      DropFlatten(s.authority, i);
    }
  }

  /** Completing a delivery releases exactly the share of its message. */
  lemma CompleteHeld<T>(s: State<T>, token: CompletionToken, c: MessageClass)
    requires WellFormed(s) && IsLive(s, token)
    ensures LosesShare(Held(s, c), Held(Complete(s, token), c), OfClass(c), MessageFor(s, token))
  {
    var m, landed := MessageFor(s, token), Landed(s, token);
    SelectRemove(s.inFlight, TokenIndex(s.inFlight, token), OfClass(c));
    assert LosesShare(Held(s, c), Held(landed, c), OfClass(c), m);
    if Complete(s, token) != landed {
      DropHeld(landed, PrincipalOf(m), c, "");
    }
  }

  lemma CompleteHeldBy<T>(s: State<T>, token: CompletionToken, q: string)
    requires WellFormed(s) && IsLive(s, token)
    ensures LosesShare(HeldBy(s, q), HeldBy(Complete(s, token), q), OfPrincipal(q), MessageFor(s, token))
  {
    var m, landed := MessageFor(s, token), Landed(s, token);
    SelectRemove(s.inFlight, TokenIndex(s.inFlight, token), OfPrincipal(q));
    assert LosesShare(HeldBy(s, q), HeldBy(landed, q), OfPrincipal(q), m);
    if Complete(s, token) != landed {
      DropHeld(landed, PrincipalOf(m), Safety, q);
    }
  }

  lemma {:induction false} DrainedIsEmpty<T>(queues: seq<PrincipalQueue<T>>, inFlight: seq<InFlight<T>>)
    ensures Flatten(Drained(queues, inFlight)) == []
    ensures forall i :: 0 <= i < |Drained(queues, inFlight)| ==> Drained(queues, inFlight)[i].queued == []
    ensures forall i :: 0 <= i < |Drained(queues, inFlight)| ==>
              Select(inFlight, OfPrincipal(Drained(queues, inFlight)[i].principal)) != []
    ensures |Drained(queues, inFlight)| <= |queues|
  {
    if queues != [] {
      DrainedIsEmpty(queues[1..], inFlight);
    }
  }

  lemma {:induction false} DrainedListed<T>(queues: seq<PrincipalQueue<T>>, inFlight: seq<InFlight<T>>, i: nat)
    requires i < |Drained(queues, inFlight)|
    ensures exists j :: 0 <= j < |queues| && queues[j].principal == Drained(queues, inFlight)[i].principal
  {
    var rest, all := Drained(queues[1..], inFlight), Drained(queues, inFlight);
    if all != rest && i == 0 {
      assert queues[0].principal == all[0].principal;
    } else {
      var k := if all == rest then i else i - 1;
      DrainedListed(queues[1..], inFlight, k);
      var j :| 0 <= j < |queues[1..]| && queues[1..][j].principal == rest[k].principal;
      assert queues[j + 1].principal == all[i].principal;
    }
  }

  lemma {:induction false} DrainedDistinct<T>(queues: seq<PrincipalQueue<T>>, inFlight: seq<InFlight<T>>)
    requires DistinctPrincipals(queues)
    ensures DistinctPrincipals(Drained(queues, inFlight))
    ensures forall j :: 0 <= j < |queues| && Select(inFlight, OfPrincipal(queues[j].principal)) != [] ==>
              PrincipalIndex(Drained(queues, inFlight), queues[j].principal) < |Drained(queues, inFlight)|
  {
    if queues != [] {
      var rest := queues[1..];
      DrainedDistinct(rest, inFlight);
      forall i | 0 <= i < |Drained(rest, inFlight)| ensures Drained(rest, inFlight)[i].principal != queues[0].principal {
        DrainedListed(rest, inFlight, i);
      }
      forall j | 0 <= j < |queues| && Select(inFlight, OfPrincipal(queues[j].principal)) != []
        ensures PrincipalIndex(Drained(queues, inFlight), queues[j].principal) < |Drained(queues, inFlight)|
      {
        var all, sub := Drained(queues, inFlight), Drained(rest, inFlight);
        if j == 0 {
          assert all[0].principal == queues[0].principal;
        } else {
          assert rest[j - 1] == queues[j];
          var l := PrincipalIndex(sub, queues[j].principal);
          assert all[l + |all| - |sub|] == sub[l];
        }
      }
    }
  }

  lemma {:induction false} DrainedAppend<T>(queues: seq<PrincipalQueue<T>>, q: PrincipalQueue<T>, inFlight: seq<InFlight<T>>)
    ensures Drained(queues + [q], inFlight) == Drained(queues, inFlight)
              + if Select(inFlight, OfPrincipal(q.principal)) == [] then [] else [PrincipalQueue(q.principal, [])]
  {
    if queues == [] {
      assert queues + [q] == [q];
      assert Drained([q][1..], inFlight) == [];
    } else {
      var all := queues + [q];
      assert all[0] == queues[0] && all[1..] == queues[1..] + [q];
      DrainedAppend(queues[1..], q, inFlight);
    }
  }

  lemma QueueOfDrained<T>(queues: seq<PrincipalQueue<T>>, inFlight: seq<InFlight<T>>, p: string)
    ensures QueueOf(Drained(queues, inFlight), p) == []
  {
    DrainedIsEmpty(queues, inFlight);
  }

  /** Cancelling releases exactly what was queued; what is in flight keeps its capacity. */
  lemma CancelHeld<T>(s: State<T>, c: MessageClass, p: string)
    ensures Held(CancelQueued(s), c) == AccountOf(Select(s.inFlight, OfClass(c)))
    ensures HeldBy(CancelQueued(s), p) == AccountOf(Select(s.inFlight, OfPrincipal(p)))
  {
    DrainedIsEmpty(s.authority, s.inFlight);
    QueueOfDrained(s.authority, s.inFlight, p);
  }

  // ---------- The invariant is kept ----------

  lemma EmptyInv<T>(s: State<T>)
    requires IsEmpty(s)
    ensures Inv(s)
  {
  }

  /** The order lists a principal exactly while it holds something, queued or in flight, and lists it once. */
  lemma ListedIffHolding<T>(s: State<T>, p: string)
    requires Inv(s)
    ensures p in Principals(s.authority) <==> HeldBy(s, p).messages > 0
    ensures forall i, j :: 0 <= i < j < |s.authority| ==> Principals(s.authority)[i] != Principals(s.authority)[j]
  {
    var i := PrincipalIndex(s.authority, p);
    if i < |s.authority| {
      assert Principals(s.authority)[i] == p && PrincipalHolds(s, i);
    } else {
      AbsentHoldsNothing(s, p);
    }
  }

  lemma {:induction false} SelectMembers<T>(a: seq<InFlight<T>>, h: Holder)
    requires forall i :: 0 <= i < |a| ==> Validate(a[i].message).None?
    ensures forall i :: 0 <= i < |Select(a, h)| ==> Validate(Select(a, h)[i]).None?
  {
    if a != [] {
      SelectMembers(a[1..], h);
    }
  }

  lemma EnqueueInv<T>(s: State<T>, m: Message<T>)
    requires Inv(s)
    ensures Inv(Enqueue(s, m))
  {
    if Decide(s, m).Accepts() {
      InsertWellFormed(s, m);
      InsertListed(s, m);
      forall c ensures Held(Insert(s, m), c).Within(LimitsOf(c)) {
        InsertHeld(s, m, c);
        assert Held(s, c).Within(LimitsOf(c));
      }
      forall p ensures HeldBy(Insert(s, m), p).Within(PRINCIPAL_LIMITS) {
        InsertHeldBy(s, m, p);
        assert HeldBy(s, p).Within(PRINCIPAL_LIMITS);
      }
    }
  }

  /** A message is accepted exactly if it is valid and leaves every class and every principal within its limits. */
  lemma AcceptedIffWithinLimits<T>(s: State<T>, m: Message<T>)
    requires Inv(s)
    ensures Decide(s, m).Accepts() <==> Validate(m).None? && WithinLimits(Insert(s, m))
  {
    if Decide(s, m).Accepts() {
      EnqueueInv(s, m);
    }
    if Validate(m).None? && WithinLimits(Insert(s, m)) {
      FittingIsAccepted(s, m);
    }
  }

  lemma FittingIsAccepted<T>(s: State<T>, m: Message<T>)
    requires Validate(m).None? && Held(Insert(s, m), m.messageClass).Within(LimitsOf(m.messageClass))
    requires HeldBy(Insert(s, m), PrincipalOf(m)).Within(PRINCIPAL_LIMITS)
    ensures Decide(s, m).Accepts()
  {
    InsertHeld(s, m, m.messageClass);
    InsertHeldBy(s, m, PrincipalOf(m));
  }

  lemma InsertKeepsPrincipals<T>(queues: seq<PrincipalQueue<T>>, m: Message<T>)
    ensures var after := InsertForPrincipal(queues, m);
            && |queues| <= |after| <= |queues| + 1
            && (forall i :: 0 <= i < |queues| ==> after[i].principal == queues[i].principal)
            && (|after| > |queues| ==> after[|queues|].principal == PrincipalOf(m))
  {
  }

  lemma InsertListed<T>(s: State<T>, m: Message<T>)
    requires ListedWhileHolding(s)
    ensures ListedWhileHolding(Insert(s, m))
  {
    var after := Insert(s, m);
    InsertKeepsPrincipals(s.authority, m);
    forall i | 0 <= i < |after.authority|
      ensures PrincipalHolds(after, i)
    {
      var p := after.authority[i].principal;
      InsertHeldBy(s, m, p);
      HoldsNothing(s, p);
      if i < |s.authority| {
        assert PrincipalHolds(s, i);
      }
    }
    forall i | 0 <= i < |s.inFlight| && s.inFlight[i].message.messageClass.Authority?
      ensures FlightListed(after, i)
    {
      assert FlightListed(s, i);
      var j := PrincipalIndex(s.authority, PrincipalOf(s.inFlight[i].message));
      assert after.authority[j].principal == s.authority[j].principal;
    }
  }

  lemma InsertWellFormed<T>(s: State<T>, m: Message<T>)
    requires WellFormed(s) && Validate(m).None?
    ensures WellFormed(Insert(s, m))
  {
    var after := Insert(s, m);
    if m.messageClass.Authority? {
      forall i | 0 <= i < |after.authority| ensures QueueOwned(after.authority[i]) {
        if i < |s.authority| {
          assert QueueOwned(s.authority[i]);
        }
      }
    }
  }

  lemma DequeueInv<T>(s: State<T>, allowed: Option<seq<MessageClass>>, token: CompletionToken)
    requires Inv(s) && !IsLive(s, token)
    ensures Inv(Dequeue(s, allowed, token))
  {
    var after := Dequeue(s, allowed, token);
    var slot := NextSlot(s, allowed);
    if slot.Some? {
      HeadValid(s, SERVICE_CYCLE[slot.value]);
      TakeWellFormed(s, SERVICE_CYCLE[slot.value]);
    }
    DequeueListed(s, allowed, token);
    forall d ensures Held(after, d).Within(LimitsOf(d)) {
      DequeueHeld(s, allowed, token, d);
      assert Held(s, d).Within(LimitsOf(d));
    }
    forall p ensures HeldBy(after, p).Within(PRINCIPAL_LIMITS) {
      DequeueHeldBy(s, allowed, token, p);
      assert HeldBy(s, p).Within(PRINCIPAL_LIMITS);
    }
  }

  lemma TakeKeepsPrincipals<T>(s: State<T>, c: MessageClass)
    requires CursorsInRange(s) && Queued(s, c) != []
    ensures |Take(s, c).authority| == |s.authority|
    ensures forall i :: 0 <= i < |s.authority| ==> Take(s, c).authority[i].principal == s.authority[i].principal
  {
  }

  lemma DequeueListed<T>(s: State<T>, allowed: Option<seq<MessageClass>>, token: CompletionToken)
    requires WellFormed(s) && ListedWhileHolding(s)
    ensures ListedWhileHolding(Dequeue(s, allowed, token))
  {
    var slot := NextSlot(s, allowed);
    if slot.Some? {
      var after := Dequeue(s, allowed, token);
      TakeKeepsPrincipals(s, SERVICE_CYCLE[slot.value]);
      forall i | 0 <= i < |after.authority| ensures PrincipalHolds(after, i) {
        assert PrincipalHolds(s, i);
        DequeueHeldBy(s, allowed, token, s.authority[i].principal);
      }
      forall i | 0 <= i < |after.inFlight| ensures FlightListed(after, i) {
        if i < |s.inFlight| {
          assert FlightListed(s, i);
          SamePrincipalsSameListing(s.authority, after.authority, PrincipalOf(s.inFlight[i].message));
        } else {
          DeliveredIsListed(s, SERVICE_CYCLE[slot.value]);
        }
      }
    }
  }

  lemma SamePrincipalsSameListing<T>(a: seq<PrincipalQueue<T>>, b: seq<PrincipalQueue<T>>, p: string)
    requires |a| == |b| && forall i :: 0 <= i < |a| ==> a[i].principal == b[i].principal
    ensures PrincipalIndex(a, p) == PrincipalIndex(b, p)
  {
  }

  lemma DeliveredIsListed<T>(s: State<T>, c: MessageClass)
    requires WellFormed(s) && Queued(s, c) != []
    ensures c.Authority? ==> PrincipalIndex(Take(s, c).authority, PrincipalOf(HeadOf(s, c))) < |Take(s, c).authority|
    ensures HeadOf(s, c).messageClass == c
  {
    HeadValid(s, c);
    TakeKeepsPrincipals(s, c);
    if c.Authority? {
      QueueAt(s.authority, NextPrincipal(s));
      SamePrincipalsSameListing(s.authority, Take(s, c).authority, PrincipalOf(HeadOf(s, c)));
    }
  }

  lemma TakeWellFormed<T>(s: State<T>, c: MessageClass)
    requires WellFormed(s) && Queued(s, c) != []
    ensures WellFormed(Take(s, c))
  {
    if c.Authority? {
      var after := Take(s, c);
      forall i | 0 <= i < |after.authority| ensures QueueOwned(after.authority[i]) {
        assert QueueOwned(s.authority[i]);
      }
    }
  }

  lemma CompleteInv<T>(s: State<T>, token: CompletionToken)
    requires Inv(s)
    ensures Inv(Complete(s, token))
  {
    if IsLive(s, token) {
      var after := Complete(s, token);
      var m := MessageFor(s, token);
      assert Validate(m).None?;
      forall c ensures Held(after, c).Within(LimitsOf(c)) {
        CompleteHeld(s, token, c);
      }
      forall p ensures HeldBy(after, p).Within(PRINCIPAL_LIMITS) {
        CompleteHeldBy(s, token, p);
      }
      CompleteListed(s, token);
    }
  }

  lemma CompleteListed<T>(s: State<T>, token: CompletionToken)
    requires Inv(s) && IsLive(s, token)
    ensures WellFormed(Complete(s, token)) && ListedWhileHolding(Complete(s, token))
  {
    var p, landed := PrincipalOf(MessageFor(s, token)), Landed(s, token);
    var i := TokenIndex(s.inFlight, token);
    WithoutAt(s.inFlight, i);
    forall k | 0 <= k < |landed.inFlight| ensures FlightListed(landed, k) {
      assert FlightListed(s, if k < i then k else k + 1);
    }
    forall k | 0 <= k < |s.authority| && s.authority[k].principal != p ensures PrincipalHolds(landed, k) {
      assert PrincipalHolds(s, k);
      SelectRemove(s.inFlight, i, OfPrincipal(s.authority[k].principal));
    }
    if Complete(s, token) == landed {
      forall k | 0 <= k < |s.authority| ensures PrincipalHolds(landed, k) {
        assert PrincipalHolds(s, k);
        HoldsNothing(landed, p);
        SelectRemove(s.inFlight, i, OfPrincipal(p));
      }
    } else {
      DropListed(landed, p);
    }
  }

  // Dropping a principal that holds nothing leaves exactly the holders listed.
  lemma DropListed<T>(s: State<T>, p: string)
    requires WellFormed(s) && HeldBy(s, p).messages == 0
    requires forall k :: 0 <= k < |s.inFlight| ==> FlightListed(s, k)
    requires forall k :: 0 <= k < |s.authority| && s.authority[k].principal != p ==> PrincipalHolds(s, k)
    ensures WellFormed(DropPrincipal(s, p)) && ListedWhileHolding(DropPrincipal(s, p))
  {
    var j := PrincipalIndex(s.authority, p);
    var after := DropPrincipal(s, p);
    DropWellFormed(s, p);
    if j < |s.authority| {
      WithoutAt(s.authority, j);
      forall k | 0 <= k < |after.authority| ensures PrincipalHolds(after, k) {
        var k' := if k < j then k else k + 1;
        assert after.authority[k] == s.authority[k'];
        assert PrincipalHolds(s, k');
        DropHeld(s, p, Safety, s.authority[k'].principal);
      }
      forall k | 0 <= k < |s.inFlight| ensures FlightListed(after, k) {
        DropFlight(s, p, k);
      }
    }
  }

  lemma DropWellFormed<T>(s: State<T>, p: string)
    requires WellFormed(s)
    ensures WellFormed(DropPrincipal(s, p))
  {
    var j := PrincipalIndex(s.authority, p);
    var after := DropPrincipal(s, p);
    if j < |s.authority| {
      WithoutAt(s.authority, j);
      forall k | 0 <= k < |after.authority| ensures QueueOwned(after.authority[k]) {
        assert QueueOwned(s.authority[if k < j then k else k + 1]);
      }
    }
  }

  lemma DropFlight<T>(s: State<T>, p: string, k: nat)
    requires k < |s.inFlight| && FlightListed(s, k) && HeldBy(s, p).messages == 0
    ensures FlightListed(DropPrincipal(s, p), k)
  {
    var j, q := PrincipalIndex(s.authority, p), PrincipalOf(s.inFlight[k].message);
    if j < |s.authority| && s.inFlight[k].message.messageClass.Authority? {
      HoldsNothing(s, p);
      SelectEmpty(s.inFlight, OfPrincipal(p));
      assert !Holds(OfPrincipal(p), s.inFlight[k].message);
      WithoutAt(s.authority, j);
      var l := PrincipalIndex(s.authority, q);
      assert Without(s.authority, j)[if l < j then l else l - 1].principal == q;
    }
  }

  lemma CancelInv<T>(s: State<T>)
    requires Inv(s)
    ensures Inv(CancelQueued(s))
  {
    var after := CancelQueued(s);
    DrainedIsEmpty(s.authority, s.inFlight);
    DrainedDistinct(s.authority, s.inFlight);
    forall c ensures Held(after, c).Within(LimitsOf(c)) {
      CancelHeld(s, c, "");
      assert Held(s, c).Within(LimitsOf(c));
      QueuedNonNegative(s, c);
    }
    forall p ensures HeldBy(after, p).Within(PRINCIPAL_LIMITS) {
      CancelHeld(s, Safety, p);
      assert HeldBy(s, p).Within(PRINCIPAL_LIMITS);
      QueueOfNonNegative(s, p);
    }
    forall i | 0 <= i < |after.authority|
      ensures PrincipalHolds(after, i) && QueueOwned(after.authority[i])
    {
      CancelHeld(s, Safety, after.authority[i].principal);
    }
    forall i | 0 <= i < |s.inFlight| && s.inFlight[i].message.messageClass.Authority?
      ensures FlightListed(after, i)
    {
      assert FlightListed(s, i);
      var p := PrincipalOf(s.inFlight[i].message);
      var j := PrincipalIndex(s.authority, p);
      SelectEmpty(s.inFlight, OfPrincipal(p));
      assert Holds(OfPrincipal(p), s.inFlight[i].message);
      assert s.authority[j].principal == p;
    }
  }

  lemma {:induction false} FlattenOwned<T>(queues: seq<PrincipalQueue<T>>)
    requires forall i :: 0 <= i < |queues| ==> QueueOwned(queues[i])
    ensures AllValidIn(Authority, Flatten(queues))
  {
    if queues != [] {
      FlattenOwned(queues[1..]);
      assert QueueOwned(queues[0]);
    }
  }

  lemma QueuedValid<T>(s: State<T>, c: MessageClass)
    requires WellFormed(s)
    ensures AllValidIn(c, Queued(s, c))
  {
    FlattenOwned(s.authority);
  }

  lemma QueuedNonNegative<T>(s: State<T>, c: MessageClass)
    requires WellFormed(s)
    ensures Bytes(Queued(s, c)) >= 0
  {
    QueuedValid(s, c);
    assert forall i :: 0 <= i < |Queued(s, c)| ==> ValidIn(c, Queued(s, c)[i]);
    BytesNonNegative(Queued(s, c));
  }

  lemma QueueOfNonNegative<T>(s: State<T>, p: string)
    requires WellFormed(s)
    ensures Bytes(QueueOf(s.authority, p)) >= 0
  {
    var i := PrincipalIndex(s.authority, p);
    if i < |s.authority| {
      assert QueueOwned(s.authority[i]);
      assert forall k :: 0 <= k < |s.authority[i].queued| ==> ValidIn(Authority, s.authority[i].queued[k]);
      BytesNonNegative(s.authority[i].queued);
    }
  }
}
