/**
 * What each verdict of a scheduler means, on the fields of the message and on what would be
 * held once it were inserted. The running checks (SchedulerModel.Decide) give exactly these.
 */
module Verdicts {
  import opened Options
  import opened Admission
  import opened SchedulerModel

  // ---------- The fields of a message ----------

  ghost predicate Sized<T>(m: Message<T>) { m.id != "" && 0 < m.byteLength <= MAX_SAFE_INTEGER }

  // A message carries what its class needs: authority a principal, liveness and diagnostic a key.
  ghost predicate Owned<T>(m: Message<T>) {
    match m.messageClass
    case Safety => true
    case Authority => m.stablePrincipal != None && m.stablePrincipal != Some("")
    case Liveness => m.coalesceKey != None && m.coalesceKey != Some("")
    case Diagnostic => m.coalesceKey != None && m.coalesceKey != Some("")
  }

  ghost predicate TooLarge<T>(m: Message<T>) { Sized(m) && m.byteLength > MAX_FRAME_BYTES }

  ghost predicate Malformed<T>(m: Message<T>) { !Sized(m) || (m.byteLength <= MAX_FRAME_BYTES && !Owned(m)) }

  ghost predicate WellMade<T>(m: Message<T>) { Sized(m) && m.byteLength <= MAX_FRAME_BYTES && Owned(m) }

  lemma ValidateMeans<T>(m: Message<T>)
    ensures Validate(m).None? <==> WellMade(m)
    ensures Validate(m) == Some(FrameTooLarge) <==> TooLarge(m)
    ensures Validate(m) == Some(InvalidMessage) <==> Malformed(m)
  {
  }

  // ---------- What is held ----------

  // The messages of a list that belong to a class, and those that belong to a principal.
  function OfClassOnly<T>(ms: seq<Message<T>>, c: MessageClass): seq<Message<T>> {
    if ms == [] then []
    else (if ms[0].messageClass == c then [ms[0]] else []) + OfClassOnly(ms[1..], c)
  }

  function OfPrincipalOnly<T>(ms: seq<Message<T>>, p: string): seq<Message<T>> {
    if ms == [] then []
    else (if ms[0].messageClass.Authority? && ms[0].stablePrincipal == Some(p) then [ms[0]] else []) + OfPrincipalOnly(ms[1..], p)
  }

  function Flights<T>(inFlight: seq<InFlight<T>>): seq<Message<T>> {
    if inFlight == [] then [] else [inFlight[0].message] + Flights(inFlight[1..])
  }

  lemma {:induction false} ClassOnlyConcat<T>(a: seq<Message<T>>, b: seq<Message<T>>, c: MessageClass)
    ensures OfClassOnly(a + b, c) == OfClassOnly(a, c) + OfClassOnly(b, c)
  {
    if a == [] {
      assert a + b == b;
    } else {
      assert (a + b)[0] == a[0] && (a + b)[1..] == a[1..] + b;
      ClassOnlyConcat(a[1..], b, c);
    }
  }

  lemma {:induction false} AllOfClass<T>(ms: seq<Message<T>>, c: MessageClass, d: MessageClass)
    requires forall i :: 0 <= i < |ms| ==> ms[i].messageClass == c
    ensures OfClassOnly(ms, d) == if c == d then ms else []
  {
    if ms != [] {
      AllOfClass(ms[1..], c, d);
      assert ms == [ms[0]] + ms[1..];
    }
  }

  lemma {:induction false} FlattenedAreAuthority<T>(queues: seq<PrincipalQueue<T>>)
    requires forall i :: 0 <= i < |queues| ==> QueueOwned(queues[i])
    ensures forall i :: 0 <= i < |Flatten(queues)| ==> Flatten(queues)[i].messageClass.Authority?
  {
    if queues != [] {
      FlattenedAreAuthority(queues[1..]);
      assert QueueOwned(queues[0]);
    }
  }

  lemma QueuedAreOfClass<T>(s: State<T>, c: MessageClass)
    requires WellFormed(s)
    ensures OfClassOnly(AllQueued(s), c) == Queued(s, c)
  {
    FlattenedAreAuthority(s.authority);
    var flat := Flatten(s.authority);
    ClassOnlyConcat(s.safety + flat + s.liveness, s.diagnostic, c);
    ClassOnlyConcat(s.safety + flat, s.liveness, c);
    ClassOnlyConcat(s.safety, flat, c);
    AllOfClass(s.safety, Safety, c);
    AllOfClass(flat, Authority, c);
    AllOfClass(s.liveness, Liveness, c);
    AllOfClass(s.diagnostic, Diagnostic, c);
  }

  lemma {:induction false} FlightsOfClass<T>(inFlight: seq<InFlight<T>>, c: MessageClass)
    ensures Select(inFlight, OfClass(c)) == OfClassOnly(Flights(inFlight), c)
  {
    if inFlight != [] {
      FlightsOfClass(inFlight[1..], c);
      assert Flights(inFlight)[1..] == Flights(inFlight[1..]);
    }
  }

  lemma TogetherIs<T>(queued: seq<Message<T>>, flying: seq<Message<T>>, all: seq<Message<T>>)
    requires all == queued + flying
    ensures Together(queued, flying) == AccountOf(all)
  {
    BytesConcat(queued, flying);
  }

  /** What a class holds is what its messages weigh, queued or in flight. */
  lemma HeldMeans<T>(s: State<T>, c: MessageClass)
    requires WellFormed(s)
    ensures Held(s, c) == AccountOf(OfClassOnly(AllQueued(s) + Flights(s.inFlight), c))
  {
    QueuedAreOfClass(s, c);
    FlightsOfClass(s.inFlight, c);
    ClassOnlyConcat(AllQueued(s), Flights(s.inFlight), c);
    TogetherIs(Queued(s, c), Select(s.inFlight, OfClass(c)), OfClassOnly(AllQueued(s) + Flights(s.inFlight), c));
  }

  lemma {:induction false} PrincipalOnlyConcat<T>(a: seq<Message<T>>, b: seq<Message<T>>, p: string)
    ensures OfPrincipalOnly(a + b, p) == OfPrincipalOnly(a, p) + OfPrincipalOnly(b, p)
  {
    if a == [] {
      assert a + b == b;
    } else {
      assert (a + b)[0] == a[0] && (a + b)[1..] == a[1..] + b;
      PrincipalOnlyConcat(a[1..], b, p);
    }
  }

  lemma {:induction false} NoneOfPrincipal<T>(ms: seq<Message<T>>, p: string)
    requires forall i :: 0 <= i < |ms| ==> !(ms[i].messageClass.Authority? && ms[i].stablePrincipal == Some(p))
    ensures OfPrincipalOnly(ms, p) == []
  {
    if ms != [] {
      NoneOfPrincipal(ms[1..], p);
    }
  }

  lemma {:induction false} AllOfPrincipal<T>(ms: seq<Message<T>>, p: string)
    requires forall i :: 0 <= i < |ms| ==> ms[i].messageClass.Authority? && ms[i].stablePrincipal == Some(p)
    ensures OfPrincipalOnly(ms, p) == ms
  {
    if ms != [] {
      AllOfPrincipal(ms[1..], p);
      assert ms == [ms[0]] + ms[1..];
    }
  }

  lemma {:induction false} FlattenedOfPrincipal<T>(queues: seq<PrincipalQueue<T>>, p: string)
    requires DistinctPrincipals(queues) && forall i :: 0 <= i < |queues| ==> QueueOwned(queues[i])
    ensures OfPrincipalOnly(Flatten(queues), p) == QueueOf(queues, p)
  {
    if queues != [] {
      var first, rest := queues[0].queued, queues[1..];
      assert QueueOwned(queues[0]);
      FlattenedOfPrincipal(rest, p);
      PrincipalOnlyConcat(first, Flatten(rest), p);
      QueueOfTail(queues, p);
      if queues[0].principal == p {
        AllOfPrincipal(first, p);
      } else {
        NoneOfPrincipal(first, p);
      }
    }
  }

  lemma QueueOfTail<T>(queues: seq<PrincipalQueue<T>>, p: string)
    requires queues != [] && DistinctPrincipals(queues)
    ensures QueueOf(queues, p) == if queues[0].principal == p then queues[0].queued else QueueOf(queues[1..], p)
    ensures queues[0].principal == p ==> QueueOf(queues[1..], p) == []
  {
    var rest := queues[1..];
    var i, j := PrincipalIndex(queues, p), PrincipalIndex(rest, p);
    assert forall k :: 0 <= k < |rest| ==> rest[k] == queues[k + 1];
    if queues[0].principal != p && i < |queues| {
      assert rest[i - 1].principal == p;
      assert j == i - 1;
    }
  }

  lemma QueuedOfPrincipal<T>(s: State<T>, p: string)
    requires WellFormed(s)
    ensures OfPrincipalOnly(AllQueued(s), p) == QueueOf(s.authority, p)
  {
    var flat := Flatten(s.authority);
    PrincipalOnlyConcat(s.safety + flat + s.liveness, s.diagnostic, p);
    PrincipalOnlyConcat(s.safety + flat, s.liveness, p);
    PrincipalOnlyConcat(s.safety, flat, p);
    NoneOfPrincipal(s.safety, p);
    NoneOfPrincipal(s.liveness, p);
    NoneOfPrincipal(s.diagnostic, p);
    FlattenedOfPrincipal(s.authority, p);
  }

  lemma {:induction false} FlightsOfPrincipal<T>(inFlight: seq<InFlight<T>>, p: string)
    requires forall i :: 0 <= i < |inFlight| ==> Validate(inFlight[i].message).None?
    ensures Select(inFlight, OfPrincipal(p)) == OfPrincipalOnly(Flights(inFlight), p)
  {
    if inFlight != [] {
      FlightsOfPrincipal(inFlight[1..], p);
      assert Flights(inFlight)[1..] == Flights(inFlight[1..]);
    }
  }

  /** What a principal holds is what the authority messages that carry it weigh, queued or in flight. */
  lemma HeldByMeans<T>(s: State<T>, p: string)
    requires WellFormed(s)
    ensures HeldBy(s, p) == AccountOf(OfPrincipalOnly(AllQueued(s) + Flights(s.inFlight), p))
  {
    QueuedOfPrincipal(s, p);
    FlightsOfPrincipal(s.inFlight, p);
    PrincipalOnlyConcat(AllQueued(s), Flights(s.inFlight), p);
    TogetherIs(QueueOf(s.authority, p), Select(s.inFlight, OfPrincipal(p)), OfPrincipalOnly(AllQueued(s) + Flights(s.inFlight), p));
  }

  // ---------- What inserting does ----------

  // A new message goes last; one whose key is queued takes the place of the message it replaces.
  ghost predicate PutInPlace<T>(before: seq<Message<T>>, after: seq<Message<T>>, m: Message<T>) {
    && (forall k :: 0 <= k < |before| && before[k].coalesceKey == m.coalesceKey ==> after == before[k := m])
    && ((forall k :: 0 <= k < |before| ==> before[k].coalesceKey != m.coalesceKey) ==> after == before + [m])
  }

  /** Inserting touches the queue of the message's class only: safety and a principal's queue grow at the end, a key keeps its place. */
  lemma InsertMeans<T>(s: State<T>, m: Message<T>)
    requires WellFormed(s) && WellMade(m)
    ensures var after := Insert(s, m);
            && after.inFlight == s.inFlight && after.serviceCursor == s.serviceCursor && after.principalCursor == s.principalCursor
            && (m.messageClass.Safety? ==> after.safety == s.safety + [m])
            && (!m.messageClass.Safety? ==> after.safety == s.safety)
            && (!m.messageClass.Authority? ==> after.authority == s.authority)
            && (m.messageClass.Liveness? ==> PutInPlace(s.liveness, after.liveness, m))
            && (!m.messageClass.Liveness? ==> after.liveness == s.liveness)
            && (m.messageClass.Diagnostic? ==> PutInPlace(s.diagnostic, after.diagnostic, m))
            && (!m.messageClass.Diagnostic? ==> after.diagnostic == s.diagnostic)
    ensures m.messageClass.Authority? ==>
              var (p, names, after) := (m.stablePrincipal.value, Principals(s.authority), Insert(s, m).authority);
              && (forall q :: QueueOf(after, q) == if q == p then QueueOf(s.authority, q) + [m] else QueueOf(s.authority, q))
              && Principals(after) == names + if p in names then [] else [p]
  {
    if m.messageClass.Authority? {
      InsertAuthority(s.authority, m);
    }
  }

  lemma InsertAuthority<T>(queues: seq<PrincipalQueue<T>>, m: Message<T>)
    requires m.stablePrincipal.Some?
    ensures var (p, names, after) := (m.stablePrincipal.value, Principals(queues), InsertForPrincipal(queues, m));
            && (forall q :: QueueOf(after, q) == if q == p then QueueOf(queues, q) + [m] else QueueOf(queues, q))
            && Principals(after) == names + if p in names then [] else [p]
  {
    var p, names, after := m.stablePrincipal.value, Principals(queues), InsertForPrincipal(queues, m);
    forall q ensures QueueOf(after, q) == if q == p then QueueOf(queues, q) + [m] else QueueOf(queues, q) {
      InsertQueueOf(queues, m, q);
    }
    var i := PrincipalIndex(queues, p);
    InsertKeepsPrincipals(queues, m);
    if i < |queues| {
      assert names[i] == p;
      assert Principals(after) == names + [];
    } else {
      assert p !in names;
      assert Principals(after) == names + [p];
    }
  }

  // ---------- The verdicts ----------

  ghost predicate ClassOverflows<T>(s: State<T>, m: Message<T>) {
    !Held(Insert(s, m), m.messageClass).Within(LimitsOf(m.messageClass))
  }

  ghost predicate PrincipalOverflows<T>(s: State<T>, m: Message<T>) {
    m.stablePrincipal.Some? && !HeldBy(Insert(s, m), m.stablePrincipal.value).Within(PRINCIPAL_LIMITS)
  }

  // `q` is queued in the class of `m` under its key.
  ghost predicate QueuedUnderKey<T>(s: State<T>, m: Message<T>, q: Message<T>) {
    (m.messageClass.Liveness? || m.messageClass.Diagnostic?) && q in Queued(s, m.messageClass) && q.coalesceKey == m.coalesceKey
  }

  ghost predicate NoneUnderKey<T>(s: State<T>, m: Message<T>) {
    m.messageClass.Liveness? || m.messageClass.Diagnostic? ==>
      forall q :: q in Queued(s, m.messageClass) ==> q.coalesceKey != m.coalesceKey
  }

  ghost predicate Fits<T>(s: State<T>, m: Message<T>) { WellMade(m) && WithinLimits(Insert(s, m)) }

  ghost predicate IsVerdict<T>(s: State<T>, m: Message<T>, r: AdmissionResult<T>) {
    match r
    case Admitted => Fits(s, m) && NoneUnderKey(s, m)
    case Replaced(q) => Fits(s, m) && QueuedUnderKey(s, m, q)
    case Refused(reason) => reason.PrincipalCapacity? && WellMade(m) && m.messageClass.Authority? && PrincipalOverflows(s, m)
    case Shed(reason) => reason.LivenessCapacity? && WellMade(m) && m.messageClass.Liveness? && ClassOverflows(s, m)
    case Dropped(reason) => reason.DiagnosticCapacity? && WellMade(m) && m.messageClass.Diagnostic? && ClassOverflows(s, m)
    case Fence(reason) => IsFence(s, m, reason)
  }

  ghost predicate IsFence<T>(s: State<T>, m: Message<T>, reason: Reason) {
    match reason
    case InvalidMessage => Malformed(m)
    case FrameTooLarge => TooLarge(m)
    case SafetyCapacity => WellMade(m) && m.messageClass.Safety? && ClassOverflows(s, m)
    case AuthorityCapacity => WellMade(m) && m.messageClass.Authority? && !PrincipalOverflows(s, m) && ClassOverflows(s, m)
    case _ => false
  }

  lemma DecideIsVerdict<T>(s: State<T>, m: Message<T>)
    requires Inv(s)
    ensures IsVerdict(s, m, Decide(s, m))
  {
    ValidateMeans(m);
    InsertHeld(s, m, m.messageClass);
    InsertHeldBy(s, m, PrincipalOf(m));
    AcceptedIffWithinLimits(s, m);
    if Coalesces(m.messageClass) {
      var ms := Queued(s, m.messageClass);
      var i := KeyIndex(ms, m.coalesceKey);
      if i < |ms| {
        assert ms[i] in ms;
      }
    }
  }

  lemma VerdictIsUnique<T>(s: State<T>, m: Message<T>, x: AdmissionResult<T>, y: AdmissionResult<T>)
    requires WellFormed(s) && IsVerdict(s, m, x) && IsVerdict(s, m, y)
    ensures x == y
  {
    if Fits(s, m) {
      assert Held(Insert(s, m), m.messageClass).Within(LimitsOf(m.messageClass));
      assert forall p :: HeldBy(Insert(s, m), p).Within(PRINCIPAL_LIMITS);
    }
  }

  /**
   * Every verdict has its condition, on the message's fields and on what would be held once it
   * were inserted, and is given exactly under that condition.
   */
  lemma VerdictIff<T>(s: State<T>, m: Message<T>, r: AdmissionResult<T>)
    requires Inv(s)
    ensures Decide(s, m) == r <==> IsVerdict(s, m, r)
  {
    DecideIsVerdict(s, m);
    if IsVerdict(s, m, r) {
      VerdictIsUnique(s, m, Decide(s, m), r);
    }
  }
}
