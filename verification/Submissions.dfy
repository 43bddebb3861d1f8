/**
 * What a submission to the executor does and reports, on the request's own fields: which
 * message is queued for it, when it is taken or takes a place, and whose work it replaces.
 */
module Submissions {
  import opened Options
  import opened Admission
  import opened SchedulerModel
  import opened ExecutorModel
  import opened ExecutorSteps
  import opened Verdicts
  import R = SchedulerRuns
  import Runs = ExecutorRuns

  datatype Submission = Taken | TookPlace | TurnedAway(verdict: AdmissionResult<nat>) | AlreadyClosed(reason: string)

  // What a submission reports at once.
  ghost function Reported(e: Executor, request: Message<nat>): Submission {
    var verdict := Decide(e.sched, Numbered(e, request));
    if e.closedReason.Some? then AlreadyClosed(e.closedReason.value)
    else if verdict.Admitted? then Taken
    else if verdict.Replaced? then TookPlace
    else TurnedAway(verdict)
  }

  // The same message, but for the payload.
  ghost predicate SameFields(m: Message<nat>, request: Message<nat>) {
    && m.id == request.id && m.byteLength == request.byteLength && m.messageClass == request.messageClass
    && m.coalesceKey == request.coalesceKey && m.stablePrincipal == request.stablePrincipal && m.zoneId == request.zoneId
  }

  lemma InsertedHoldTheSame(s: State<nat>, a: Message<nat>, b: Message<nat>)
    requires SameFields(a, b)
    ensures forall c :: Held(Insert(s, a), c) == Held(Insert(s, b), c)
    ensures forall p :: HeldBy(Insert(s, a), p) == HeldBy(Insert(s, b), p)
  {
    forall c ensures Held(Insert(s, a), c) == Held(Insert(s, b), c) {
      InsertHeld(s, a, c);
      InsertHeld(s, b, c);
    }
    forall p ensures HeldBy(Insert(s, a), p) == HeldBy(Insert(s, b), p) {
      InsertHeldBy(s, a, p);
      InsertHeldBy(s, b, p);
    }
  }

  // No verdict depends on the payload.
  lemma VerdictIgnoresPayload(s: State<nat>, a: Message<nat>, b: Message<nat>, r: AdmissionResult<nat>)
    requires SameFields(a, b)
    ensures IsVerdict(s, a, r) <==> IsVerdict(s, b, r)
    ensures Fits(s, a) <==> Fits(s, b)
  {
    InsertedHoldTheSame(s, a, b);
  }

  // ---------- The report ----------

  ghost predicate IsReport(e: Executor, request: Message<nat>, r: Submission) {
    match r
    case AlreadyClosed(reason) => e.closedReason == Some(reason)
    case Taken => e.closedReason.None? && Fits(e.sched, request) && NoneUnderKey(e.sched, request)
    case TookPlace => e.closedReason.None? && Fits(e.sched, request) && exists q :: QueuedUnderKey(e.sched, request, q)
    case TurnedAway(verdict) => e.closedReason.None? && !Fits(e.sched, request) && IsVerdict(e.sched, request, verdict)
  }

  /**
   * An open executor reports a request taken exactly if it is valid and fits, taken in place
   * of another exactly if besides one is queued under its key, and otherwise what speaks
   * against it; a closed executor reports the reason of its closing.
   */
  lemma ReportIff(e: Executor, request: Message<nat>, r: Submission)
    requires Inv(e.sched)
    ensures Reported(e, request) == r <==> IsReport(e, request, r)
  {
    var m := Numbered(e, request);
    var verdict := Decide(e.sched, m);
    DecideIsVerdict(e.sched, m);
    VerdictIgnoresPayload(e.sched, m, request, verdict);
    ReportFrom(e, request, verdict);
    if IsReport(e, request, r) {
      ReportIsUnique(e, request, Reported(e, request), r);
    }
  }

  lemma ReportFrom(e: Executor, request: Message<nat>, verdict: AdmissionResult<nat>)
    requires verdict == Decide(e.sched, Numbered(e, request)) && IsVerdict(e.sched, request, verdict)
    requires verdict.Accepts() <==> Fits(e.sched, request)
    ensures IsReport(e, request, Reported(e, request))
  {
  }

  lemma ReportIsUnique(e: Executor, request: Message<nat>, x: Submission, y: Submission)
    requires WellFormed(e.sched) && IsReport(e, request, x) && IsReport(e, request, y)
    ensures x == y
  {
    if x.TurnedAway? && y.TurnedAway? {
      VerdictIsUnique(e.sched, request, x.verdict, y.verdict);
    }
  }

  // ---------- What a submission leaves ----------

  // The new work comes last and is for the request, under its own number.
  ghost predicate IsForRequest(e: Executor, request: Message<nat>, work: Work) {
    SameFields(work.message, request) && work.message.payload == |e.works| && work.generation == e.generation && !work.settled
  }

  // Queued work whose place is taken is settled as replaced and cleaned up; all other work stays as it is.
  ghost predicate IsSuperseded(e: Executor, request: Message<nat>, work: Work, after: Work) {
    if QueuedUnderKey(e.sched, request, work.message)
    then after == work.(settled := true, outcomes := [WasReplaced], cleanups := 1)
    else after == work
  }

  ghost predicate IsTaken(e: Executor, request: Message<nat>, after: Executor) {
    && |after.works| == |e.works| + 1
    && (forall w :: 0 <= w < |e.works| ==> IsSuperseded(e, request, e.works[w], after.works[w]))
    && var work := after.works[|e.works|];
       && IsForRequest(e, request, work) && work.outcomes == [] && work.cleanups == 0
       && after == e.(works := after.works, sched := Insert(e.sched, work.message), pumpScheduled := true)
  }

  // The completion is settled at once, and nothing else happens.
  ghost predicate IsTurnedAway(e: Executor, request: Message<nat>, after: Executor, outcome: Outcome) {
    exists work :: IsForRequest(e, request, work) && work.outcomes == [outcome] && work.cleanups == 1
                   && after == e.(works := e.works + [work])
  }

  ghost predicate IsSubmission(e: Executor, request: Message<nat>, after: Executor) {
    if e.closedReason.Some? then IsTurnedAway(e, request, after, WasClosed(e.closedReason.value))
    else if Fits(e.sched, request) then IsTaken(e, request, after)
    else exists verdict :: IsVerdict(e.sched, request, verdict) && IsTurnedAway(e, request, after, NotAdmitted(verdict))
  }

  /**
   * A submission to an open executor queues the request as it is under its own number if it
   * is valid and fits, and then settles exactly the work whose place it takes; otherwise, and
   * on a closed executor, it only settles its own completion.
   */
  lemma SubmitMeans(e: Executor, limits: Counts, request: Message<nat>)
    requires Sound(e, limits)
    ensures IsSubmission(e, request, Submit(e, request))
  {
    var m := Numbered(e, request);
    var verdict := Decide(e.sched, m);
    DecideIsVerdict(e.sched, m);
    VerdictIgnoresPayload(e.sched, m, request, verdict);
    var work := Work(m, e.generation, false, if e.closedReason.Some? then [WasClosed(e.closedReason.value)] else [NotAdmitted(verdict)], 1);
    assert IsForRequest(e, request, work);
    if e.closedReason.None? && verdict.Accepts() {
      TakenMeans(e, limits, request);
    }
  }

  lemma TakenMeans(e: Executor, limits: Counts, request: Message<nat>)
    requires Sound(e, limits) && e.closedReason.None? && Decide(e.sched, Numbered(e, request)).Accepts()
    ensures IsTaken(e, request, Submit(e, request))
  {
    var m := Numbered(e, request);
    var after := Submit(e, request);
    SubmitSched(e, request);
    forall w | 0 <= w < |e.works| ensures IsSuperseded(e, request, e.works[w], after.works[w]) {
      SupersededIs(e, limits, request, w);
    }
  }

  lemma SupersededIs(e: Executor, limits: Counts, request: Message<nat>, w: nat)
    requires Sound(e, limits) && e.closedReason.None? && Decide(e.sched, Numbered(e, request)).Accepts() && w < |e.works|
    ensures IsSuperseded(e, request, e.works[w], Submit(e, request).works[w])
  {
    var m := Numbered(e, request);
    var verdict := Decide(e.sched, m);
    DecideIsVerdict(e.sched, m);
    if verdict.Replaced? {
      PriorWaits(e.sched, m);
      HeldIsItsWork(e, verdict.replacedMessage);
      OnlyPriorUnderKey(e, request, verdict.replacedMessage, w);
    }
  }

  // Of all works, only the one whose message is replaced is queued under the request's key, and it is not settled yet.
  lemma OnlyPriorUnderKey(e: Executor, request: Message<nat>, prior: Message<nat>, w: nat)
    requires WellFormed(e.sched) && WorksSound(e) && w < |e.works| && QueuedUnderKey(e.sched, request, prior)
    requires R.Waiting(e.sched, prior) >= 1 && prior.payload < |e.works| && e.works[prior.payload].message == prior
    ensures QueuedUnderKey(e.sched, request, e.works[w].message) <==> w == prior.payload
    ensures w == prior.payload ==>
              Drop(e.works[w], WasReplaced) == e.works[w].(settled := true, outcomes := [WasReplaced], cleanups := 1)
  {
    assert WorkSound(e, w);
  }

  // ---------- The reason of the first close ----------

  ghost function FirstClose(ops: seq<Runs.Op>): Option<string> {
    if ops == [] then None else if ops[0].CloseOp? then Some(ops[0].reason) else FirstClose(ops[1..])
  }

  /** Over any run from an open executor, the reason it reports once closed is that of the first close. */
  lemma {:induction false} ClosedForFirstReason(e: Executor, limits: Counts, ops: seq<Runs.Op>)
    requires Sound(e, limits) && Runs.LegalRun(e, limits, ops)
    ensures Runs.After(e, limits, ops).closedReason == if e.closedReason.Some? then e.closedReason else FirstClose(ops)
    decreases |ops|
  {
    if ops != [] {
      StepClosedReason(e, limits, ops[0]);
      ClosedForFirstReason(Runs.Step(e, limits, ops[0]), limits, ops[1..]);
    }
  }

  lemma StepClosedReason(e: Executor, limits: Counts, op: Runs.Op)
    requires Sound(e, limits) && Runs.Enabled(e, op)
    ensures Runs.Step(e, limits, op).closedReason
         == if e.closedReason.None? && op.CloseOp? then Some(op.reason) else e.closedReason
  {
    match op
    case SubmitOp(request) => SubmitSched(e, request);
    case _ =>
  }
}
