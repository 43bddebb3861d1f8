/**
 * Whole runs of the executor, in any interleaving of submissions, pump rounds, settling
 * executions and closing: every completion settles once and with the right outcome, and
 * work that can run does run.
 */
module ExecutorRuns {
  import opened Options
  import opened Admission
  import opened SchedulerModel
  import opened ExecutorModel
  import opened ExecutorSteps
  import PM = ProcessModel
  import R = SchedulerRuns
  import RoundRobin
  import ZoneDrain

  datatype Op =
    | SubmitOp(request: Message<nat>)
    | PumpStartOp
    | PumpStepOp(token: CompletionToken)
    | FinishOp(token: CompletionToken, failed: bool)
    | CloseOp(reason: string)

  // What can happen next. Submissions and closing may come from inside a running pump; the scheduled pump is deferred.
  ghost predicate Enabled(e: Executor, op: Op) {
    match op
    case SubmitOp(_) => true
    case PumpStartOp => e.pumpScheduled && !e.pumping
    case PumpStepOp(token) => e.pumping && !IsLive(e.sched, token)
    case FinishOp(token, _) => IsLive(e.sched, token)
    case CloseOp(_) => true
  }

  ghost function Step(e: Executor, limits: Counts, op: Op): (after: Executor)
    requires Sound(e, limits) && Enabled(e, op)
    ensures Sound(after, limits)
  {
    match op
    case SubmitOp(request) => SubmitSound(e, limits, request); Submit(e, request)
    case PumpStartOp => PumpStartSound(e, limits); PumpStart(e)
    case PumpStepOp(token) => PumpStepSound(e, limits, token); PumpStep(e, limits, token)
    case FinishOp(token, failed) => FinishSound(e, limits, token, failed); Finish(e, token, failed)
    case CloseOp(reason) => CloseSound(e, limits, reason); Close(e, reason)
  }

  ghost predicate LegalRun(e: Executor, limits: Counts, ops: seq<Op>)
    requires Sound(e, limits)
    decreases |ops|
  {
    ops != [] ==> Enabled(e, ops[0]) && LegalRun(Step(e, limits, ops[0]), limits, ops[1..])
  }

  ghost function After(e: Executor, limits: Counts, ops: seq<Op>): (after: Executor)
    requires Sound(e, limits) && LegalRun(e, limits, ops)
    ensures Sound(after, limits)
    decreases |ops|
  {
    if ops == [] then e else After(Step(e, limits, ops[0]), limits, ops[1..])
  }

  lemma {:induction false} RunAppend(e: Executor, limits: Counts, ops: seq<Op>, op: Op)
    requires Sound(e, limits) && LegalRun(e, limits, ops) && Enabled(After(e, limits, ops), op)
    ensures LegalRun(e, limits, ops + [op])
    ensures After(e, limits, ops + [op]) == Step(After(e, limits, ops), limits, op)
    decreases |ops|
  {
    var longer := ops + [op];
    if ops == [] {
      assert longer[0] == op && longer[1..] == [];
    } else {
      assert longer[0] == ops[0] && longer[1..] == ops[1..] + [op];
      RunAppend(Step(e, limits, ops[0]), limits, ops[1..], op);
    }
  }

  // ---------- The right outcome ----------

  // The outcome an operation has in store for a submission, whether or not it is settled already.
  ghost function Touch(e: Executor, op: Op, w: nat): Option<Outcome> {
    match op
    case SubmitOp(request) => SubmitTouch(e, request, w)
    case FinishOp(token, failed) =>
      if IsLive(e.sched, token) && MessageFor(e.sched, token).payload == w then Some(if failed then Failed else Executed) else None
    case CloseOp(reason) => if e.closedReason.None? && w < |e.works| then Some(WasClosed(reason)) else None
    case _ => None
  }

  ghost function SubmitTouch(e: Executor, request: Message<nat>, w: nat): Option<Outcome> {
    var verdict := Decide(e.sched, Numbered(e, request));
    if e.closedReason.Some? then (if w == |e.works| then Some(WasClosed(e.closedReason.value)) else None)
    else if w == |e.works| then (if verdict.Accepts() then None else Some(NotAdmitted(verdict)))
    else if verdict.Replaced? && verdict.replacedMessage.payload == w then Some(WasReplaced)
    else None
  }

  ghost function FirstTouch(e: Executor, limits: Counts, ops: seq<Op>, w: nat): Option<Outcome>
    requires Sound(e, limits) && LegalRun(e, limits, ops)
    decreases |ops|
  {
    if ops == [] then None
    else if Touch(e, ops[0], w).Some? then Touch(e, ops[0], w)
    else FirstTouch(Step(e, limits, ops[0]), limits, ops[1..], w)
  }

  ghost function OutcomesOf(e: Executor, w: nat): seq<Outcome> {
    if w < |e.works| then e.works[w].outcomes else []
  }

  ghost function OrElse(outcomes: seq<Outcome>, next: Option<Outcome>): seq<Outcome> {
    if outcomes == [] && next.Some? then [next.value] else outcomes
  }

  lemma SubmitOutcome(e: Executor, request: Message<nat>, w: nat)
    requires WorksSound(e) && HoldsOnlySubmitted(e)
    ensures OutcomesOf(Submit(e, request), w) == OrElse(OutcomesOf(e, w), SubmitTouch(e, request, w))
  {
    var verdict := Decide(e.sched, Numbered(e, request));
    SubmitSched(e, request);
    if verdict.Replaced? {
      PriorWaits(e.sched, Numbered(e, request));
      HeldIsItsWork(e, verdict.replacedMessage);
      assert WorkSound(e, verdict.replacedMessage.payload);
    }
  }

  /** Work in flight is settled already or still carries the current generation, so the generation test never strands it. */
  lemma RunningFinishes(e: Executor, m: Message<nat>, failed: bool)
    requires WorksSound(e) && HoldsOnlySubmitted(e) && R.Flying(e.sched.inFlight, m) > 0
    ensures m.payload < |e.works|
    ensures Finished(e.works[m.payload], e.generation, failed).outcomes
         == OrElse(e.works[m.payload].outcomes, Some(if failed then Failed else Executed))
  {
    HeldIsItsWork(e, m);
    assert WorkSound(e, m.payload);
  }

  lemma FinishOutcome(e: Executor, token: CompletionToken, failed: bool, w: nat)
    requires WellFormed(e.sched) && IsLive(e.sched, token) && CountsAll(e.activeByClass) && WorksSound(e) && HoldsOnlySubmitted(e)
    ensures OutcomesOf(Finish(e, token, failed), w) == OrElse(OutcomesOf(e, w), Touch(e, FinishOp(token, failed), w))
  {
    var m := MessageFor(e.sched, token);
    FinishSched(e, token, failed);
    FinishConserves(e.sched, token, m);
    RunningFinishes(e, m, failed);
    var touch := Touch(e, FinishOp(token, failed), w);
    assert touch == if m.payload == w then Some(if failed then Failed else Executed) else None;
  }

  lemma CloseOutcome(e: Executor, reason: string, w: nat)
    requires WorksSound(e) && HoldsOnlySubmitted(e) && ActiveListed(e)
    ensures OutcomesOf(Close(e, reason), w) == OrElse(OutcomesOf(e, w), Touch(e, CloseOp(reason), w))
  {
    if e.closedReason.None? && w < |e.works| {
      CloseWorkIs(e, reason, w);
      assert WorkSound(e, w);
    }
  }

  lemma StepOutcome(e: Executor, limits: Counts, op: Op, w: nat)
    requires Sound(e, limits) && Enabled(e, op)
    ensures OutcomesOf(Step(e, limits, op), w) == OrElse(OutcomesOf(e, w), Touch(e, op, w))
  {
    match op
    case SubmitOp(request) => SubmitOutcome(e, request, w);
    case FinishOp(token, failed) =>
      AllCounted(e, limits);
      FinishOutcome(e, token, failed, w);
    case CloseOp(reason) => CloseOutcome(e, reason, w);
    case _ =>
  }

  /**
   * Whatever the interleaving, a completion settles at most once, and with the outcome of
   * the first thing that happened to its submission: refused or closed when submitted,
   * replaced, closed, or the result of its own execution.
   */
  lemma {:induction false} SettlesOnceAsFirstTouched(e: Executor, limits: Counts, ops: seq<Op>, w: nat)
    requires Sound(e, limits) && LegalRun(e, limits, ops)
    ensures OutcomesOf(After(e, limits, ops), w) == OrElse(OutcomesOf(e, w), FirstTouch(e, limits, ops, w))
    ensures |OutcomesOf(After(e, limits, ops), w)| <= 1
    decreases |ops|
  {
    AtMostOneOutcome(e, w);
    if ops != [] {
      StepOutcome(e, limits, ops[0], w);
      SettlesOnceAsFirstTouched(Step(e, limits, ops[0]), limits, ops[1..], w);
    }
  }

  lemma AtMostOneOutcome(e: Executor, w: nat)
    requires WorksSound(e)
    ensures |OutcomesOf(e, w)| <= 1
  {
    if w < |e.works| {
      assert WorkSound(e, w);
    }
  }

  // ---------- What holds in every reachable state ----------

  // An executor that was just created.
  ghost predicate IsNew(e: Executor) {
    && IsEmpty(e.sched) && e.works == [] && e.activeWork == {} && !e.pumpScheduled && !e.pumping
    && e.generation == 0 && e.closedReason.None? && forall c: MessageClass :: c in e.activeByClass && e.activeByClass[c] == 0
  }

  lemma NewIsSound(e: Executor, limits: Counts)
    requires IsNew(e) && ValidLimits(limits)
    ensures Sound(e, limits)
  {
    EmptyInv(e.sched);
    forall m ensures Submitted(e, m) {
      NoneQueued(e.sched, m);
    }
    NothingQueuedIn(e.sched);
  }

  /**
   * After any run, as many executions of a class are active as the scheduler has in flight,
   * never more than its limit, and no class that could start work is left without a pump.
   */
  lemma LimitedAndAwake(e: Executor, limits: Counts, ops: seq<Op>, c: MessageClass)
    requires Sound(e, limits) && LegalRun(e, limits, ops)
    ensures var after := After(e, limits, ops);
            && c in after.activeByClass && c in limits
            && after.activeByClass[c] == |Select(after.sched.inFlight, OfClass(c))| <= limits[c]
            && (after.closedReason.None? && after.activeByClass[c] < limits[c] && Queued(after.sched, c) != [] ==>
                  after.pumpScheduled || after.pumping)
  {
    ClassState(After(e, limits, ops), limits, c);
  }

  lemma ClassState(e: Executor, limits: Counts, c: MessageClass)
    requires ClassesCounted(e, limits) && PumpDue(e, limits)
    ensures ClassCounted(e, limits, c)
    ensures e.closedReason.None? && Startable(e, limits, c) ==> e.pumpScheduled || e.pumping
  {
  }

  /** After any run, a submission has been cleaned up exactly once if it holds no capacity, and not yet if it holds some. */
  lemma CleanedOnceReleased(e: Executor, limits: Counts, ops: seq<Op>, w: nat)
    requires Sound(e, limits) && LegalRun(e, limits, ops) && w < |After(e, limits, ops).works|
    ensures var after := After(e, limits, ops);
            var holds := R.Waiting(after.sched, after.works[w].message) + R.Flying(after.sched.inFlight, after.works[w].message);
            after.works[w].cleanups == if holds == 0 then 1 else 0
  {
    assert WorkSound(After(e, limits, ops), w);
  }

  // ---------- Starts ----------

  ghost predicate Starts(e: Executor, limits: Counts, op: Op)
    requires Sound(e, limits)
  {
    AllCounted(e, limits);
    op.PumpStepOp? && NextStart(e, limits).Some?
  }

  ghost function StartsIn(e: Executor, limits: Counts, ops: seq<Op>): nat
    requires Sound(e, limits) && LegalRun(e, limits, ops)
    decreases |ops|
  {
    if ops == [] then 0
    else RoundRobin.Bit(Starts(e, limits, ops[0])) + StartsIn(Step(e, limits, ops[0]), limits, ops[1..])
  }

  lemma StaysClosed(e: Executor, limits: Counts, op: Op)
    requires Sound(e, limits) && Enabled(e, op)
    ensures e.closedReason.Some? ==> Step(e, limits, op).closedReason == e.closedReason && !Starts(e, limits, op)
  {
    AllCounted(e, limits);
    ClosedStartsNothing(e, limits);
  }

  /** No execution starts after closing, although a running pump does not look at the reason again. */
  lemma {:induction false} NoStartAfterClose(e: Executor, limits: Counts, ops: seq<Op>)
    requires Sound(e, limits) && LegalRun(e, limits, ops) && e.closedReason.Some?
    ensures StartsIn(e, limits, ops) == 0
    decreases |ops|
  {
    if ops != [] {
      StaysClosed(e, limits, ops[0]);
      NoStartAfterClose(Step(e, limits, ops[0]), limits, ops[1..]);
    }
  }

  // Executions that could still be added, over all classes.
  function FreeSlots(active: Counts, limits: Counts): int
    requires forall c: MessageClass :: c in active && c in limits
  {
    (limits[Safety] - active[Safety]) + (limits[Authority] - active[Authority])
    + (limits[Liveness] - active[Liveness]) + (limits[Diagnostic] - active[Diagnostic])
  }

  lemma FreeSlotsTaken(e: Executor, limits: Counts, op: Op)
    requires Sound(e, limits) && Enabled(e, op) && !op.FinishOp?
    ensures CountsAll(e.activeByClass) && CountsAll(Step(e, limits, op).activeByClass)
    ensures FreeSlots(e.activeByClass, limits)
         == FreeSlots(Step(e, limits, op).activeByClass, limits) + RoundRobin.Bit(Starts(e, limits, op))
  {
    AllCounted(e, limits);
    AllCounted(Step(e, limits, op), limits);
    match op
    case SubmitOp(request) => SubmitSched(e, request);
    case PumpStepOp(token) =>
      if NextStart(e, limits).Some? {
        StartSched(e, limits, token);
        SlotTaken(e.activeByClass, limits, NextStart(e, limits).value.messageClass);
      }
    case CloseOp(reason) =>
      if e.closedReason.None? {
        CloseSched(e, reason);
      }
    case _ =>
  }

  lemma SlotTaken(active: Counts, limits: Counts, c: MessageClass)
    requires CountsAll(active) && ValidLimits(limits)
    ensures FreeSlots(active[c := active[c] + 1], limits) == FreeSlots(active, limits) - 1
  {
  }

  lemma FreeSlotsNonNegative(e: Executor, limits: Counts)
    requires Sound(e, limits)
    ensures CountsAll(e.activeByClass) && FreeSlots(e.activeByClass, limits) >= 0
  {
    AllCounted(e, limits);
    assert ClassCounted(e, limits, Safety) && ClassCounted(e, limits, Authority);
    assert ClassCounted(e, limits, Liveness) && ClassCounted(e, limits, Diagnostic);
  }

  /**
   * While no execution settles, a pump starts at most as many as there are free slots,
   * whatever is submitted from inside it, and every start takes one slot.
   */
  lemma {:induction false} PumpBounded(e: Executor, limits: Counts, ops: seq<Op>)
    requires Sound(e, limits) && LegalRun(e, limits, ops)
    requires forall i :: 0 <= i < |ops| ==> !ops[i].FinishOp?
    ensures CountsAll(e.activeByClass) && CountsAll(After(e, limits, ops).activeByClass)
    ensures StartsIn(e, limits, ops) + FreeSlots(After(e, limits, ops).activeByClass, limits) == FreeSlots(e.activeByClass, limits)
    ensures StartsIn(e, limits, ops) <= FreeSlots(e.activeByClass, limits)
    decreases |ops|
  {
    AllCounted(e, limits);
    FreeSlotsNonNegative(After(e, limits, ops), limits);
    if ops != [] {
      FreeSlotsTaken(e, limits, ops[0]);
      PumpBounded(Step(e, limits, ops[0]), limits, ops[1..]);
    }
  }

  // ---------- Running dry ----------

  // What is left to do without further submissions.
  ghost function Measure(e: Executor): nat {
    6 * ZoneDrain.QueuedCount(e.sched) + 4 * |e.sched.inFlight|
    + 2 * RoundRobin.Bit(e.pumpScheduled) + RoundRobin.Bit(e.pumping) + RoundRobin.Bit(e.closedReason.None?)
  }

  // Neither a submission nor a repeated closing, which does nothing.
  ghost predicate Effective(e: Executor, op: Op) {
    !op.SubmitOp? && (op.CloseOp? ==> e.closedReason.None?)
  }

  lemma DequeueCount(s: State<nat>, allowed: Option<seq<MessageClass>>, token: CompletionToken)
    requires CursorsInRange(s) && Delivery(s, allowed).Some?
    ensures ZoneDrain.QueuedCount(Dequeue(s, allowed, token)) == ZoneDrain.QueuedCount(s) - 1
    ensures |Dequeue(s, allowed, token).inFlight| == |s.inFlight| + 1
  {
    var c := SERVICE_CYCLE[NextSlot(s, allowed).value];
    ZoneDrain.TakeCount(s, c);
    TakeKeepsFlight(s, c);
  }

  lemma CompleteCount(s: State<nat>, token: CompletionToken)
    requires WellFormed(s) && IsLive(s, token)
    ensures ZoneDrain.QueuedCount(Complete(s, token)) == ZoneDrain.QueuedCount(s)
    ensures |Complete(s, token).inFlight| == |s.inFlight| - 1
  {
    PM.CompleteKeepsClassQueues(s, token);
    ZoneDrain.SameCount(Complete(s, token), s);
  }

  lemma CancelCount(s: State<nat>)
    ensures ZoneDrain.QueuedCount(CancelQueued(s)) == 0 && CancelQueued(s).inFlight == s.inFlight
  {
    CancelEmpties(s);
    NothingQueuedIn(CancelQueued(s));
    var after := CancelQueued(s);
    assert Queued(after, Safety) == [] && Queued(after, Authority) == [] && Queued(after, Liveness) == [] && Queued(after, Diagnostic) == [];
  }

  lemma StepShrinks(e: Executor, limits: Counts, op: Op)
    requires Sound(e, limits) && Enabled(e, op) && Effective(e, op)
    ensures Measure(Step(e, limits, op)) < Measure(e)
  {
    match op
    case PumpStartOp =>
    case PumpStepOp(token) =>
      AllCounted(e, limits);
      if NextStart(e, limits).Some? {
        DequeueCount(e.sched, Some(Below(e.activeByClass, limits)), token);
      }
    case FinishOp(token, failed) =>
      AllCounted(e, limits);
      FinishSched(e, token, failed);
      CompleteCount(e.sched, token);
    case CloseOp(reason) =>
      CloseSched(e, reason);
      CancelCount(e.sched);
  }

  // Every operation of the run is effective.
  ghost predicate EffectiveRun(e: Executor, limits: Counts, ops: seq<Op>)
    requires Sound(e, limits) && LegalRun(e, limits, ops)
    decreases |ops|
  {
    ops != [] ==> Effective(e, ops[0]) && EffectiveRun(Step(e, limits, ops[0]), limits, ops[1..])
  }

  /** Without further submissions the executor runs dry: such a run is no longer than the work there was. */
  lemma {:induction false} RunsDry(e: Executor, limits: Counts, ops: seq<Op>)
    requires Sound(e, limits) && LegalRun(e, limits, ops) && EffectiveRun(e, limits, ops)
    ensures |ops| <= Measure(e)
    decreases |ops|
  {
    if ops != [] {
      StepShrinks(e, limits, ops[0]);
      RunsDry(Step(e, limits, ops[0]), limits, ops[1..]);
    }
  }

  // Nothing is due any more.
  ghost predicate Quiet(e: Executor) {
    !e.pumpScheduled && !e.pumping && e.sched.inFlight == []
  }

  /** Where nothing is due, every submission has settled and been cleaned up, each exactly once. */
  lemma QuietIsSettled(e: Executor, limits: Counts)
    requires Sound(e, limits) && Quiet(e)
    ensures AllQueued(e.sched) == []
    ensures forall w :: 0 <= w < |e.works| ==> |e.works[w].outcomes| == 1 && e.works[w].cleanups == 1
  {
    if e.closedReason.None? {
      forall c: MessageClass ensures Queued(e.sched, c) == [] {
        assert ClassCounted(e, limits, c) && !Startable(e, limits, c);
      }
      assert Queued(e.sched, Safety) == [] && Queued(e.sched, Authority) == [];
      assert Queued(e.sched, Liveness) == [] && Queued(e.sched, Diagnostic) == [];
    }
    forall w | 0 <= w < |e.works| ensures |e.works[w].outcomes| == 1 && e.works[w].cleanups == 1 {
      assert WorkSound(e, w);
      NoneQueued(e.sched, e.works[w].message);
    }
  }

  /** As long as something is due, some step other than a submission or closing is possible, and shortens the remaining work. */
  lemma DueMeansProgress(e: Executor, limits: Counts, token: CompletionToken)
    requires Sound(e, limits) && !Quiet(e) && !IsLive(e.sched, token)
    ensures exists op: Op :: Enabled(e, op) && Effective(e, op) && !op.CloseOp? && Measure(Step(e, limits, op)) < Measure(e)
  {
    var op := if e.pumping then PumpStepOp(token)
              else if e.pumpScheduled then PumpStartOp
              else FinishOp(e.sched.inFlight[0].token, false);
    assert Enabled(e, op) && Effective(e, op);
    StepShrinks(e, limits, op);
  }
}
