/**
 * Every step of the executor keeps its invariant: each submission is accounted for, the
 * counters equal what is in flight, and no wakeup is lost.
 */
module ExecutorSteps {
  import opened Options
  import opened Admission
  import opened SchedulerModel
  import opened ExecutorModel
  import PM = ProcessModel
  import R = SchedulerRuns
  import RoundRobin

  // What is held was submitted, so a fresh number is held nowhere.
  lemma FreshIsUnheld(e: Executor, m: Message<nat>)
    requires HoldsOnlySubmitted(e) && m.payload >= |e.works|
    ensures R.Waiting(e.sched, m) == 0 && R.Flying(e.sched.inFlight, m) == 0
  {
    assert Submitted(e, m);
  }

  lemma HeldIsItsWork(e: Executor, m: Message<nat>)
    requires HoldsOnlySubmitted(e) && R.Waiting(e.sched, m) + R.Flying(e.sched.inFlight, m) > 0
    ensures m.payload < |e.works| && e.works[m.payload].message == m
  {
    assert Submitted(e, m);
  }

  lemma {:induction false} CountPositive<T>(ms: seq<Message<T>>, i: nat)
    requires i < |ms|
    ensures R.Count(ms, ms[i]) >= 1
  {
    if i > 0 {
      CountPositive(ms[1..], i - 1);
    }
  }

  lemma PriorWaits(s: State<nat>, m: Message<nat>)
    requires Decide(s, m).Replaced?
    ensures R.Waiting(s, Decide(s, m).replacedMessage) >= 1
  {
    var ms := Queued(s, m.messageClass);
    CountPositive(ms, KeyIndex(ms, m.coalesceKey));
  }

  // ---------- Submitting ----------

  lemma SubmitSched(e: Executor, request: Message<nat>)
    ensures var after := Submit(e, request);
            && |after.works| == |e.works| + 1
            && after.works[|e.works|].message == Numbered(e, request)
            && (e.closedReason.Some? ==> after.sched == e.sched)
            && (e.closedReason.None? ==> after.sched == Enqueue(e.sched, Numbered(e, request)))
            && after.generation == e.generation && after.closedReason == e.closedReason
            && after.activeWork == e.activeWork && after.activeByClass == e.activeByClass
            && after.pumping == e.pumping
            && forall w :: 0 <= w < |e.works| ==> after.works[w].message == e.works[w].message
  {
    ReplaceKeeps(e, Decide(e.sched, Numbered(e, request)));
  }

  lemma ReplaceKeeps(e: Executor, verdict: AdmissionResult<nat>)
    ensures var after := Replace(e, verdict);
            && after == e.(works := after.works) && |after.works| == |e.works|
            && forall w :: 0 <= w < |e.works| ==> after.works[w].message == e.works[w].message
  {
  }

  // What a submission does to the work submitted before.
  lemma SubmitOld(e: Executor, request: Message<nat>, w: nat)
    requires WorksSound(e) && HoldsOnlySubmitted(e) && w < |e.works|
    ensures WorkSound(Submit(e, request), w)
  {
    var m := Numbered(e, request);
    var verdict := Decide(e.sched, m);
    assert WorkSound(e, w);
    SubmitSched(e, request);
    R.EnqueueConserves(e.sched, m, e.works[w].message);
    if verdict.Replaced? {
      PriorWaits(e.sched, m);
      HeldIsItsWork(e, verdict.replacedMessage);
    }
  }

  lemma SubmitNew(e: Executor, request: Message<nat>)
    requires HoldsOnlySubmitted(e)
    ensures var after := Submit(e, request);
            |after.works| == |e.works| + 1 && WorkSound(after, |e.works|)
  {
    var m := Numbered(e, request);
    SubmitSched(e, request);
    FreshIsUnheld(e, m);
    R.EnqueueConserves(e.sched, m, m);
    if Decide(e.sched, m).Replaced? {
      PriorWaits(e.sched, m);
    }
  }

  lemma SubmitHolds(e: Executor, request: Message<nat>)
    requires HoldsOnlySubmitted(e)
    ensures HoldsOnlySubmitted(Submit(e, request))
  {
    var m := Numbered(e, request);
    var after := Submit(e, request);
    SubmitSched(e, request);
    forall x ensures Submitted(after, x) {
      assert Submitted(e, x);
      R.EnqueueConserves(e.sched, m, x);
    }
  }

  lemma SameFlight(s: State<nat>, m: Message<nat>)
    ensures Enqueue(s, m).inFlight == s.inFlight
    ensures !Decide(s, m).Accepts() ==> Enqueue(s, m) == s
  {
  }

  lemma SubmitCounted(e: Executor, limits: Counts, request: Message<nat>)
    requires ClassesCounted(e, limits) && ActiveListed(e) && HoldsOnlySubmitted(e)
    ensures ClassesCounted(Submit(e, request), limits) && ActiveListed(Submit(e, request))
  {
    var after := Submit(e, request);
    SubmitSched(e, request);
    SameFlight(e.sched, Numbered(e, request));
    FreshIsUnheld(e, Numbered(e, request));
    forall c: MessageClass ensures ClassCounted(after, limits, c) {
      assert ClassCounted(e, limits, c);
    }
  }

  lemma SubmitPumps(e: Executor, limits: Counts, request: Message<nat>)
    requires PumpDue(e, limits)
    ensures PumpDue(Submit(e, request), limits)
  {
    var after := Submit(e, request);
    SubmitSched(e, request);
    SameFlight(e.sched, Numbered(e, request));
    if e.closedReason.None? && !Decide(e.sched, Numbered(e, request)).Accepts() {
      assert after.pumpScheduled == e.pumpScheduled;
      forall c: MessageClass | !e.pumpScheduled && !e.pumping ensures !Startable(after, limits, c) {
        assert !Startable(e, limits, c);
      }
    }
  }

  lemma SubmitSound(e: Executor, limits: Counts, request: Message<nat>)
    requires Sound(e, limits)
    ensures Sound(Submit(e, request), limits)
  {
    SubmitSched(e, request);
    EnqueueInv(e.sched, Numbered(e, request));
    SubmitHolds(e, request);
    SubmitCounted(e, limits, request);
    SubmitPumps(e, limits, request);
    SubmitNew(e, request);
    forall w | 0 <= w < |e.works| + 1 ensures WorkSound(Submit(e, request), w) {
      if w < |e.works| {
        SubmitOld(e, request, w);
      }
    }
    assert WorksSound(Submit(e, request));
  }

  // ---------- Pumping ----------

  lemma PumpStartSound(e: Executor, limits: Counts)
    requires Sound(e, limits)
    ensures Sound(PumpStart(e), limits)
  {
    var after := PumpStart(e);
    SameHoldings(e, after);
    SameCounts(e, after, limits);
  }

  // Steps that touch neither the scheduler nor the works keep what is known of them.
  lemma SameHoldings(e: Executor, after: Executor)
    requires WorksSound(e) && HoldsOnlySubmitted(e)
    requires after.sched == e.sched && after.works == e.works && after.generation == e.generation && after.closedReason == e.closedReason
    ensures WorksSound(after) && HoldsOnlySubmitted(after)
  {
    forall w | 0 <= w < |after.works| ensures WorkSound(after, w) {
      assert WorkSound(e, w);
    }
    forall m ensures Submitted(after, m) {
      assert Submitted(e, m);
    }
  }

  lemma SameCounts(e: Executor, after: Executor, limits: Counts)
    requires ClassesCounted(e, limits) && ActiveListed(e)
    requires after.sched == e.sched && after.works == e.works && after.activeWork == e.activeWork && after.activeByClass == e.activeByClass
    ensures ClassesCounted(after, limits) && ActiveListed(after)
  {
    forall c: MessageClass ensures ClassCounted(after, limits, c) {
      assert ClassCounted(e, limits, c);
    }
  }

  lemma AllCounted(e: Executor, limits: Counts)
    requires ClassesCounted(e, limits)
    ensures CountsAll(e.activeByClass)
  {
    forall c: MessageClass ensures c in e.activeByClass {
      assert ClassCounted(e, limits, c);
    }
  }

  // The pump stops only when nothing can be started.
  lemma NothingToStart(e: Executor, limits: Counts)
    requires CursorsInRange(e.sched) && CountsAll(e.activeByClass) && ValidLimits(limits) && NextStart(e, limits).None?
    ensures forall c: MessageClass :: !Startable(e, limits, c)
  {
    var allowed := Below(e.activeByClass, limits);
    forall c: MessageClass ensures !Startable(e, limits, c) {
      BelowAll(e.activeByClass, limits, c);
      if allowed != [] {
        assert ServiceBacklog(e.sched, Some(allowed))[FirstSlot(c)] == Ready(e.sched, Some(allowed), c);
      }
    }
  }

  lemma StartIsAllowed(e: Executor, limits: Counts)
    requires WellFormed(e.sched) && CountsAll(e.activeByClass) && ValidLimits(limits) && NextStart(e, limits).Some?
    ensures var m := NextStart(e, limits).value;
            e.activeByClass[m.messageClass] < limits[m.messageClass]
  {
    var allowed := Below(e.activeByClass, limits);
    var c := SERVICE_CYCLE[NextSlot(e.sched, Some(allowed)).value];
    HeadValid(e.sched, c);
    BelowAll(e.activeByClass, limits, c);
  }

  lemma TakeKeepsFlight(s: State<nat>, c: MessageClass)
    requires CursorsInRange(s) && Queued(s, c) != []
    ensures Take(s, c).inFlight == s.inFlight
  {
  }

  lemma DeliveryTakesOff(s: State<nat>, allowed: Option<seq<MessageClass>>, token: CompletionToken)
    requires CursorsInRange(s) && Delivery(s, allowed).Some?
    ensures Dequeue(s, allowed, token).inFlight == s.inFlight + [InFlight(token, Delivery(s, allowed).value)]
  {
    TakeKeepsFlight(s, SERVICE_CYCLE[NextSlot(s, allowed).value]);
  }

  lemma DeliveryConserves(s: State<nat>, allowed: Option<seq<MessageClass>>, token: CompletionToken, x: Message<nat>)
    requires CursorsInRange(s) && Delivery(s, allowed).Some?
    ensures var (m, after) := (Delivery(s, allowed).value, Dequeue(s, allowed, token));
            && R.Waiting(after, x) == R.Waiting(s, x) - RoundRobin.Bit(x == m)
            && R.Flying(after.inFlight, x) == R.Flying(s.inFlight, x) + RoundRobin.Bit(x == m)
  {
    R.DequeueConserves(s, allowed, token, x);
    DeliveredMoves(s, Delivery(s, allowed), Dequeue(s, allowed, token), x);
  }

  lemma DeliveredMoves(s: State<nat>, m: Option<Message<nat>>, after: State<nat>, x: Message<nat>)
    requires m.Some? && R.Conserves(s, R.DequeueEvent(m), after, x)
    ensures R.Waiting(after, x) == R.Waiting(s, x) - RoundRobin.Bit(x == m.value)
    ensures R.Flying(after.inFlight, x) == R.Flying(s.inFlight, x) + RoundRobin.Bit(x == m.value)
  {
  }

  lemma StartSched(e: Executor, limits: Counts, token: CompletionToken)
    requires CursorsInRange(e.sched) && CountsAll(e.activeByClass) && ValidLimits(limits) && NextStart(e, limits).Some?
    ensures var (m, after) := (NextStart(e, limits).value, PumpStep(e, limits, token));
            && after.sched.inFlight == e.sched.inFlight + [InFlight(token, m)]
            && after.works == e.works && after.activeWork == e.activeWork + {m.payload}
            && after.activeByClass == e.activeByClass[m.messageClass := e.activeByClass[m.messageClass] + 1]
  {
    var s := Dequeue(e.sched, Some(Below(e.activeByClass, limits)), token);
    DeliveryTakesOff(e.sched, Some(Below(e.activeByClass, limits)), token);
    MarkedIs(e, s, NextStart(e, limits).value);
  }

  lemma MarkedIs(e: Executor, s: State<nat>, m: Message<nat>)
    requires CountsAll(e.activeByClass)
    ensures var after := Marked(e.(sched := s), m);
            && after.sched == s && after.works == e.works && after.activeWork == e.activeWork + {m.payload}
            && after.activeByClass == e.activeByClass[m.messageClass := e.activeByClass[m.messageClass] + 1]
  {
  }

  lemma StartConserves(e: Executor, limits: Counts, token: CompletionToken, x: Message<nat>)
    requires WellFormed(e.sched) && CountsAll(e.activeByClass) && ValidLimits(limits) && NextStart(e, limits).Some?
    ensures var (m, after) := (NextStart(e, limits).value, PumpStep(e, limits, token).sched);
            && R.Waiting(after, x) == R.Waiting(e.sched, x) - RoundRobin.Bit(x == m)
            && R.Flying(after.inFlight, x) == R.Flying(e.sched.inFlight, x) + RoundRobin.Bit(x == m)
  {
    DeliveryConserves(e.sched, Some(Below(e.activeByClass, limits)), token, x);
  }

  lemma StartWork(e: Executor, limits: Counts, token: CompletionToken, w: nat)
    requires WellFormed(e.sched) && CountsAll(e.activeByClass) && ValidLimits(limits) && NextStart(e, limits).Some?
    requires e.closedReason.None? && WorksSound(e) && w < |e.works|
    ensures WorkSound(PumpStep(e, limits, token), w)
  {
    assert WorkSound(e, w);
    StartConserves(e, limits, token, e.works[w].message);
  }

  lemma StartHolds(e: Executor, limits: Counts, token: CompletionToken)
    requires WellFormed(e.sched) && CountsAll(e.activeByClass) && ValidLimits(limits) && NextStart(e, limits).Some?
    requires HoldsOnlySubmitted(e)
    ensures HoldsOnlySubmitted(PumpStep(e, limits, token))
  {
    var after := PumpStep(e, limits, token);
    StartSched(e, limits, token);
    forall x ensures Submitted(after, x) {
      assert Submitted(e, x);
      StartConserves(e, limits, token, x);
    }
  }

  lemma StartCounted(e: Executor, limits: Counts, token: CompletionToken)
    requires WellFormed(e.sched) && CountsAll(e.activeByClass) && ValidLimits(limits) && NextStart(e, limits).Some?
    requires ClassesCounted(e, limits)
    ensures ClassesCounted(PumpStep(e, limits, token), limits)
  {
    var m, after := NextStart(e, limits).value, PumpStep(e, limits, token);
    StartSched(e, limits, token);
    StartIsAllowed(e, limits);
    forall c: MessageClass ensures ClassCounted(after, limits, c) {
      assert ClassCounted(e, limits, c);
      SelectAppend(e.sched.inFlight, InFlight(token, m), OfClass(c));
    }
  }

  lemma StartListed(e: Executor, limits: Counts, token: CompletionToken)
    requires WellFormed(e.sched) && CountsAll(e.activeByClass) && ValidLimits(limits) && NextStart(e, limits).Some?
    requires ActiveListed(e) && HoldsOnlySubmitted(e) && WorksSound(e)
    ensures ActiveListed(PumpStep(e, limits, token))
  {
    StartedIsItsWork(e, limits, token);
    StartSched(e, limits, token);
    var after := PumpStep(e, limits, token);
    forall w | 0 <= w < |after.works| ensures Runs(after, w) {
      StartRuns(e, limits, token, w);
    }
    RunsListed(after);
  }

  // What is started is a submitted message that is not in flight.
  lemma StartedIsItsWork(e: Executor, limits: Counts, token: CompletionToken)
    requires WellFormed(e.sched) && CountsAll(e.activeByClass) && ValidLimits(limits) && NextStart(e, limits).Some?
    requires HoldsOnlySubmitted(e) && WorksSound(e)
    ensures var m := NextStart(e, limits).value;
            m.payload < |e.works| && e.works[m.payload].message == m && R.Flying(e.sched.inFlight, m) == 0
  {
    var m := NextStart(e, limits).value;
    StartConserves(e, limits, token, m);
    HeldIsItsWork(e, m);
    WaitingDoesNotRun(e, m.payload);
  }

  ghost predicate Runs(e: Executor, w: nat)
    requires w < |e.works|
  {
    w in e.activeWork <==> R.Flying(e.sched.inFlight, e.works[w].message) == 1
  }

  // Of all works only the one whose message is started is in flight anew.
  lemma StartRuns(e: Executor, limits: Counts, token: CompletionToken, w: nat)
    requires WellFormed(e.sched) && CountsAll(e.activeByClass) && ValidLimits(limits) && NextStart(e, limits).Some?
    requires WorksSound(e) && HoldsOnlySubmitted(e) && ActiveListed(e) && w < |e.works|
    ensures PumpStep(e, limits, token).works == e.works && Runs(PumpStep(e, limits, token), w)
  {
    StartSched(e, limits, token);
    StartedIsItsWork(e, limits, token);
    StartConserves(e, limits, token, e.works[w].message);
    assert WorkSound(e, w) && Runs(e, w);
  }

  lemma RunsListed(e: Executor)
    requires forall w :: w in e.activeWork ==> w < |e.works|
    requires forall w :: 0 <= w < |e.works| ==> Runs(e, w)
    ensures ActiveListed(e)
  {
    forall w | 0 <= w < |e.works| ensures w in e.activeWork <==> R.Flying(e.sched.inFlight, e.works[w].message) == 1 {
      assert Runs(e, w);
    }
  }

  lemma WaitingDoesNotRun(e: Executor, w: nat)
    requires WorksSound(e) && w < |e.works| && R.Waiting(e.sched, e.works[w].message) > 0
    ensures R.Flying(e.sched.inFlight, e.works[w].message) == 0
  {
    assert WorkSound(e, w);
  }

  /** Closing empties the queues, so a pump that is still running finds nothing to start. */
  lemma ClosedStartsNothing(e: Executor, limits: Counts)
    requires CursorsInRange(e.sched) && CountsAll(e.activeByClass) && ValidLimits(limits)
    requires e.closedReason.Some? ==> AllQueued(e.sched) == []
    ensures e.closedReason.Some? ==> NextStart(e, limits).None?
  {
    if e.closedReason.Some? {
      NothingQueuedIn(e.sched);
    }
  }

  lemma NothingQueuedIn(s: State<nat>)
    requires AllQueued(s) == []
    ensures forall c :: Queued(s, c) == []
  {
    assert |s.safety| + |Flatten(s.authority)| + |s.liveness| + |s.diagnostic| == 0;
  }

  lemma PumpStepSound(e: Executor, limits: Counts, token: CompletionToken)
    requires Sound(e, limits) && e.pumping && !IsLive(e.sched, token)
    ensures CountsAll(e.activeByClass) && Sound(PumpStep(e, limits, token), limits)
  {
    AllCounted(e, limits);
    ClosedStartsNothing(e, limits);
    var after := PumpStep(e, limits, token);
    if NextStart(e, limits).None? {
      NothingToStart(e, limits);
      SameHoldings(e, after);
      SameCounts(e, after, limits);
      forall c: MessageClass ensures !Startable(after, limits, c) {
        assert !Startable(e, limits, c);
      }
    } else {
      DequeueInv(e.sched, Some(Below(e.activeByClass, limits)), token);
      StartHolds(e, limits, token);
      StartCounted(e, limits, token);
      StartListed(e, limits, token);
      forall w | 0 <= w < |e.works| ensures WorkSound(after, w) {
        StartWork(e, limits, token, w);
      }
      assert WorksSound(after);
    }
  }

  // ---------- Finishing ----------

  lemma FinishSched(e: Executor, token: CompletionToken, failed: bool)
    requires IsLive(e.sched, token) && CountsAll(e.activeByClass)
    ensures var (m, after) := (MessageFor(e.sched, token), Finish(e, token, failed));
            && after.sched == Complete(e.sched, token) && |after.works| == |e.works|
            && after.activeByClass == e.activeByClass[m.messageClass := e.activeByClass[m.messageClass] - 1]
            && after.activeWork == e.activeWork - {m.payload}
            && after.generation == e.generation && after.closedReason == e.closedReason && after.pumping == e.pumping
            && after.pumpScheduled == (e.pumpScheduled || e.closedReason.None?)
            && forall w :: 0 <= w < |e.works| ==>
                 after.works[w] == if w == m.payload then Finished(e.works[w], e.generation, failed) else e.works[w]
  {
  }

  lemma FinishConserves(s: State<nat>, token: CompletionToken, x: Message<nat>)
    requires WellFormed(s) && IsLive(s, token)
    ensures var (m, after) := (MessageFor(s, token), Complete(s, token));
            && R.Waiting(after, x) == R.Waiting(s, x)
            && R.Flying(after.inFlight, x) == R.Flying(s.inFlight, x) - RoundRobin.Bit(x == m)
  {
    R.CompleteConserves(s, token, x);
    ReleasedMoves(s, MessageFor(s, token), Complete(s, token), x);
  }

  lemma ReleasedMoves(s: State<nat>, m: Message<nat>, after: State<nat>, x: Message<nat>)
    requires R.Conserves(s, R.Released(m), after, x)
    ensures R.Waiting(after, x) == R.Waiting(s, x)
    ensures R.Flying(after.inFlight, x) == R.Flying(s.inFlight, x) - RoundRobin.Bit(x == m)
  {
  }

  lemma FinishWork(e: Executor, token: CompletionToken, failed: bool, w: nat)
    requires WellFormed(e.sched) && IsLive(e.sched, token) && CountsAll(e.activeByClass)
    requires WorksSound(e) && HoldsOnlySubmitted(e) && w < |e.works|
    ensures WorkSound(Finish(e, token, failed), w)
  {
    var m := MessageFor(e.sched, token);
    FinishSched(e, token, failed);
    FinishConserves(e.sched, token, m);
    FinishConserves(e.sched, token, e.works[w].message);
    HeldIsItsWork(e, m);
    assert WorkSound(e, w);
  }

  lemma FinishHolds(e: Executor, token: CompletionToken, failed: bool)
    requires WellFormed(e.sched) && IsLive(e.sched, token) && CountsAll(e.activeByClass) && HoldsOnlySubmitted(e)
    ensures HoldsOnlySubmitted(Finish(e, token, failed))
  {
    var after := Finish(e, token, failed);
    FinishSched(e, token, failed);
    forall x ensures Submitted(after, x) {
      assert Submitted(e, x);
      FinishConserves(e.sched, token, x);
    }
  }

  lemma FinishCounted(e: Executor, limits: Counts, token: CompletionToken, failed: bool)
    requires WellFormed(e.sched) && IsLive(e.sched, token) && CountsAll(e.activeByClass) && ClassesCounted(e, limits)
    ensures ClassesCounted(Finish(e, token, failed), limits)
  {
    var m, after := MessageFor(e.sched, token), Finish(e, token, failed);
    FinishSched(e, token, failed);
    PM.CompleteKeepsClassQueues(e.sched, token);
    forall c: MessageClass ensures ClassCounted(after, limits, c) {
      assert ClassCounted(e, limits, c);
      SelectRemove(e.sched.inFlight, TokenIndex(e.sched.inFlight, token), OfClass(c));
    }
  }

  lemma FinishListed(e: Executor, token: CompletionToken, failed: bool)
    requires WellFormed(e.sched) && IsLive(e.sched, token) && CountsAll(e.activeByClass)
    requires ActiveListed(e) && HoldsOnlySubmitted(e) && WorksSound(e)
    ensures ActiveListed(Finish(e, token, failed))
  {
    var m, after := MessageFor(e.sched, token), Finish(e, token, failed);
    FinishSched(e, token, failed);
    FinishConserves(e.sched, token, m);
    HeldIsItsWork(e, m);
    forall w | 0 <= w < |e.works| ensures w in after.activeWork <==> R.Flying(after.sched.inFlight, after.works[w].message) == 1 {
      FinishConserves(e.sched, token, e.works[w].message);
      assert WorkSound(e, w) && WorkSound(e, m.payload);
    }
  }

  lemma FinishSound(e: Executor, limits: Counts, token: CompletionToken, failed: bool)
    requires Sound(e, limits) && IsLive(e.sched, token)
    ensures CountsAll(e.activeByClass) && Sound(Finish(e, token, failed), limits)
  {
    AllCounted(e, limits);
    var after := Finish(e, token, failed);
    FinishSched(e, token, failed);
    CompleteInv(e.sched, token);
    FinishHolds(e, token, failed);
    FinishCounted(e, limits, token, failed);
    FinishListed(e, token, failed);
    R.CompleteKeepsQueues(e.sched, token);
    forall w | 0 <= w < |e.works| ensures WorkSound(after, w) {
      FinishWork(e, token, failed, w);
    }
    assert WorksSound(after);
  }

  // ---------- Closing ----------

  lemma NoneQueued(s: State<nat>, x: Message<nat>)
    requires AllQueued(s) == []
    ensures R.Waiting(s, x) == 0
  {
    R.WaitingIsCount(s, x);
  }

  lemma CancelEmpties(s: State<nat>)
    ensures AllQueued(CancelQueued(s)) == [] && CancelQueued(s).inFlight == s.inFlight
  {
    DrainedIsEmpty(s.authority, s.inFlight);
  }

  lemma CancelMoves(s: State<nat>, x: Message<nat>)
    ensures R.Waiting(CancelQueued(s), x) == 0 && CancelQueued(s).inFlight == s.inFlight
  {
    CancelEmpties(s);
    NoneQueued(CancelQueued(s), x);
  }

  // The works of the cancelled messages are dropped, the others are left alone.
  lemma {:induction false} DropAllAt(works: seq<Work>, cancelled: seq<Message<nat>>, outcome: Outcome, w: nat)
    requires w < |works|
    ensures DropAll(works, cancelled, outcome)[w]
         == if exists i :: 0 <= i < |cancelled| && cancelled[i].payload == w then Drop(works[w], outcome) else works[w]
    decreases |cancelled|
  {
    if cancelled != [] {
      var v, rest := cancelled[0].payload, cancelled[1..];
      var next := if v < |works| then works[v := Drop(works[v], outcome)] else works;
      DropAllAt(next, rest, outcome, w);
      assert Drop(Drop(works[w], outcome), outcome) == Drop(works[w], outcome);
      assert forall i :: 0 <= i < |rest| ==> rest[i] == cancelled[i + 1];
      assert (exists i :: 0 <= i < |cancelled| && cancelled[i].payload == w)
        <==> v == w || exists i :: 0 <= i < |rest| && rest[i].payload == w by {
        if v == w {
          assert cancelled[0].payload == w;
        }
        if exists i :: 0 <= i < |rest| && rest[i].payload == w {
          var i :| 0 <= i < |rest| && rest[i].payload == w;
          assert cancelled[i + 1].payload == w;
        }
        if exists i :: 0 <= i < |cancelled| && cancelled[i].payload == w {
          var i :| 0 <= i < |cancelled| && cancelled[i].payload == w;
          assert i > 0 ==> rest[i - 1].payload == w;
        }
      }
    }
  }

  lemma {:induction false} CountZero(ms: seq<Message<nat>>, m: Message<nat>)
    requires R.Count(ms, m) == 0
    ensures m !in ms
  {
    if ms != [] {
      CountZero(ms[1..], m);
    }
  }

  lemma CountMember(ms: seq<Message<nat>>, m: Message<nat>)
    ensures R.Count(ms, m) > 0 <==> m in ms
  {
    if R.Count(ms, m) == 0 {
      CountZero(ms, m);
    }
    if m in ms {
      var i :| 0 <= i < |ms| && ms[i] == m;
      CountPositive(ms, i);
    }
    if R.Count(ms, m) > 0 {
      CountFound(ms, m);
    }
  }

  lemma {:induction false} CountFound(ms: seq<Message<nat>>, m: Message<nat>)
    requires R.Count(ms, m) > 0
    ensures m in ms
  {
    if ms[0] != m {
      CountFound(ms[1..], m);
    }
  }

  // A queued message names its work, so a work is cancelled exactly if its own message waits.
  lemma CancelledIffWaiting(e: Executor, w: nat)
    requires WorksSound(e) && HoldsOnlySubmitted(e) && w < |e.works|
    ensures (exists i :: 0 <= i < |AllQueued(e.sched)| && AllQueued(e.sched)[i].payload == w)
       <==> R.Waiting(e.sched, e.works[w].message) > 0
  {
    var all, m := AllQueued(e.sched), e.works[w].message;
    R.WaitingIsCount(e.sched, m);
    CountMember(all, m);
    assert WorkSound(e, w);
    if R.Waiting(e.sched, m) > 0 {
      var i :| 0 <= i < |all| && all[i] == m;
      assert all[i].payload == w;
    }
    forall i | 0 <= i < |all| && all[i].payload == w ensures R.Waiting(e.sched, m) > 0 {
      CountPositive(all, i);
      R.WaitingIsCount(e.sched, all[i]);
      HeldIsItsWork(e, all[i]);
    }
  }

  lemma CloseSched(e: Executor, reason: string)
    requires e.closedReason.None?
    ensures var after := Close(e, reason);
            && after.sched == CancelQueued(e.sched) && |after.works| == |e.works|
            && after.activeByClass == e.activeByClass && after.activeWork == e.activeWork
            && after.generation == e.generation + 1 && after.closedReason == Some(reason) && after.pumping == e.pumping
  {
  }

  lemma CloseWorkIs(e: Executor, reason: string, w: nat)
    requires e.closedReason.None? && WorksSound(e) && HoldsOnlySubmitted(e) && ActiveListed(e) && w < |e.works|
    ensures var (work, after) := (e.works[w], Close(e, reason).works[w]);
            && after.message == work.message
            && after == if R.Waiting(e.sched, work.message) > 0 then Drop(work, WasClosed(reason))
                        else if R.Flying(e.sched.inFlight, work.message) > 0 then Settle(work, WasClosed(reason))
                        else work
  {
    assert WorkSound(e, w);
    CancelledIffWaiting(e, w);
    DropAllAt(e.works, AllQueued(e.sched), WasClosed(reason), w);
  }

  lemma CloseWork(e: Executor, reason: string, w: nat)
    requires e.closedReason.None? && WorksSound(e) && HoldsOnlySubmitted(e) && ActiveListed(e) && w < |e.works|
    ensures WorkSound(Close(e, reason), w)
  {
    CloseSched(e, reason);
    CloseWorkIs(e, reason, w);
    CancelMoves(e.sched, e.works[w].message);
    assert WorkSound(e, w);
  }

  lemma CloseSound(e: Executor, limits: Counts, reason: string)
    requires Sound(e, limits)
    ensures Sound(Close(e, reason), limits)
  {
    if e.closedReason.None? {
      var after := Close(e, reason);
      CloseSched(e, reason);
      CancelInv(e.sched);
      forall w | 0 <= w < |e.works| ensures WorkSound(after, w) {
        CloseWork(e, reason, w);
      }
      CloseHolds(e, reason);
      CloseCounted(e, limits, reason);
      CancelEmpties(e.sched);
      assert WorksSound(after);
    }
  }

  lemma CloseHolds(e: Executor, reason: string)
    requires e.closedReason.None? && WorksSound(e) && HoldsOnlySubmitted(e) && ActiveListed(e)
    ensures HoldsOnlySubmitted(Close(e, reason))
  {
    var after := Close(e, reason);
    CloseSched(e, reason);
    forall x ensures Submitted(after, x) {
      assert Submitted(e, x);
      CancelMoves(e.sched, x);
      if R.Flying(e.sched.inFlight, x) > 0 {
        CloseWorkIs(e, reason, x.payload);
      }
    }
  }

  lemma CloseCounted(e: Executor, limits: Counts, reason: string)
    requires e.closedReason.None? && WorksSound(e) && HoldsOnlySubmitted(e)
    requires ClassesCounted(e, limits) && ActiveListed(e)
    ensures ClassesCounted(Close(e, reason), limits) && ActiveListed(Close(e, reason))
  {
    var after := Close(e, reason);
    CloseSched(e, reason);
    forall c: MessageClass ensures ClassCounted(after, limits, c) {
      assert ClassCounted(e, limits, c);
    }
    forall w | 0 <= w < |e.works| ensures w in after.activeWork <==> R.Flying(after.sched.inFlight, after.works[w].message) == 1 {
      CloseWorkIs(e, reason, w);
    }
  }
}
