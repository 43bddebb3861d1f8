/**
 * The admission executor as the program runs it: one scheduler, the counters and flags
 * around it, and loops where the program loops. Every method is tied to ExecutorModel.
 * Executions are the environment: one that settles calls Finish.
 */
module AdmissionExecution {
  import opened Options
  import opened Admission
  import opened SchedulerModel
  import opened ExecutorModel
  import opened ExecutorSteps
  import opened Submissions
  import S = Scheduler
  import R = SchedulerRuns
  import Runs = ExecutorRuns
  import RoundRobin

  lemma NextStartIs(e: Executor, limits: Counts)
    requires CursorsInRange(e.sched) && CountsAll(e.activeByClass) && ValidLimits(limits)
    ensures var allowed := Below(e.activeByClass, limits);
            NextStart(e, limits) == if allowed == [] then None else Delivery(e.sched, Some(allowed))
    ensures NextStart(e, limits).None? ==> forall token :: PumpStep(e, limits, token) == e.(pumping := false)
  {
  }

  lemma PumpStepIs(e: Executor, limits: Counts, m: Message<nat>, token: CompletionToken)
    requires CursorsInRange(e.sched) && CountsAll(e.activeByClass) && ValidLimits(limits) && NextStart(e, limits) == Some(m)
    ensures PumpStep(e, limits, token)
         == Marked(e.(sched := Dequeue(e.sched, Some(Below(e.activeByClass, limits)), token)), m)
  {
  }

  lemma FinishIs(e: Executor, token: CompletionToken, failed: bool)
    requires IsLive(e.sched, token) && CountsAll(e.activeByClass)
    ensures var m := MessageFor(e.sched, token);
            var released := ExecutorModel.SchedulePump(Unmarked(e.(sched := Complete(e.sched, token)), m));
            ExecutorModel.Finish(e, token, failed)
            == if m.payload < |released.works| then OnWork(released, m.payload, Finished(released.works[m.payload], released.generation, failed))
               else released
  {
  }

  lemma RoundAppended(e: Executor, limits: Counts, rounds: seq<Runs.Op>, token: CompletionToken)
    requires Sound(e, limits) && Runs.LegalRun(e, limits, rounds)
    requires Runs.Enabled(Runs.After(e, limits, rounds), Runs.PumpStepOp(token))
    requires forall i :: 0 <= i < |rounds| ==> rounds[i].PumpStepOp?
    ensures var (before, op) := (Runs.After(e, limits, rounds), Runs.PumpStepOp(token));
            var longer := rounds + [op];
            && Runs.LegalRun(e, limits, longer) && Runs.After(e, limits, longer) == Runs.Step(before, limits, op)
            && (forall i :: 0 <= i < |longer| ==> longer[i].PumpStepOp?)
  {
    Runs.RunAppend(e, limits, rounds, Runs.PumpStepOp(token));
  }

  // A round takes one free slot if it starts something, and none otherwise.
  lemma RoundTakesSlot(before: Executor, limits: Counts, op: Runs.Op, after: Executor)
    requires Sound(before, limits) && Runs.Enabled(before, op) && op.PumpStepOp? && after == Runs.Step(before, limits, op)
    ensures CountsAll(before.activeByClass) && CountsAll(after.activeByClass)
    ensures 0 <= Runs.FreeSlots(after.activeByClass, limits)
              == Runs.FreeSlots(before.activeByClass, limits) - RoundRobin.Bit(Runs.Starts(before, limits, op))
  {
    Runs.FreeSlotsTaken(before, limits, op);
    Runs.FreeSlotsNonNegative(after, limits);
  }

  class AdmissionExecutor {
    const scheduler: S.AdmissionScheduler<nat>
    const executionLimits: Counts
    var works: seq<Work>
    var activeByClass: Counts
    var activeWork: set<nat>
    var pumpScheduled: bool
    var admissionGeneration: nat
    var closedReason: Option<string>
    // Whether control is inside the pump loop.
    ghost var pumping: bool

    ghost function Abs(): Executor
      reads this, scheduler
    {
      Executor(scheduler.Abs(), works, activeByClass, activeWork, pumpScheduled, pumping, admissionGeneration, closedReason)
    }

    ghost predicate Valid()
      reads this, scheduler
    {
      scheduler.Valid() && Sound(Abs(), executionLimits)
    }

    constructor (limits: Counts)
      requires ValidLimits(limits)
      ensures Valid() && executionLimits == limits
      ensures Runs.IsNew(Abs()) && fresh(scheduler)
    {
      scheduler := new S.AdmissionScheduler<nat>();
      executionLimits := limits;
      works, activeWork := [], {};
      activeByClass := map[Authority := 0, Diagnostic := 0, Liveness := 0, Safety := 0];
      pumpScheduled, admissionGeneration, closedReason := false, 0, None;
      pumping := false;
      new;
      forall c: MessageClass ensures c in activeByClass && activeByClass[c] == 0 {
        match c
        case Safety =>
        case Authority =>
        case Liveness =>
        case Diagnostic =>
      }
      Runs.NewIsSound(Abs(), limits);
    }

    method SchedulePump()
      requires scheduler.Valid()
      modifies this
      ensures scheduler.Valid() && Abs() == ExecutorModel.SchedulePump(old(Abs()))
    {
      if pumpScheduled || closedReason.Some? {
        return;
      }
      pumpScheduled := true;
    }

    /** Accepts, replaces or turns away a request, and calls for a pump if something was queued. */
    method Submit(request: Message<nat>) returns (r: Submission)
      requires Valid()
      modifies this, scheduler
      ensures Valid()
      ensures r == Reported(old(Abs()), request) && IsReport(old(Abs()), request, r)
      ensures Abs() == ExecutorModel.Submit(old(Abs()), request) && IsSubmission(old(Abs()), request, Abs())
    {
      ghost var before := Abs();
      r := SubmitTo(request);
      SubmitSound(before, executionLimits, request);
      SubmitMeans(before, executionLimits, request);
      ReportIff(before, request, r);
    }

    method SubmitTo(request: Message<nat>) returns (r: Submission)
      requires scheduler.Valid()
      modifies this, scheduler
      ensures scheduler.Valid()
      ensures r == Reported(old(Abs()), request)
      ensures Abs() == ExecutorModel.Submit(old(Abs()), request)
    {
      var message := request.(payload := |works|);
      if closedReason.Some? {
        works := works + [Work(message, admissionGeneration, false, [WasClosed(closedReason.value)], 1)];
        return AlreadyClosed(closedReason.value);
      }
      var result := scheduler.Enqueue(message);
      if result.Accepts() {
        if result.Replaced? && result.replacedMessage.payload < |works| {
          works := works[result.replacedMessage.payload := ExecutorModel.Drop(works[result.replacedMessage.payload], WasReplaced)];
        }
        works := works + [Work(message, admissionGeneration, false, [], 0)];
        SchedulePump();
        r := if result.Admitted? then Taken else TookPlace;
      } else {
        works := works + [Work(message, admissionGeneration, false, [NotAdmitted(result)], 1)];
        r := TurnedAway(result);
      }
    }

    /** The scheduled callback: pumps until nothing more can be started. */
    method RunScheduledPump() returns (ghost rounds: seq<Runs.Op>)
      requires Valid() && pumpScheduled && !pumping
      modifies this, scheduler
      ensures Valid() && !pumping
      ensures Sound(PumpStart(old(Abs())), executionLimits)
      ensures Runs.LegalRun(PumpStart(old(Abs())), executionLimits, rounds)
      ensures forall i :: 0 <= i < |rounds| ==> rounds[i].PumpStepOp?
      ensures Abs() == Runs.After(PumpStart(old(Abs())), executionLimits, rounds)
    {
      PumpStartSound(Abs(), executionLimits);
      pumpScheduled := false;
      pumping := closedReason.None?;
      rounds := Pump();
    }

    // Every round but the last takes one of the free execution slots.
    method Pump() returns (ghost rounds: seq<Runs.Op>)
      requires Valid() && pumping == closedReason.None?
      modifies this, scheduler
      ensures Valid() && !pumping
      ensures Runs.LegalRun(old(Abs()), executionLimits, rounds)
      ensures forall i :: 0 <= i < |rounds| ==> rounds[i].PumpStepOp?
      ensures Abs() == Runs.After(old(Abs()), executionLimits, rounds)
    {
      rounds := [];
      var more := closedReason.None?;
      Runs.FreeSlotsNonNegative(Abs(), executionLimits);
      while more
        invariant Valid() && more == pumping
        invariant Runs.LegalRun(old(Abs()), executionLimits, rounds)
        invariant forall i :: 0 <= i < |rounds| ==> rounds[i].PumpStepOp?
        invariant Abs() == Runs.After(old(Abs()), executionLimits, rounds)
        invariant CountsAll(activeByClass) && Runs.FreeSlots(activeByClass, executionLimits) >= 0
        decreases Runs.FreeSlots(activeByClass, executionLimits), more
      {
        ghost var before := Abs();
        ghost var token;
        more, token := PumpRound();
        RoundAppended(old(Abs()), executionLimits, rounds, token);
        RoundTakesSlot(before, executionLimits, Runs.PumpStepOp(token), Abs());
        rounds := rounds + [Runs.PumpStepOp(token)];
      }
    }

    /** One round of the pump: starts the next allowed message, or ends the pump. */
    method PumpRound() returns (more: bool, ghost token: CompletionToken)
      requires Valid() && pumping
      modifies this, scheduler
      ensures Valid() && more == pumping
      ensures !IsLive(old(Abs()).sched, token)
      ensures Runs.Starts(old(Abs()), executionLimits, Runs.PumpStepOp(token)) == more
      ensures Abs() == Runs.Step(old(Abs()), executionLimits, Runs.PumpStepOp(token))
    {
      ghost var before := Abs();
      AllCounted(before, executionLimits);
      more, token := StartNext();
      PumpStepSound(before, executionLimits, token);
    }

    // A round that starts nothing still is a step of the model, which names an unused token.
    method StartNext() returns (more: bool, ghost token: CompletionToken)
      requires scheduler.Valid() && pumping && CountsAll(activeByClass) && ValidLimits(executionLimits)
      modifies this, scheduler
      ensures scheduler.Valid() && more == pumping
      ensures CursorsInRange(old(Abs()).sched) && !IsLive(old(Abs()).sched, token)
      ensures more == NextStart(old(Abs()), executionLimits).Some?
      ensures Abs() == PumpStep(old(Abs()), executionLimits, token)
    {
      ghost var before := Abs();
      NextStartIs(before, executionLimits);
      var allowed := Below(activeByClass, executionLimits);
      var work := DequeueAllowed(allowed);
      if work.None? {
        var unused := new CompletionToken();
        pumping := false;
        return false, unused;
      }
      PumpStepIs(before, executionLimits, work.value.message, work.value.completionToken);
      MarkActive(work.value.message);
      return true, work.value.completionToken;
    }

    method DequeueAllowed(allowed: seq<MessageClass>) returns (work: Option<S.Work<nat>>)
      requires scheduler.Valid()
      modifies scheduler
      ensures scheduler.Valid() && CursorsInRange(old(scheduler.Abs()))
      ensures work.None? ==>
                && scheduler.Abs() == old(scheduler.Abs())
                && (allowed == [] || Delivery(old(scheduler.Abs()), Some(allowed)).None?)
      ensures work.Some? ==>
                && !IsLive(old(scheduler.Abs()), work.value.completionToken) && allowed != []
                && Delivery(old(scheduler.Abs()), Some(allowed)) == Some(work.value.message)
                && scheduler.Abs() == SchedulerModel.Dequeue(old(scheduler.Abs()), Some(allowed), work.value.completionToken)
    {
      if allowed == [] {
        return None;
      }
      NoDelivery(scheduler.Abs(), Some(allowed));
      work := scheduler.Dequeue(Some(allowed));
    }

    method MarkActive(message: Message<nat>)
      requires scheduler.Valid() && CountsAll(activeByClass)
      modifies this
      ensures scheduler.Valid() && pumping == old(pumping)
      ensures CountsAll(old(activeByClass)) && Abs() == Marked(old(Abs()), message)
    {
      activeByClass := activeByClass[message.messageClass := activeByClass[message.messageClass] + 1];
      activeWork := activeWork + {message.payload};
    }

    /** An execution has settled: releases its capacity, then settles its completion. */
    method Finish(token: CompletionToken, failed: bool)
      requires Valid() && IsLive(Abs().sched, token)
      modifies this, scheduler
      ensures Valid()
      ensures CountsAll(old(Abs()).activeByClass) && Abs() == ExecutorModel.Finish(old(Abs()), token, failed)
    {
      ghost var before := Abs();
      AllCounted(before, executionLimits);
      var message := scheduler.inFlightMessages[TokenIndex(scheduler.inFlightMessages, token)].message;
      FinishRun(token, message, failed);
      FinishSound(before, executionLimits, token, failed);
    }

    method FinishRun(token: CompletionToken, message: Message<nat>, failed: bool)
      requires scheduler.Valid() && IsLive(Abs().sched, token) && CountsAll(activeByClass) && message == MessageFor(Abs().sched, token)
      modifies this, scheduler
      ensures scheduler.Valid()
      ensures Abs() == ExecutorModel.Finish(old(Abs()), token, failed)
    {
      ghost var before := Abs();
      var _ := scheduler.Complete(token);
      MarkInactive(message);
      SchedulePump();
      SettleFinished(message.payload, failed);
      FinishIs(before, token, failed);
    }

    method MarkInactive(message: Message<nat>)
      requires scheduler.Valid() && CountsAll(activeByClass)
      modifies this
      ensures scheduler.Valid()
      ensures CountsAll(old(activeByClass)) && Abs() == Unmarked(old(Abs()), message)
    {
      activeByClass := activeByClass[message.messageClass := activeByClass[message.messageClass] - 1];
      activeWork := activeWork - {message.payload};
    }

    // Cleans the finished work up and settles its completion, unless closing did so before.
    method SettleFinished(w: nat, failed: bool)
      requires scheduler.Valid()
      modifies this
      ensures scheduler.Valid()
      ensures Abs() == if w < |old(Abs()).works| then OnWork(old(Abs()), w, Finished(old(Abs()).works[w], old(Abs()).generation, failed))
                       else old(Abs())
    {
      if w < |works| {
        var work := Clean(works[w]);
        if !work.settled && work.generation == admissionGeneration {
          work := Settle(work, if failed then Failed else Executed);
        }
        works := works[w := work];
      }
    }

    /** Cancels what is queued and settles what runs; nothing is taken on afterwards. */
    method Close(reason: string)
      requires Valid()
      modifies this, scheduler
      ensures Valid()
      ensures Abs() == ExecutorModel.Close(old(Abs()), reason)
    {
      ghost var before := Abs();
      CloseWith(reason);
      CloseSound(before, executionLimits, reason);
    }

    method CloseWith(reason: string)
      requires scheduler.Valid()
      modifies this, scheduler
      ensures scheduler.Valid()
      ensures Abs() == ExecutorModel.Close(old(Abs()), reason)
    {
      if closedReason.Some? {
        return;
      }
      closedReason := Some(reason);
      admissionGeneration := admissionGeneration + 1;
      var cancelled := scheduler.CancelQueued();
      var settled := DropEach(works, cancelled, WasClosed(reason));
      works := SettleEach(settled, activeWork, WasClosed(reason));
    }

    static method DropEach(works: seq<Work>, cancelled: seq<Message<nat>>, outcome: Outcome) returns (after: seq<Work>)
      ensures after == DropAll(works, cancelled, outcome)
    {
      after := works;
      for i := 0 to |cancelled|
        invariant DropAll(after, cancelled[i..], outcome) == DropAll(works, cancelled, outcome)
      {
        var w := cancelled[i].payload;
        assert cancelled[i..][0] == cancelled[i] && cancelled[i..][1..] == cancelled[i + 1..];
        if w < |after| {
          after := after[w := ExecutorModel.Drop(after[w], outcome)];
        }
      }
    }

    static method SettleEach(works: seq<Work>, active: set<nat>, outcome: Outcome) returns (after: seq<Work>)
      ensures after == SettleActive(works, active, outcome)
    {
      after := works;
      var left := active;
      while left != {}
        invariant left <= active && |after| == |works|
        invariant forall w :: 0 <= w < |works| ==> after[w] == if w in active - left then Settle(works[w], outcome) else works[w]
        decreases left
      {
        var w :| w in left;
        if w < |after| {
          after := after[w := Settle(after[w], outcome)];
        }
        left := left - {w};
      }
    }
  }

  lemma NoDelivery(s: State<nat>, allowed: Option<seq<MessageClass>>)
    requires CursorsInRange(s)
    ensures Delivery(s, allowed).None? <==> forall c :: !Ready(s, allowed, c)
  {
    if Delivery(s, allowed).None? {
      forall c ensures !Ready(s, allowed, c) {
        assert !ServiceBacklog(s, allowed)[FirstSlot(c)];
      }
    }
  }
}
