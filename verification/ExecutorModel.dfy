/**
 * The admission executor as a state machine. Work is submitted, waits in the scheduler, is
 * started by a pump that takes one message at a time, and finishes when its execution
 * settles; closing cancels what waits and settles what runs. Every piece of work carries
 * the list of outcomes its completion was given and the number of times it was cleaned up.
 */
module ExecutorModel {
  import opened Options
  import opened Admission
  import opened SchedulerModel
  import R = SchedulerRuns

  datatype Outcome =
    | Executed
    | Failed
    | WasReplaced
    | WasClosed(reason: string)
    | NotAdmitted(verdict: AdmissionResult<nat>)

  // One submission. Its message carries the number of the submission as payload.
  datatype Work = Work(message: Message<nat>, generation: nat, settled: bool, outcomes: seq<Outcome>, cleanups: nat)

  type Counts = map<MessageClass, int>

  datatype Executor = Executor(
    sched: State<nat>,
    works: seq<Work>,
    activeByClass: Counts,
    activeWork: set<nat>,
    pumpScheduled: bool,
    pumping: bool,
    generation: nat,
    closedReason: Option<string>)

  const CLASSES: seq<MessageClass> := [Authority, Diagnostic, Liveness, Safety]

  // Every class has a positive execution limit.
  ghost predicate ValidLimits(limits: Counts) { forall c: MessageClass :: c in limits && limits[c] > 0 }

  ghost predicate CountsAll(counts: Counts) { forall c: MessageClass :: c in counts }

  function Below(counts: Counts, limits: Counts, from: nat := 0): (allowed: seq<MessageClass>)
    requires from <= |CLASSES|
    requires forall c: MessageClass :: c in counts && c in limits
    ensures forall c :: c in allowed <==> counts[c] < limits[c] && exists i :: from <= i < |CLASSES| && CLASSES[i] == c
    decreases |CLASSES| - from
  {
    if from == |CLASSES| then []
    else if counts[CLASSES[from]] < limits[CLASSES[from]] then [CLASSES[from]] + Below(counts, limits, from + 1)
    else Below(counts, limits, from + 1)
  }

  lemma BelowAll(counts: Counts, limits: Counts, c: MessageClass)
    requires CountsAll(counts) && ValidLimits(limits)
    ensures c in Below(counts, limits) <==> counts[c] < limits[c]
  {
    assert CLASSES[match c case Authority => 0 case Diagnostic => 1 case Liveness => 2 case Safety => 3] == c;
  }

  // ---------- Works ----------

  function Settle(work: Work, outcome: Outcome): Work {
    if work.settled then work else work.(settled := true, outcomes := work.outcomes + [outcome])
  }

  function Clean(work: Work): Work { work.(cleanups := work.cleanups + 1) }

  // Work that leaves the queue without being started.
  function Drop(work: Work, outcome: Outcome): Work {
    if work.settled then work else Clean(Settle(work, outcome))
  }

  // ---------- Steps ----------

  function SchedulePump(e: Executor): Executor {
    if e.pumpScheduled || e.closedReason.Some? then e else e.(pumpScheduled := true)
  }

  // The message a request becomes.
  function Numbered(e: Executor, request: Message<nat>): Message<nat> { request.(payload := |e.works|) }

  function WithWork(e: Executor, work: Work): Executor { e.(works := e.works + [work]) }

  function Submit(e: Executor, request: Message<nat>): Executor {
    var m := Numbered(e, request);
    if e.closedReason.Some? then WithWork(e, Work(m, e.generation, false, [WasClosed(e.closedReason.value)], 1))
    else
      var verdict := Decide(e.sched, m);
      if verdict.Accepts() then
        SchedulePump(WithWork(Replace(e, verdict).(sched := Enqueue(e.sched, m)), Work(m, e.generation, false, [], 0)))
      else WithWork(e, Work(m, e.generation, false, [NotAdmitted(verdict)], 1))
  }

  // A message that takes the place of a queued one settles the work of that one.
  function Replace(e: Executor, verdict: AdmissionResult<nat>): Executor {
    if verdict.Replaced? && verdict.replacedMessage.payload < |e.works|
    then OnWork(e, verdict.replacedMessage.payload, Drop(e.works[verdict.replacedMessage.payload], WasReplaced))
    else e
  }

  function OnWork(e: Executor, w: nat, work: Work): Executor
    requires w < |e.works|
  {
    e.(works := e.works[w := work])
  }

  // The pump is entered; it does nothing once the executor is closed.
  function PumpStart(e: Executor): Executor {
    e.(pumpScheduled := false, pumping := e.closedReason.None?)
  }

  // What the pump may start next.
  function NextStart(e: Executor, limits: Counts): Option<Message<nat>>
    requires CursorsInRange(e.sched) && CountsAll(e.activeByClass) && ValidLimits(limits)
  {
    var allowed := Below(e.activeByClass, limits);
    if allowed == [] then None else Delivery(e.sched, Some(allowed))
  }

  // One round of the pump: start one message, or leave the pump.
  function PumpStep(e: Executor, limits: Counts, token: CompletionToken): Executor
    requires CursorsInRange(e.sched) && CountsAll(e.activeByClass) && ValidLimits(limits)
  {
    var m := NextStart(e, limits);
    if m.None? then e.(pumping := false)
    else Marked(e.(sched := Dequeue(e.sched, Some(Below(e.activeByClass, limits)), token)), m.value)
  }

  function Marked(e: Executor, m: Message<nat>): Executor
    requires CountsAll(e.activeByClass)
  {
    e.(activeByClass := e.activeByClass[m.messageClass := e.activeByClass[m.messageClass] + 1],
       activeWork := e.activeWork + {m.payload})
  }

  function Unmarked(e: Executor, m: Message<nat>): Executor
    requires CountsAll(e.activeByClass)
  {
    e.(activeByClass := e.activeByClass[m.messageClass := e.activeByClass[m.messageClass] - 1],
       activeWork := e.activeWork - {m.payload})
  }

  // An execution settles: its capacity is released before its completion is.
  function Finish(e: Executor, token: CompletionToken, failed: bool): Executor
    requires IsLive(e.sched, token) && CountsAll(e.activeByClass)
  {
    var m := MessageFor(e.sched, token);
    var released := SchedulePump(Unmarked(e.(sched := Complete(e.sched, token)), m));
    if m.payload < |e.works| then OnWork(released, m.payload, Finished(e.works[m.payload], e.generation, failed)) else released
  }

  function Finished(work: Work, generation: nat, failed: bool): Work {
    var clean := Clean(work);
    if work.settled || work.generation != generation then clean else Settle(clean, if failed then Failed else Executed)
  }

  // Settles the work of messages cancelled in the queue, one after the other.
  function DropAll(works: seq<Work>, cancelled: seq<Message<nat>>, outcome: Outcome): (after: seq<Work>)
    ensures |after| == |works|
    decreases |cancelled|
  {
    if cancelled == [] then works
    else
      var w := cancelled[0].payload;
      DropAll(if w < |works| then works[w := Drop(works[w], outcome)] else works, cancelled[1..], outcome)
  }

  function SettleActive(works: seq<Work>, active: set<nat>, outcome: Outcome): (after: seq<Work>)
    ensures |after| == |works|
    ensures forall w :: 0 <= w < |works| ==> after[w] == if w in active then Settle(works[w], outcome) else works[w]
  {
    seq(|works|, w requires 0 <= w < |works| => if w in active then Settle(works[w], outcome) else works[w])
  }

  function Close(e: Executor, reason: string): Executor {
    if e.closedReason.Some? then e
    else
      var dropped := DropAll(e.works, AllQueued(e.sched), WasClosed(reason));
      e.(closedReason := Some(reason), generation := e.generation + 1, sched := CancelQueued(e.sched),
         works := SettleActive(dropped, e.activeWork, WasClosed(reason)))
  }

  // ---------- The invariant ----------

  ghost predicate WorkSound(e: Executor, w: nat)
    requires w < |e.works|
  {
    var work := e.works[w];
    Accounted(work, w, R.Waiting(e.sched, work.message), R.Flying(e.sched.inFlight, work.message), e.generation, e.closedReason.Some?)
  }

  // What is true of one submission, given how often it waits and how often it runs.
  ghost predicate Accounted(work: Work, w: nat, waiting: nat, running: nat, generation: nat, closed: bool) {
    && work.message.payload == w
    && waiting + running <= 1
    && work.cleanups == 1 - waiting - running
    && |work.outcomes| == (if waiting == 1 || (running == 1 && !closed) then 0 else 1)
    && (waiting + running == 1 ==> work.settled == (work.outcomes != []))
    && (waiting + running == 1 && !work.settled ==> work.generation == generation)
  }

  ghost predicate WorksSound(e: Executor) {
    forall w :: 0 <= w < |e.works| ==> WorkSound(e, w)
  }

  // Whatever the scheduler holds was submitted.
  ghost predicate Submitted(e: Executor, m: Message<nat>) {
    R.Waiting(e.sched, m) + R.Flying(e.sched.inFlight, m) > 0 ==> m.payload < |e.works| && e.works[m.payload].message == m
  }

  ghost predicate HoldsOnlySubmitted(e: Executor) {
    forall m :: Submitted(e, m)
  }

  ghost predicate ClassCounted(e: Executor, limits: Counts, c: MessageClass) {
    c in e.activeByClass && c in limits && e.activeByClass[c] == |Select(e.sched.inFlight, OfClass(c))| <= limits[c]
  }

  // The counters are what the scheduler has in flight, class by class, and stay within the limits.
  ghost predicate ClassesCounted(e: Executor, limits: Counts) {
    forall c: MessageClass :: ClassCounted(e, limits, c)
  }

  // The active set lists exactly the work in flight.
  ghost predicate ActiveListed(e: Executor) {
    && (forall w :: w in e.activeWork ==> w < |e.works|)
    && (forall w :: 0 <= w < |e.works| ==> (w in e.activeWork <==> R.Flying(e.sched.inFlight, e.works[w].message) == 1))
  }

  // No wakeup is lost: startable work waits only while a pump is due or under way.
  ghost predicate PumpDue(e: Executor, limits: Counts) {
    e.closedReason.None? && !e.pumpScheduled && !e.pumping ==> forall c: MessageClass :: !Startable(e, limits, c)
  }

  ghost predicate Startable(e: Executor, limits: Counts, c: MessageClass) {
    c in e.activeByClass && c in limits && e.activeByClass[c] < limits[c] && Queued(e.sched, c) != []
  }

  ghost predicate Sound(e: Executor, limits: Counts) {
    && Inv(e.sched) && ValidLimits(limits)
    && WorksSound(e) && HoldsOnlySubmitted(e)
    && ClassesCounted(e, limits) && ActiveListed(e)
    && (e.closedReason.Some? ==> AllQueued(e.sched) == [])
    && PumpDue(e, limits)
  }
}
