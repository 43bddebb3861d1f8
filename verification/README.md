# Gateway-control admission, verified

This project models, in Dafny, the admission stack of the gateway control channel and a few
smaller algorithms around it, and proves what they promise.

**The scheduler** holds messages of four classes: safety (one queue), authority (one queue per
principal, served round-robin), liveness and diagnostic (the latest message per key). A cycle
of fifteen slots decides which class is served next; limits count what is queued and what is in
flight. `SchedulerModel.dfy` describes it without bookkeeping: every total is the sum of what is
held. `Scheduler.dfy` is the program's form, a class with running accounts, an order array, two
cursors and loops, each method proved to do what the description says. `SchedulerRuns.dfy` states
what holds over whole runs, and `RoundRobin.dfy` proves once what cyclic scanning guarantees; the
service cycle, the principal order and the zone order are three uses of it. `Verdicts.dfy` and
`ServiceOrder.dfy` say what each verdict and each delivery means, on fields and queues alone.

**Process admission** runs one scheduler per zone under a cap on what all zones hold outside the
safety class, and keeps an index of queued coalescible messages beside each scheduler.
`ProcessModel.dfy` states the caps on sums over the zones; `CoalescingIndex.dfy` shows that an
exact index predicts what an enqueue will change; `ProcessBooks.dfy` and `ZoneDrain.dfy` follow
the books through every step; `ProcessAdmission.dfy` is the class that keeps them, and
`ProcessRuns.dfy` and `ProcessFates.dfy` state what holds over whole runs; `ProcessVerdicts.dfy`
says what is answered, on plain facts about the zones.

**The executor** (`ExecutorModel.dfy`, `ExecutorSteps.dfy`, `ExecutorRuns.dfy`) is a state machine
whose steps are submitting, entering the pump, one round of the pump, the end of an execution,
and closing. Submitting and closing may fall between two rounds of a running pump, and an
execution may end at any time; as long as the scheduled callback is deferred, every interleaving
of the program is a run of the machine. `AdmissionExecutor.dfy` is the program's form, with its
pump loop, and `Submissions.dfy` says what a submission reports and leaves.

**Around it**: sequence continuity of a control session (`ControlSequence.dfy`), coalescing by key
(`LatestWins.dfy`), classification of control messages (`Classification.dfy`), the material of the
stable principal (`PrincipalMaterial.dfy`), the OAuth policy compiler (`OAuthPolicy.dfy`,
`OAuthReasons.dfy`, `CommandSet.dfy`), command paths, invocation matchers and tool selectors (`ConfiguredCli.dfy`,
`ToolSelectors.dfy`), the affected-package closure (`AffectedClosure.dfy`) and the JSONC comment
stripper (`JsoncComments.dfy`).

Four promises turn out to need a condition, and each is stated with the exact one. A package name
that is listed twice is not rejected, and the closure that is derived, or whether one is, can then
depend on the order of listing (`AffectedClosure`); the selector check reports an overlap where
there is none in one case (`ToolSelectors`), which is the conservative side; a binding published
without a principal would be classified and then fenced (`Classification`), which the message
schema excludes; and a lease renewal shares its key with a use heartbeat where the renewed lease's
ID spells out the other's lease and use (`Classification`).

A thrown error is a result value (`Completion`, `ProcessCompletion`, `Result`); results the
program can never return are shown to be unreachable rather than excluded by a precondition.
JavaScript numbers are unbounded integers; the one place where their range matters, the size of a
message, tests for it explicitly. Where a proof only passes a fact on, it is kept inside a named
predicate, which keeps verification short: `dafny verify dfyconfig.toml` checks the whole project.

## Model

| member | source | states |
|---|---|---|
| `RoundRobin.FairService` | packages/gateway-control-contracts/src/gateway-control-admission.ts:235-254 | Slots that stay available through as many turns as the ring has slots are each served, for every start and every pattern of the other slots. |
| `RoundRobin.ExactService` | packages/gateway-control-contracts/src/gateway-control-admission.ts:443-467 | If every slot stays available, one full circle serves each slot exactly once, wherever it starts. |
| `SchedulerModel.EnqueueInv` | packages/gateway-control-contracts/src/gateway-control-admission.ts:350-442 | Enqueueing any message, valid or not, keeps the whole invariant: limits per class and per principal, listing, distinct keys, cursors in range. |
| `SchedulerModel.DequeueInv` | packages/gateway-control-contracts/src/gateway-control-admission.ts:443-467 | Delivering under a new token keeps the whole invariant for any allowed classes. |
| `SchedulerModel.CompleteInv` | packages/gateway-control-contracts/src/gateway-control-admission.ts:312-349 | Completing any token keeps the whole invariant, including when the last holding of a principal goes and the order shrinks. |
| `SchedulerModel.CancelInv` | packages/gateway-control-contracts/src/gateway-control-admission.ts:275-311 | Cancelling everything queued keeps the whole invariant: principals with work in flight stay listed, the others go. |
| `SchedulerModel.ListedIffHolding` | packages/gateway-control-contracts/src/gateway-control-admission.ts:327-339 | In every invariant state a principal is in the order exactly while it holds something, queued or in flight, and only once. |
| `SchedulerModel.InsertHeld` | packages/gateway-control-contracts/src/gateway-control-admission.ts:404-435 | An accepted message changes the sum held by its class by its size less that of the message it replaces, and no other class. |
| `SchedulerModel.DequeueHeld` | packages/gateway-control-contracts/src/gateway-control-admission.ts:458-463 | Delivery leaves what every class holds unchanged: in-flight messages still count. |
| `SchedulerModel.CompleteHeld` | packages/gateway-control-contracts/src/gateway-control-admission.ts:317-348 | Completion takes exactly the delivered message out of what its class holds. |
| `SchedulerModel.AcceptedIffWithinLimits` | packages/gateway-control-contracts/src/gateway-control-admission.ts:350-442 | In every invariant state a message is accepted exactly if it is valid and leaves every class and every principal within its limits. |
| `Scheduler.AdmissionScheduler.Enqueue` | packages/gateway-control-contracts/src/gateway-control-admission.ts:350-442 | With running accounts instead of sums it decides and ends as the model does, the verdict is the one that its condition on fields and sums calls for, and all accounts still equal the sums they stand for. |
| `Scheduler.AdmissionScheduler.Dequeue` | packages/gateway-control-contracts/src/gateway-control-admission.ts:443-467 | Returns nothing exactly when no allowed class has anything queued; otherwise delivers the model's message under a fresh token. |
| `Scheduler.AdmissionScheduler.NextQueuedPrincipal` | packages/gateway-control-contracts/src/gateway-control-admission.ts:235-254 | The scan over the order array finds nothing exactly if no principal has anything queued, and else the round-robin successor. |
| `Scheduler.AdmissionScheduler.Complete` | packages/gateway-control-contracts/src/gateway-control-admission.ts:312-349 | Completes exactly the live tokens and reports the others; the branch "principal is not admitted" is never reached. |
| `Scheduler.AdmissionScheduler.CancelQueued` | packages/gateway-control-contracts/src/gateway-control-admission.ts:275-311 | Returns every queued message in the order safety, authority, liveness, diagnostic and leaves accounts that count only what is in flight. |
| `Scheduler.ReleaseAll` | packages/gateway-control-contracts/src/gateway-control-admission.ts:277-308 | Releasing a list of messages one by one takes their exact byte sum and number out of an account. |
| `Verdicts.VerdictIff` | packages/gateway-control-contracts/src/gateway-control-admission.ts:350-442 | Each of the nine verdicts is given exactly under its own condition on the message's fields and on what would be held once it were inserted; a replaced message is the one of that class queued under that key. |
| `Verdicts.InsertMeans` | packages/gateway-control-contracts/src/gateway-control-admission.ts:368-438 | Inserting touches the queue of the message's class only: safety and the principal's queue grow at the end, a new principal comes last, a known key keeps its place. |
| `Verdicts.HeldMeans` | packages/gateway-control-contracts/src/gateway-control-admission.ts:312-349 | What a class holds is the weight of its messages, queued or in flight. |
| `Verdicts.HeldByMeans` | packages/gateway-control-contracts/src/gateway-control-admission.ts:371-379 | What a principal holds is the weight of the authority messages that carry it, queued or in flight. |
| `ServiceOrder.ServesFirstInTurn` | packages/gateway-control-contracts/src/gateway-control-admission.ts:443-467 | A dequeue delivers exactly if some allowed class has work, and from the class whose turn in the cycle of 8, 4, 2 and 1 comes first; the turn passes behind it. |
| `ServiceOrder.UrgentFirst` | packages/gateway-control-contracts/src/gateway-control-admission.ts:129-145 | A scheduler at the start of its cycle delivers safety before authority, authority before liveness, and diagnostic last. |
| `ServiceOrder.CycleOfDeliveries` | packages/gateway-control-contracts/src/gateway-control-admission.ts:129-145 | From the start of the cycle, with allowed work in every class throughout, each fifteen deliveries of a run are eight safety, four authority, two liveness and one diagnostic, in this order. |
| `ServiceOrder.DeliveryLeavesQueue` | packages/gateway-control-contracts/src/gateway-control-admission.ts:235-273 | What is delivered leaves the front of its queue, for authority that of the first principal in turn with work, and is in flight under the new token; nothing else moves. |
| `ServiceOrder.CompleteLands` | packages/gateway-control-contracts/src/gateway-control-admission.ts:312-349 | Completing takes one delivery out of flight; only a principal that then holds nothing leaves the order, and the cursor stays unless the order became too short. |
| `ServiceOrder.CancelLeaves` | packages/gateway-control-contracts/src/gateway-control-admission.ts:275-311 | Cancelling leaves empty queues, the flight as it was, and in order the principals with work in flight. |
| `SchedulerRuns.OneFate` | packages/gateway-control-contracts/src/gateway-control-admission.ts:274-467 | Over any run every accepted copy of a message is exactly one of queued, in flight, completed, replaced or cancelled, and none is delivered more often than accepted. |
| `SchedulerRuns.FirstInFirstOut` | packages/gateway-control-contracts/src/gateway-control-admission.ts:368-438 | Over any run the messages that leave the safety queue, or the queue of one principal, followed by those still there, are those admitted, in admission order. |
| `SchedulerRuns.WeightedService` | packages/gateway-control-contracts/src/gateway-control-admission.ts:129-145 | In any run with fifteen deliveries a class with allowed work at each of them is delivered at least 8, 4, 2 or 1 times. |
| `SchedulerRuns.ExactWeightedService` | packages/gateway-control-contracts/src/gateway-control-admission.ts:443-467 | If every class has allowed work throughout, fifteen deliveries are exactly 8, 4, 2 and 1. |
| `SchedulerRuns.PrincipalServedInTurn` | packages/gateway-control-contracts/src/gateway-control-admission.ts:239-252 | While the principal order stands still, a principal with work is served within as many authority deliveries as there are principals. |
| `LatestWins.CoalesceLatestWins` | packages/control-protocol-contracts/src/index.ts:429-438 | The loop over a Map returns every key once, in order of first arrival, with its latest message. |
| `LatestWins.CoalesceIsIdempotent` | packages/control-protocol-contracts/src/index.ts:429-438 | Coalescing what was coalesced changes nothing. |
| `LatestWins.BatchQueues` | packages/gateway-control-contracts/src/gateway-control-admission.ts:410-438 | An empty scheduler accepts a whole batch of valid liveness messages exactly if what each part coalesces to fits the limits, and then queues the coalesced batch. |
| `LatestWins.QueueingCoalesces` | packages/gateway-control-contracts/src/gateway-control-admission.ts:410-438 | Draining the scheduler after such a batch delivers exactly the coalesced batch, in order. |
| `ProcessModel.PredictedChange` | packages/gateway-control-contracts/src/gateway-control-admission.ts:596-598 | Whenever a scheduler accepts a non-safety message, its zone's totals move by exactly the change the cap check predicted. |
| `ProcessModel.InsertWithinCaps` | packages/gateway-control-contracts/src/gateway-control-admission.ts:599-609 | No accepted message takes the totals of all zones over the caps. |
| `ProcessModel.AcceptedIffWithinCaps` | packages/gateway-control-contracts/src/gateway-control-admission.ts:586-613 | An addressed message is accepted exactly if it is valid and leaves its zone within its limits and all zones within the caps. |
| `ProcessModel.TotalUpdate` | packages/gateway-control-contracts/src/gateway-control-admission.ts:613-625 | The total over all zones changes by the change of the one zone that changed. |
| `ProcessModel.EnqueueInInv` | packages/gateway-control-contracts/src/gateway-control-admission.ts:586-629 | Enqueueing keeps the process invariant: zones apart, every message in its own zone, totals within the caps. |
| `ProcessModel.UnregisterReturns` | packages/gateway-control-contracts/src/gateway-control-admission.ts:548-585 | Unregistering a zone takes exactly what that zone held out of the totals and leaves every other scheduler as it was. |
| `ProcessVerdicts.ProcessVerdictIff` | packages/gateway-control-contracts/src/gateway-control-admission.ts:586-629 | Each verdict of process admission is given exactly under its condition: refused for an unknown zone, refused, shed or dropped by class if the message would take the zones over the caps, and otherwise what the zone's scheduler calls for. |
| `ProcessVerdicts.RegisterMeans` | packages/gateway-control-contracts/src/gateway-control-admission.ts:534-547 | A zone is admitted exactly if it has a name and is registered already or fewer zones than the cap are; a new one comes last with an empty scheduler, and a refusal or a repetition changes nothing. |
| `ProcessVerdicts.UnregisterMeans` | packages/gateway-control-contracts/src/gateway-control-admission.ts:548-585 | An unknown zone changes nothing; a known one leaves, the others keep scheduler and order, and the cursor stays unless the order became too short. |
| `ProcessVerdicts.DequeueServesZone` | packages/gateway-control-contracts/src/gateway-control-admission.ts:630-654 | The first zone in turn with work is served, from all classes, and the turn passes to the zone behind it; no other zone changes. |
| `ProcessVerdicts.CompleteInHome` | packages/gateway-control-contracts/src/gateway-control-admission.ts:520-533 | A token completes in the zone that has it in flight and changes no other zone. |
| `CoalescingIndex.IndexFindsPrior` | packages/gateway-control-contracts/src/gateway-control-admission.ts:591-596 | In an exact index the class-and-key lookup finds precisely the message the scheduler would replace, or nothing if it would replace none. |
| `CoalescingIndex.InsertKeepsExact` | packages/gateway-control-contracts/src/gateway-control-admission.ts:625-627 | Setting an accepted message under its key keeps the index equal to the coalescible messages queued. |
| `CoalescingIndex.TakeKeepsExact` | packages/gateway-control-contracts/src/gateway-control-admission.ts:644-650 | Deleting the key of a message that is delivered keeps the index exact, and the entry found there is that message. |
| `CoalescingIndex.KeyDetermines` | packages/gateway-control-contracts/src/gateway-control-admission.ts:203-209 | Class and key text can be read back from an index key, so keys of different classes never meet. |
| `ProcessBooks.FlightHome` | packages/gateway-control-contracts/src/gateway-control-admission.ts:521-529 | A token in the process-wide table is live in the registered zone its message names, and in no other. |
| `ProcessBooks.UnknownToken` | packages/gateway-control-contracts/src/gateway-control-admission.ts:521-525 | A token missing from the table is live in no zone. |
| `ProcessBooks.UnregisterBooked` | packages/gateway-control-contracts/src/gateway-control-admission.ts:567-585 | After unregistering, index, table and totals agree with the remaining zones. |
| `ZoneDrain.FlushOne` | packages/gateway-control-contracts/src/gateway-control-admission.ts:553-566 | Delivering and completing one queued message shortens the queues by one, keeps what is in flight and returns one share. |
| `ZoneDrain.LandOne` | packages/gateway-control-contracts/src/gateway-control-admission.ts:567-577 | Completing one delivery of the zone during the pass over the table keeps the pass's invariant, the other zones' entries and returns one share. |
| `ProcessAdmission.ProcessAdmissionControl.RegisterZone` | packages/gateway-control-contracts/src/gateway-control-admission.ts:534-547 | Registers as the model does, admitting exactly a named zone that is registered or finds room; index, table and totals stay equal to what the zones hold. |
| `ProcessAdmission.ProcessAdmissionControl.Enqueue` | packages/gateway-control-contracts/src/gateway-control-admission.ts:586-629 | With the index and running totals it decides and ends as the model, whose caps are stated on sums over the zones, and gives the verdict its condition calls for. |
| `ProcessAdmission.ProcessAdmissionControl.Dequeue` | packages/gateway-control-contracts/src/gateway-control-admission.ts:630-654 | Idle exactly if no zone has anything queued; otherwise serves the round-robin successor; "lost its zone identity" never happens. |
| `ProcessAdmission.ProcessAdmissionControl.Complete` | packages/gateway-control-contracts/src/gateway-control-admission.ts:520-533 | Completes exactly the tokens in flight; the branch "zone is not registered" is never reached. |
| `ProcessAdmission.ProcessAdmissionControl.UnregisterZone` | packages/gateway-control-contracts/src/gateway-control-admission.ts:548-585 | Both loops terminate; the zone, its index and its deliveries are gone, the totals are those of the remaining zones, whose schedulers are untouched. |
| `ProcessRuns.RunObserved` | packages/gateway-control-contracts/src/gateway-control-admission.ts:519-654 | After any run, what a zone holds outside the safety class is exactly what the results seen since it was opened add up to. |
| `ProcessRuns.CapsHold` | packages/gateway-control-contracts/src/gateway-control-admission.ts:586-629 | In any run from a process without zones, these observed holdings never exceed the byte, message and session caps. |
| `ProcessRuns.ZoneServedInTurn` | packages/gateway-control-contracts/src/gateway-control-admission.ts:630-654 | While the zone order stands still, a zone with work is served within as many deliveries as there are zones. |
| `ProcessFates.OneFateAcrossZones` | packages/gateway-control-contracts/src/gateway-control-admission.ts:519-654 | Over any run every accepted copy of a message is exactly one of queued or in flight in its zone, completed, replaced, or returned when its zone was unregistered. |
| `ExecutorSteps.SubmitSound` | packages/gateway-control-contracts/src/gateway-control-admission-executor.ts:217-268 | Submitting keeps the executor's invariant, whether admitted, replacing, turned away or closed. |
| `ExecutorSteps.PumpStepSound` | packages/gateway-control-contracts/src/gateway-control-admission-executor.ts:147-162 | One round of the pump keeps the invariant, also when the executor was closed from inside the pump. |
| `ExecutorSteps.FinishSound` | packages/gateway-control-contracts/src/gateway-control-admission-executor.ts:163-186 | A settling execution keeps the invariant: counters, active set and capacity go down together. |
| `ExecutorSteps.CloseSound` | packages/gateway-control-contracts/src/gateway-control-admission-executor.ts:190-212 | Closing keeps the invariant: afterwards nothing is queued and nothing live is unsettled. |
| `ExecutorRuns.SettlesOnceAsFirstTouched` | packages/gateway-control-contracts/src/gateway-control-admission-executor.ts:163-268 | Under every interleaving a completion settles at most once, with the outcome of the first thing that happened to its submission. |
| `ExecutorRuns.RunningFinishes` | packages/gateway-control-contracts/src/gateway-control-admission-executor.ts:178-186 | The generation test never strands a completion: work in flight is settled already or gets the outcome of its own execution. |
| `ExecutorRuns.LimitedAndAwake` | packages/gateway-control-contracts/src/gateway-control-admission-executor.ts:132-162 | In every reachable state activeByClass equals the number in flight and respects the limit, and a class that could start work has a pump scheduled or running. |
| `ExecutorRuns.CleanedOnceReleased` | packages/gateway-control-contracts/src/gateway-control-admission-executor.ts:170-177 | In every reachable state a submission has been cleaned up once if it holds no scheduler capacity, and not at all if it holds some. |
| `ExecutorRuns.NoStartAfterClose` | packages/gateway-control-contracts/src/gateway-control-admission-executor.ts:143-162 | No execution starts after closing, although the pump loop does not test for it again. |
| `ExecutorRuns.PumpBounded` | packages/gateway-control-contracts/src/gateway-control-admission-executor.ts:147-162 | While no execution settles, the number of starts plus the free slots left equals the free slots there were, whatever is submitted meanwhile. |
| `ExecutorRuns.RunsDry` | packages/gateway-control-contracts/src/gateway-control-admission-executor.ts:132-187 | Without further submissions every run is at most as long as the work there was. |
| `ExecutorRuns.QuietIsSettled` | packages/gateway-control-contracts/src/gateway-control-admission-executor.ts:132-268 | Where no pump is due and nothing runs, every submission has settled exactly once and been cleaned up exactly once. |
| `ExecutorRuns.DueMeansProgress` | packages/gateway-control-contracts/src/gateway-control-admission-executor.ts:132-187 | Otherwise some step other than submitting or closing is possible and shortens the remaining work. |
| `AdmissionExecution.AdmissionExecutor.Submit` | packages/gateway-control-contracts/src/gateway-control-admission-executor.ts:217-268 | The imperative submission reports and ends as the model's, and both are what the request's own fields and the queues call for. |
| `AdmissionExecution.AdmissionExecutor.RunScheduledPump` | packages/gateway-control-contracts/src/gateway-control-admission-executor.ts:132-187 | The scheduled callback with its loop terminates and is a run of pump rounds of the model. |
| `AdmissionExecution.AdmissionExecutor.Finish` | packages/gateway-control-contracts/src/gateway-control-admission-executor.ts:163-186 | Completing, counting down, cleaning up, rescheduling and settling come to the model's step. |
| `AdmissionExecution.AdmissionExecutor.Close` | packages/gateway-control-contracts/src/gateway-control-admission-executor.ts:190-212 | The loops over cancelled messages and active work come to the model's closing. |
| `Submissions.ReportIff` | packages/gateway-control-contracts/src/gateway-control-admission-executor.ts:217-268 | A request is reported taken exactly if it is valid and fits and nothing is queued under its key, taken in place of another exactly if something is, turned away with the verdict that speaks against it, and on a closed executor with the reason of the closing. |
| `Submissions.SubmitMeans` | packages/gateway-control-contracts/src/gateway-control-admission-executor.ts:86-98 | The work added is the last and carries the request's own ID, size, class, key, principal and zone under its own number; of the earlier work exactly that whose message is queued under the key is settled as replaced. |
| `Submissions.ClosedForFirstReason` | packages/gateway-control-contracts/src/gateway-control-admission-executor.ts:190-195 | Over any run the reason of a closed executor is that of the first close. |
| `ControlSequence.AcceptedAreConsecutive` | packages/control-protocol-contracts/src/index.ts:485-519 | Over any delivery, the accepted envelopes that count carry the numbers after the last one seen, each once and in order, and the last number seen is the last of them. |
| `ControlSequence.ClosedIffGap` | packages/control-protocol-contracts/src/index.ts:485-519 | A delivery closes the session exactly if an envelope that counts leaves a gap behind the last number seen; it is read exactly up to the first such envelope, and of what is read the numbers seen by then are dropped and all others accepted. |
| `ControlSequence.SeenCountsAccepted` | packages/control-protocol-contracts/src/index.ts:485-519 | The last number seen counts the accepted envelopes that count, and in lossy mode an advisory envelope above it is accepted without advancing it. |
| `ControlSequence.ReceiveInParts` | packages/control-protocol-contracts/src/index.ts:485-519 | Reading a delivery in two parts is reading it whole, and the last number seen never goes back. |
| `ControlSequence.OrderIsStableSort` | packages/control-protocol-contracts/src/index.ts:458-462 | Ordering yields an ascending list with, for every number, the same envelopes in the same order. |
| `ControlSequence.OrderingRepairs` | packages/control-protocol-contracts/src/index.ts:458-519 | However the numbers up to n0+k are shuffled and repeated, an ordered delivery is accepted once per number (its first arrival), drops the repetitions, is never stale and ends at n0+k. |
| `AffectedClosure.DeriveAffectedPublishableClosure` | scripts/inspect-managed-vm-package-cut.ts:177-224 | Names the first required package that is missing or private, or else the first that the least closed set with the seeds leaves out; otherwise returns that set with the packages its names stand for. |
| `AffectedClosure.GrowAffected` | scripts/inspect-managed-vm-package-cut.ts:190-211 | The growing loop ends with a closed set contained in every closed set with the seeds. |
| `AffectedClosure.ClosureIsUnique` | scripts/inspect-managed-vm-package-cut.ts:190-211 | The affected names are the same for every order of listing. |
| `AffectedClosure.LookupOrderFree` | scripts/inspect-managed-vm-package-cut.ts:180-182 | Which package a name stands for is independent of the order exactly if all packages of that name are the same. |
| `AffectedClosure.OutcomeIsDetermined` | scripts/inspect-managed-vm-package-cut.ts:177-224 | Every listing has one outcome: closure, packages and the name in a refusal are determined by it. |
| `AffectedClosure.OutcomeOrderFree` | scripts/inspect-managed-vm-package-cut.ts:177-224 | The outcome is the same for every order of listing exactly if the first required name that is not always public never is, or all are always public and the closure leaves one out or each of its names stands for one package only. |
| `AffectedClosure.OrderMattersForDuplicates` | scripts/inspect-managed-vm-package-cut.ts:177-224 | A listing with one required name both public and private returns the whole closure in one order and is refused in the other. |
| `PrincipalMaterial.ReadIffWritten` | packages/gateway-control-contracts/src/gateway-control-principal.ts:10-26 | A reader of length-prefixed fields succeeds with given fields exactly on the material of those fields, for all byte strings. |
| `PrincipalMaterial.MaterialReadsBack` | packages/gateway-control-contracts/src/gateway-control-principal.ts:14-26 | Read back, the canonical material is agent, framework kind, profile name, portal profile and assignment revision, in this order. |
| `PrincipalMaterial.PrincipalsStayApart` | packages/gateway-control-contracts/src/gateway-control-principal.ts:14-26 | Principals with the same canonical material are the same in all five fields. |
| `JsoncComments.StripJsonComments` | scripts/jsonc-comments.ts:1-70 | The loop with its four flags computes the recursive description of stripping. |
| `JsoncComments.StripsOnce` | scripts/jsonc-comments.ts:1-70 | Stripping a stripped text changes nothing, from whatever mode the reading started. |
| `JsoncComments.BreaksSurvive` | scripts/jsonc-comments.ts:12-30 | The carriage returns and line feeds of a text survive exactly, in order. |
| `JsoncComments.LiteralsSurvive` | scripts/jsonc-comments.ts:32-52 | The string literals of a text survive verbatim, escapes included, as in section 7 of RFC 8259. |
| `JsoncComments.UnchangedIffCommentFree` | scripts/jsonc-comments.ts:48-66 | A text stays as it is exactly if no comment starts outside its string literals. |
| `JsoncComments.LineCommentGoes` | scripts/jsonc-comments.ts:12-18 | After code in which no comment starts, a line comment goes with everything up to the line break, and the rest is read as code. |
| `JsoncComments.BlockCommentGoes` | scripts/jsonc-comments.ts:20-30 | A block comment goes but for its line breaks up to the first mark that closes it, or to the end of the text if none does. |
| `OAuthPolicy.ValidateCatalog` | packages/config-contracts/src/oauth-tool-portal-config.ts:89-110 | Accepts a catalog exactly if group IDs are distinct and every group fits the operations it lists. |
| `OAuthPolicy.ValidateFamilies` | packages/config-contracts/src/oauth-config.ts:179-199 | Accepts application bindings exactly if no family is bound twice. |
| `OAuthPolicy.OfferGroups` | packages/config-contracts/src/oauth-tool-portal-config.ts:352-395 | Succeeds only if every effect a reachable operation asks for is backed by a ceiling group that lists the operation, and offers exactly the compatible groups. |
| `OAuthReasons.OfferMeans` | packages/config-contracts/src/oauth-tool-portal-config.ts:364-395 | A group is offered exactly if it lists a reachable operation and is in the ceiling of the application bound to that operation's family. |
| `OAuthReasons.ReferencesResolve` | packages/config-contracts/src/oauth-tool-portal-config.ts:322-433 | A preset stands for its groups of the family if it has some, and a collection for its selections or defaults only in the version named. |
| `OAuthReasons.RefusalIsExplained` | packages/config-contracts/src/oauth-tool-portal-config.ts:319-473 | Whatever reason the compiler gives, what the reason says is so, on the fields of catalog, bindings and authored applications. |
| `OAuthPolicy.OfferWithinCeiling` | packages/config-contracts/src/oauth-tool-portal-config.ts:321-404 | What is offered through an application lies within its ceiling, because no two applications share a family. |
| `OAuthPolicy.CompileProfile` | packages/config-contracts/src/oauth-tool-portal-config.ts:319-473 | A compiled profile holds the authored ceilings, recommendations and defaults and the exact offer, with recommended within offered within ceiling, everything asked for offered, and every default but deny backed; a refusal is for the first thing wrong with the input. |
| `OAuthPolicy.OutcomeIsDetermined` | packages/config-contracts/src/oauth-tool-portal-config.ts:319-473 | What the compiler is to return is determined by the input: a sound profile is never refused, and there is one profile or one reason. |
| `CommandSet.CompileCommandSet` | packages/config-contracts/src/oauth-tool-portal-config.ts:111-206 | Succeeds exactly if every callable command is local help without flags or has an exact catalog path with fitting flags, and the hosts are those of the families reached; describes the operations reached, once each, with the paths the commands spell out; a refusal names the problem of the first command not in order. |
| `CommandSet.OutcomeIsDetermined` | packages/config-contracts/src/oauth-tool-portal-config.ts:111-206 | Refusal, local paths and descriptors are determined by the input, the descriptors up to their order. |
| `CommandSet.LocalPathsAre` | packages/config-contracts/src/oauth-tool-portal-config.ts:138-153 | The paths that need no account are exactly those of the help and version commands that can be called. |
| `CommandSet.RefusalIsExplained` | packages/config-contracts/src/oauth-tool-portal-config.ts:127-190 | Whatever problem is reported, a command that can be called has it: local with flags, on no catalog path, naming a flag the operation lacks or giving it a value it does not take; or the hosts differ. |
| `CommandSet.CommandsAreCovered` | packages/config-contracts/src/oauth-tool-portal-config.ts:350-395 | In a compiled profile every callable command stands for a catalog operation whose every requirement is offered through the application of its family. |
| `ConfiguredCli.OverlappingCommands` | packages/config-contracts/src/controller-configured-cli.ts:192-206 | The double loop reports exactly the commands that overlap an earlier one, so nothing exactly if the paths are prefix-free. |
| `ConfiguredCli.PrefixFreeMeansUnambiguous` | packages/config-contracts/src/controller-configured-cli.ts:1018-1020 | Paths are prefix-free exactly if at most one of them admits any argument vector. |
| `ConfiguredCli.IdentityIgnoresOrder` | packages/config-contracts/src/controller-configured-cli.ts:1030-1046 | Two matchers have the same identity exactly if they are the same up to the order of flags, names and values. |
| `ConfiguredCli.RepeatedMatchers` | packages/config-contracts/src/controller-configured-cli.ts:77-91 | The loop over identities reports exactly the matchers that repeat an earlier one up to order. |
| `ToolSelectors.OverlapIsSound` | packages/config-contracts/src/tool-portal-config.ts:1153-1177 | Selectors found not to overlap allow no operation in common. |
| `ToolSelectors.OverlapIsExactUnless` | packages/config-contracts/src/tool-portal-config.ts:1153-1177 | The check sees an overlap where there is none exactly if one side is '*' and the other denies all that it lists and the first does not deny. |
| `ToolSelectors.OverlapSeenInVain` | packages/config-contracts/src/tool-portal-config.ts:1153-1177 | At one such pair, '*' against a list of one name that is also denied, an overlap is seen and no operation is common. |
| `Classification.RenewalsCoalesceIff` | packages/gateway-control-contracts/src/gateway-control-admission-classification.ts:146-153 | Two lease renewals, whose principals are digests of one length, coalesce exactly if principal and lease are the same. |
| `Classification.RenewalMeetsHeartbeatIff` | packages/gateway-control-contracts/src/gateway-control-admission-classification.ts:146-161 | A renewal and a use heartbeat of one principal coalesce exactly if the renewed lease's ID spells out the lease and use of the other. |
| `Classification.ClassifiedIsValid` | packages/gateway-control-contracts/src/gateway-control-admission-classification.ts:56-190 | A classified message with an ID, a positive size and a frame that fits is fenced as invalid exactly if it publishes a binding without a principal, which the message schema excludes. |

## Left out

- The diagnostics counters (coalesced, dropped, fenced, refused, shed): they only count results.
- Sizes that are not integers: a message with a fractional or NaN size is fenced by the program before anything else; the model's sizes are integers.
- Update in place of one queue, account or Map entry: the scheduler's queues, accounts and Map entries are values in fields of the class, so aliasing between them is not expressed. Maps are kept as entries in insertion order.
- Work records of the executor are values in one list instead of objects with callbacks: `onCancel` and `execute` are assumed to return normally, and `onCancel` not to call back into the executor before the step that calls it ends.
- `scheduleImmediate` is taken to defer its callback, as the default does; one that calls it at once could start a pump inside a running pump, which the machine has no step for.
- Promises, microtasks and `setImmediate`: a completion is the list of outcomes it was given, and the steps of the executor are atomic.
- Construction with limits that are not positive safe integers, which throws; the constructors require valid limits.
- Fairness across changes of the principal or zone order: removing an entry only clamps the cursor, and the program promises no more.
- Object identity of messages: the index entry of a delivered message is compared by value.
- OAuthPolicy.CompileProfile: starts from the operations the compiled command sets of a profile describe; the lifecycle-tool checks, the pins of catalog and build, and the assembly per agent are not modelled.
- CommandSet.CompileCommandSet: the checks of executable path, argument prefix, standard input and inherited environment, and the revision hash, are left out; operation IDs of the catalog are taken to be distinct.
- OAuthPolicy.ValidateCatalog: the resolver built from the catalog's operations first is not part of this model.
- ConfiguredCli.IdentityIgnoresOrder: JSON text is a parameter of which only injectivity is known; regular-expression patterns and schema checks of single fields are left out.
- AffectedClosure.DeriveAffectedPublishableClosure: returns the affected packages as a set; the final sort by locale is left out.
- PrincipalMaterial.PrincipalsStayApart: speaks of the material, not of its SHA-256 digest; strings are their UTF-8 bytes.
- Classification.RenewalsCoalesceIff: takes principals of one length, as SHA-256 digests are; the classifier itself accepts any string, and principals of different lengths could spell one key.
- ControlSequence.OrderingRepairs: holds for contiguous mode; in lossy mode advisory envelopes do not advance the count, and nothing is promised about numbers they use up.
- Close reasons and message texts, and the schemas that validate messages before they reach this code.
- Audit, release and image scripts, the operation-folder helper and evidence parsing: input and output, no algorithm to state.
