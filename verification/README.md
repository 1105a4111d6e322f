# Verification of the queue-spill controller

The controller keeps one Volcano Queue per policy in one of two states: *Steady* (only the dedicated
node group is admitted) or *Spill* (the overflow group too). A reconcile decodes the ledger from the
Queue's annotations, runs a cooldown machine over what the informer caches show, renders the target
Queue, and writes it by server-side apply unless its hash is already there. This project models that
loop, the decision hash, the deferred wake-ups, the snapshot, the configuration registry and the watch
filters, and proves what they promise together.

| file | content |
|---|---|
| `Prelude.dfy` | options; sums, maxima and filters over lists, and their independence of order |
| `Api.dfy` | states, policies, Queues, annotation keys |
| `Rfc3339.dfy` | a calendar, a stamp printer and a stamp parser (section 5.6 of RFC 3339), their round trips, and what date, time, fraction and zone of a text mean |
| `Encoding.dfy` | the text that is hashed, its canonicity, and the code that feeds the digest |
| `StateMachine.dfy` | the cooldown machine, the decision, the switch-back cooldown |
| `HashCollisions.dfy` | exactly which policies the hash can tell apart, and accepted ones that collide |
| `QueueLedger.dfy` | decoding the Queue, the apply payload, server-side apply, owned and unowned fields |
| `Reconciler.dfy` | `ReconcilePolicy` against an API server of many Queues, and the steps of a run |
| `Runs.dfy` | runs, and the invariant of every reachable Queue |
| `CooldownGuarantees.dfy` | no premature flip and bounded response, both with runs that attain the bound; flap bounds |
| `HashGate.dfy` | the gate as a refinement, exact write count, affinity, operator edits |
| `Drift.dfy` | what becomes of owned fields that someone else writes |
| `PolicyVersions.dfy` | the gate when a policy is replaced by another version for the same Queue |
| `Fleet.dfy` | all Queues together: each lives in a run of its own; from the configuration to the Queue |
| `Wakeups.dfy` | the workqueue, `PendingWorkMap`, `Manager`, the interleaved wake-up protocol, and which deadlines get a wake-up of their own |
| `Registry.dfy` | indexes, validation, construction from raw configuration, hot reload |
| `Snapshots.dfy`, `SnapshotLoops.dfy` | the snapshot as functions of what is listed, and the loops that compute it |
| `SnapshotMeaning.dfy` | a reference definition of the snapshot in the objects' own fields, and the agreement with it |
| `WatchFilters.dfy` | the handlers, exactly which policies they enqueue, why what update handlers drop is harmless, and when what the event handler drops is not |
| `StalePending.dfy` | exactly what a pod event arms, and that the wake-up finds its condition |

Time is integer nanoseconds since Go's zero time, so the zero time is 0. Two library facts are
parameters: `sha` (sha256, with the explicit hypothesis `CollisionFree`) and `rnd` (float64 rounding,
with the hypothesis `Rounding`, and `Accurate` for arguments of at least 1; exact arithmetic satisfies
both). A run is a list of steps - clock ticks, reconciles with arbitrary observations and policies,
restarts, operator edits, and writes of the affinity by someone else - and a reconcile may fail to
build its snapshot, have its write refused, or lose the reply of a write that landed; a crash during a
reconcile has the effect of one of these.

Assumptions on runs: the clock never goes back, is at least one second past the zero time and before
the year 10000; every reconcile sees the previous write; nobody but the controller writes its three
annotations or the node-group affinity (`Drift.dfy` is about what happens otherwise); all policies of
the run name the same Queue, as successive versions of one policy do; the hash can tell the policies
of the run apart (`AllApart`). One fixed policy meets the last condition whatever its names contain
(`SelfTellsApart`), and so do any policies whose names have neither a comma nor a newline;
`TellApartIff` and `TellApartExactly` give the exact condition. The API server's forced apply and the
client-go workqueue are written out as functions (`ServerSideApply`, `WorkQueue`). Runs follow one
Queue; `LanesAreRuns` carries what they promise to every Queue of a controller with many policies.

## What turned out false

- *Drift of an owned field is put back* (docs/design.md:197). The gate compares the hash of the desired
  Queue with the stored one. It never reads the affinity: `DriftIsRepairedWhen` gives the exact
  condition over runs, `DriftSurvives` a run in which any number of reconciles leaves it wrong. A
  foreign state or stamp is read as the ledger and never put back by the next reconcile
  (`LedgerDriftIsAdopted`). A foreign hash does no harm, except when it is that of the coming decision
  (`HashDriftIsRepairedIff`).
- *Every requested deadline gets its wake-up.* Both the pending map and the delay heap keep only the
  earliest time (`LaterDeadlineIsForgotten` shows either of them losing a later one). `OwnWakeUpIff`
  says exactly which deadlines do get a wake-up of their own, `OwnWakeUpKeptIff` which of them keep it
  until it fires; what holds of every deadline is `NoLostDeadline`.
- *Accepted policies have distinct hashes*, and with them *the gate is a refinement*. Two accepted
  policies can share every hash in Spill (`AcceptedPoliciesCollide`), and so can two accepted versions
  of one policy (`AcceptedVersionsCollide`). After a restart with the second version the gate then
  leaves the affinity of the first (`AcceptedVersionsDefeatGate`). `GateRefinesIff`: over all runs under
  two versions the gate is a refinement exactly when the hash tells them apart; `TellApartExactly` and,
  in terms of the names, `SameHashIff` and `TellApartIff` say when that is. In Steady no names collide.
- *A stamp can always be read back.* Exactly the years 0 to 9999 can (`ParseAfterFormat`).
- *A pod counts once in the demand.* Exactly when no live pod that requests something has its group
  name on two undeclared groups (`DemandCountsPodsOnceIff`); `SharedNameCountsTwice` is a pod that
  counts twice.
- *The exhaustion flag is about a pod of the policy.* The scan compares bare names, so an event of
  another namespace can make a Queue spill (`ForeignEventSpills`). `ExhaustionIsOursIff`: the flag is
  right under all events exactly when no foreign pod bears the name of a policy pod.
- *The event handler wakes every policy that an event concerns.* It resolves the pod by namespace and
  name, the snapshot matches bare names: `MissedEvent` reaches nobody and makes the Steady condition
  true. `EventFilterSoundIff` says for which pod keys that cannot happen.
- *An immediate stale-pending enqueue finds its condition.* The handler tests "at least", the machine
  "more than"; `EarlyEnqueue` is a case under every accepted registry, and
  `ImmediateEnqueueMayBeEarly` says exactly when the condition is found.

## Model

| member | source | states |
|---|---|---|
| Rfc3339.ParseAfterFormat | pkg/snapshot/builder.go:280-289 | a written stamp reads back as its instant cut to a second if and only if the year is 0 to 9999; otherwise it reads as nothing |
| Rfc3339.FormatAfterParse | pkg/snapshot/builder.go:280-289 | a 20-character stamp that can be read is exactly the one that would be written for what was read |
| Rfc3339.SameStamp | pkg/evaluator/hash.go:67-72 | two instants have one stamp if and only if they lie in one second |
| Rfc3339.Reformat | pkg/evaluator/state_machine.go:145-147 | writing, reading and writing again is a fixed point |
| Rfc3339.CalendarIs | pkg/evaluator/state_machine.go:145-147 | day 0 is 0001-01-01, and each day is followed by the next date of the Gregorian calendar, month by month and with the leap-year rule |
| Rfc3339.UnixEpoch | pkg/evaluator/state_machine.go:145-147 | day 719162 is 1970-01-01 |
| Rfc3339.StampShows | pkg/evaluator/hash.go:67-72 | year, month, day, hour, minute and second of a stamp are, digit by digit, those of the instant in UTC |
| Rfc3339.WritableYear | pkg/evaluator/state_machine.go:145-147 | the instants that can be written are those of the years 0 to 9999 |
| Rfc3339.FractionIsAdded | pkg/snapshot/builder.go:280-289 | a fraction of up to nine digits is added to the instant read |
| Rfc3339.ZoneIsSubtracted | pkg/snapshot/builder.go:280-289 | a zone ahead of UTC is subtracted from the instant read, one behind it added |
| Rfc3339.ParseIs | pkg/snapshot/builder.go:280-289 | which texts can be read: a stamp's first 19 characters, an optional fraction of any number of digits, and "Z" or a zone within bounds |
| Encoding.SortedUnique | pkg/evaluator/hash.go:57-58 | the contract of the library sort determines its result |
| Encoding.SortSorts | pkg/evaluator/hash.go:57-58 | the sort used here meets that contract |
| Encoding.LexIs | pkg/evaluator/hash.go:57-58 | the order is the one of dictionaries: the first difference decides, a prefix comes first |
| Encoding.JoinInjective | pkg/evaluator/hash.go:59-60 | comma-joined lists of good names are determined by their text |
| Encoding.PreimageCanonical | pkg/evaluator/hash.go:38-80 | two hashed texts are equal if and only if state, multiset of required, multiset of preferred and whole-second stamp agree |
| Encoding.HashCanonical | pkg/evaluator/hash.go:38-44 | the same for the hashes, under collision freedom |
| Encoding.Digest.WriteLine | pkg/evaluator/hash.go:77-80 | appends the newline-terminated record to what the digest has consumed |
| Encoding.Digest.WriteAffinity | pkg/evaluator/hash.go:50-61 | feeds the sorted lists, a missing affinity like an empty one |
| Encoding.HashDecision | pkg/evaluator/hash.go:38-44 | the code that feeds the digest computes the hash whose canonicity is proved |
| HashCollisions.SameHashIff | pkg/evaluator/hash.go:38-61 | for names without newlines, the hashes of two policies agree if and only if state, stamp and dedicated group agree and, in Spill, the overflow groups are equal or cross around the dedicated one; in Steady commas never collide |
| HashCollisions.PairTextIff | pkg/evaluator/hash.go:50-61 | beside one dedicated group, two overflow groups are written alike exactly when they are equal or cross |
| HashCollisions.TellApartIff | pkg/evaluator/hash.go:38-61 | the hash tells two policies apart if and only if they do not collide |
| HashCollisions.TellApartExactly | pkg/evaluator/hash.go:38-61 | the same for all names, newlines included: exactly when the affinities in Spill are equal or not written alike; Steady always shows |
| HashCollisions.SelfTellsApart | pkg/evaluator/hash.go:38-44 | under one policy the hash determines state and stamp, whatever its names contain |
| HashCollisions.AcceptedPoliciesCollide | pkg/evaluator/hash.go:50-61 | a registry that validation accepts, with two policies of different affinities and equal hashes at every stamp |
| HashCollisions.AcceptedVersionsCollide | pkg/config/config.go:211-242 | two accepted configurations whose versions of one policy for one Queue differ in the overflow group and cannot be told apart |
| HashCollisions.TextIs | pkg/evaluator/hash.go:38-80 | the hashed text of a policy in each state, line by line, and the prefix of the hash |
| StateMachine.TriggerJustifiesFlip | pkg/evaluator/state_machine.go:80-99 | a decision reports what it was made from; a trigger is reported exactly on a flip, and names what justified it |
| StateMachine.TimeInState | pkg/evaluator/state_machine.go:230-246 | the time since the stamp, 0 without one or with one in the future |
| StateMachine.SwitchBackBounds | pkg/evaluator/state_machine.go:106-116 | for every admissible rounding the switch-back cooldown lies between TimeOff and its double, with both ends attained at hysteresis 0 and 1 |
| StateMachine.SwitchBackMonotone | pkg/evaluator/state_machine.go:109-112 | more hysteresis never shortens it |
| StateMachine.SwitchBackIsNear | pkg/evaluator/state_machine.go:106-116 | with the relative accuracy that float64 has from 1 upwards, it misses TimeOff * (1 + hysteresis) by less than five nanoseconds |
| QueueLedger.SpillAnnotations | pkg/action/patch.go:112-127 | the loop keeps exactly the owned annotations |
| QueueLedger.QueueApplyConfiguration | pkg/action/patch.go:93-110 | the payload mentions the decision's Queue, or else the policy's, and the owned fields only |
| QueueLedger.OwnedIs | pkg/evaluator/state_machine.go:141-178 | what is written for a state and a stamp, annotation by annotation, and the affinity |
| QueueLedger.LedgerIs | pkg/snapshot/builder.go:244-289 | what the three annotations of a Queue mean, whatever they contain, and what a missing Queue means |
| QueueLedger.LedgerRoundTrip | pkg/snapshot/builder.go:244-289 | decoding what is written returns the state, the stamp cut to a second and the hash; there is a stamp exactly when the timer is on |
| QueueLedger.ApplyParts | pkg/action/patch.go:93-148 | an apply sets the owned fields to the decision's and leaves all others |
| QueueLedger.ApplyExactly | pkg/action/patch.go:93-148 | an apply sets affinity and the three annotations, removes those that the decision lacks, and leaves every other annotation and field |
| QueueLedger.ApplyIsIdempotent | pkg/action/patch.go:93-148 | applying what is already there changes nothing at all |
| Reconciler.ApiServer.Apply | pkg/action/patch.go:52-91 | one forced apply to the Queue that the payload names, which may be refused or lose its reply |
| Reconciler.PayloadNamesQueue | pkg/evaluator/state_machine.go:148-155 | the payload of every decision names the policy's queueName |
| Reconciler.ReconcileServesItsQueue | pkg/reconcile/reconciler.go:46-96 | a reconcile reads and writes exactly the Queue that its policy names, and there it is the step that runs are made of |
| Reconciler.PolicyReconciler.ReconcilePolicy | pkg/reconcile/reconciler.go:46-96 | build, evaluate, gate, apply: Queue, number of Apply calls and returned error of the policy's Queue are those of the step that runs are made of, and every other Queue stays as it is |
| Runs.ApartWhen | pkg/evaluator/hash.go:38-61 | one policy whatever its names contain, and any policies whose names have no comma or newline, meet the hypothesis on a run's policies |
| Runs.AllReachable | pkg/reconcile/reconciler.go:60-80 | in every run, the stored hash is absent or that of the stored state, affinity and stamp, and the stamp is a whole second not in the future |
| Runs.HashDeterminesOwned | pkg/evaluator/hash.go:38-44 | owned fields with equal hashes are equal, even under different policies that the hash can tell apart |
| Runs.ClosedGate | pkg/reconcile/reconciler.go:61-69 | when the gate closes, the Queue already is what would be written |
| Runs.EffectOnLedger | pkg/reconcile/reconciler.go:60-89 | after a reconcile that took effect, the Queue decodes to the transition it computed |
| CooldownGuarantees.NoPrematureFlip | pkg/evaluator/state_machine.go:47-72 | a flip out of a state was preceded, by more than the cooldown minus a second, by a reconcile that started the wait, and every effective reconcile since saw the condition |
| CooldownGuarantees.CompletedTookEffect | pkg/reconcile/reconciler.go:46-96 | a reconcile returns no error if and only if its snapshot was built and the gate closed or the write was confirmed; then it took effect |
| CooldownGuarantees.SlackIsAttained | pkg/evaluator/state_machine.go:141-147 | the second of slack is exact, for both states and every cooldown: some run flips at the first nanosecond that the theorem leaves open, because the stamp is cut to a second |
| CooldownGuarantees.BoundedResponse | pkg/evaluator/state_machine.go:52-67 | if the condition stays and completed reconciles are at most R apart, the persisted state flips within cooldown + 2R, from every reachable ledger, in both directions |
| CooldownGuarantees.ResponseBoundIsExact | pkg/evaluator/state_machine.go:52-67 | the bound cannot be lowered by a nanosecond: for either state, any cooldown and any R, some run keeps the state until one nanosecond before it |
| CooldownGuarantees.FlipsTakeTime | pkg/evaluator/state_machine.go:121-126 | flips alternate direction, and the f-th one comes after the sum of the cooldowns, each minus a second |
| CooldownGuarantees.FlapBound | pkg/evaluator/state_machine.go:106-126 | k round trips take more than k times (TimeOn + switch-back cooldown - 2s) |
| CooldownGuarantees.FlipsKeepPace | pkg/evaluator/state_machine.go:141-147 | with whole-second cooldowns truncation losses do not accumulate: each flip comes no earlier than the whole second of the start plus the sum of the cooldowns |
| CooldownGuarantees.WholeFlapBound | pkg/evaluator/state_machine.go:106-126 | then k round trips from a whole second take at least k times (TimeOn + switch-back cooldown) |
| HashGate.GatedReconcileRefines | pkg/reconcile/reconciler.go:60-80 | on a reachable Queue, gating leaves the very Queue that applying would leave |
| HashGate.GateRefines | pkg/reconcile/reconciler.go:60-80 | whole runs with and without the gate have the same Queues |
| HashGate.WritesWhen | pkg/reconcile/reconciler.go:61-69 | a reconcile writes exactly when it is the first, its condition differs from the previous one, or it flips |
| HashGate.WriteCount | pkg/reconcile/reconciler.go:61-80 | Apply calls of an error-free run = 1 + condition changes between consecutive reconciles + flips |
| Drift.DriftIsInvisible | pkg/reconcile/reconciler.go:60-80 | an affinity written by someone else changes no decision, no Apply call and no other field of any run |
| Drift.DriftLasts | pkg/reconcile/reconciler.go:60-80 | it stays until the first later write that lands, whatever fails before, and that write puts back what would be there |
| Drift.DriftIsRepairedWhen | pkg/reconcile/reconciler.go:61-69 | at step n the affinity is right if and only if the foreign one was right for the state then, or a reconcile in between was the first, saw a changed condition, or flipped |
| Drift.DriftSurvives | pkg/reconcile/reconciler.go:61-69 | a run in which any affinity survives any number of reconciles |
| Drift.LedgerDriftIsAdopted | pkg/snapshot/builder.go:244-289 | a foreign state or stamp beside the current hash is never put back by the next reconcile: it is adopted, or left as it is |
| Drift.HashDriftIsRepairedIff | pkg/reconcile/reconciler.go:61-69 | after a foreign hash the next reconcile leaves the Queue it would have left anyway, if and only if that hash is not the coming decision's, or was there before |
| PolicyVersions.GateRefinesIff | pkg/reconcile/reconciler.go:60-80 | over all runs under two versions of a policy, gated and ungated Queues agree if and only if the hash can tell the versions apart |
| PolicyVersions.CollisionDefeatsGate | pkg/reconcile/reconciler.go:61-69 | for any two versions that it cannot tell apart, a run from a new Queue that ends with the affinity of the old version, where always applying ends with the new one |
| PolicyVersions.AcceptedVersionsDefeatGate | pkg/reconcile/reconciler.go:61-69 | such a run under the policies of two accepted configurations |
| HashGate.AffinityFollowsState | pkg/evaluator/state_machine.go:168-178 | in every run, a written Queue admits the overflow group exactly in Spill and then prefers the dedicated one |
| HashGate.EditsDoNotInterfere | pkg/action/patch.go:93-148 | operator edits anywhere in a run change no write, no decision and no owned field, and unowned fields keep the operator's last value |
| Fleet.LanesAreRuns | pkg/reconcile/reconciler.go:46-96 | in any run of a controller with many policies, each Queue takes exactly the steps of its own run, undisturbed by the others |
| Fleet.LaneIsValid | pkg/config/validation.go:18-59 | under an accepted configuration that run is valid and under one policy, so all that is proved of runs holds of it |
| Fleet.ConfiguredAffinity | pkg/evaluator/state_machine.go:168-178 | in every run of an accepted configuration, the Queue that entry i names requires entry i's dedicated group, and its overflow group only in Spill, where it prefers the dedicated one |
| Wakeups.PendingWorkMap.ShouldEnqueueAfter | pkg/watcher/pending_work.go:26-37 | accepts exactly when no earlier-or-equal deadline is recorded; afterwards one at most as late is |
| Wakeups.PendingWorkMap.Clear | pkg/watcher/pending_work.go:42-44 | forgets the policy's deadline and no other |
| Wakeups.Manager.EnqueueAfter | pkg/watcher/manager.go:150-160 | records the deadline and arms the delay exactly when accepted |
| Wakeups.Manager.ProcessNextItem | pkg/watcher/manager.go:297-331 | takes the head, clears its deadline, requeues with back-off exactly on a failure, and marks it done |
| Wakeups.Manager.ResyncTick | pkg/watcher/manager.go:283-292 | afterwards every policy is dirty, and in the FIFO unless it is being processed; nothing else changes |
| Wakeups.EnqueueAfterIsSteps | pkg/watcher/manager.go:150-160 | the method is a request, its decision and its arming in a row |
| Wakeups.ProcessNextItemIsSteps | pkg/watcher/manager.go:297-331 | the method is take, clear, reconcile, back off on a failure and finish in a row |
| Wakeups.InvariantStays | pkg/watcher/manager.go:150-160 | every step of every thread keeps: each recorded deadline has a wake-up that is no later than it plus the handler latency |
| Wakeups.NoLostDeadline | pkg/watcher/manager.go:150-160 | under every interleaving, a decided deadline has an outstanding wake-up until a reconcile of its policy starts |
| Wakeups.DeadlineComesDue | pkg/watcher/manager.go:297-331 | past the deadline and the latency, the wake-up no longer depends on any handler |
| Wakeups.OwnWakeUpIff | pkg/watcher/manager.go:150-160 | once its handler has had its time, a requested deadline has been given a wake-up at or after it if and only if no earlier-or-equal deadline was pending at the decision and no earlier one was in the delay heap when it was armed |
| Wakeups.OwnWakeUpStays | pkg/watcher/manager.go:150-160 | that wake-up stays in the heap until it fires, at the deadline or later, unless an earlier request or back-off of the policy replaces it |
| Wakeups.OwnWakeUpKeptIff | pkg/watcher/manager.go:150-160 | from the arming until it fires, the heap holds a wake-up at or after the deadline, if and only if both tests let the request pass and no earlier request or back-off replaces it first |
| Wakeups.KeptFiresInTime | pkg/watcher/manager.go:150-160 | when such a wake-up fires, the deadline has come |
| Wakeups.LaterDeadlineIsForgotten | pkg/watcher/pending_work.go:26-44 | an execution in which the pending map drops one later deadline and the heap swallows another, and nothing is left of either |
| Registry.NewPolicyRegistry | pkg/config/registry.go:55-82 | the three maps index the list: last entry of a name or queue, and the policies of each node group in order |
| Registry.ValidatePolicy | pkg/config/validation.go:85-106 | reports exactly the flaws of a policy, its thresholds included |
| Registry.ValidateDefaults | pkg/config/validation.go:64-79 | reports exactly the flaws of the defaults, their thresholds included |
| Registry.PolicyFlawsAre | pkg/config/validation.go:85-123 | which flaw of a policy is which condition on its fields |
| Registry.DefaultsFlawsAre | pkg/config/validation.go:64-79 | the same for the defaults |
| Registry.ValidateRegistry | pkg/config/validation.go:18-59 | reports exactly the defects: every flaw of the defaults and of each policy, and every repeated name or queue with its first owner; nothing if and only if the registry is valid |
| Registry.IndexAgreesWithList | pkg/config/registry.go:100-111 | after validation, lookups return the unique matching list element, and only that |
| Registry.GroupNamesAreExact | pkg/config/registry.go:118-126 | a node group's names are those of the policies that use it, each once |
| Registry.GroupNamesInOrder | pkg/config/registry.go:118-126 | in YAML order |
| Registry.NodeGroupIndexAgrees | pkg/config/registry.go:118-126 | after validation, a policy is listed for a group if and only if it uses it |
| Registry.ClampUnit | pkg/config/config.go:401-410 | the point of [0,1] next to the input |
| Registry.BuildPolicies | pkg/config/config.go:355-398 | one policy per entry, in order, with the entry's names and groups, and of each threshold the entry's own value where it sets one and the default otherwise |
| Registry.Finalize | pkg/config/config.go:211-242 | yields a registry if and only if the configuration is valid, and then the validated, indexed one whose defaults and policies are those of the configuration, field by field |
| Registry.ValidConfigIff | pkg/config/validation.go:18-123 | what validity means in the configuration's own fields |
| Registry.AcceptedCooldowns | pkg/config/config.go:338-398 | in every accepted configuration the wait in Steady is TimeOn and positive, and the one in Spill between TimeOff and its double |
| Registry.RegistryStore.Set | pkg/config/registry.go:152-170 | nil keeps the active registry |
| Registry.ConfigMapWatch.Reload | pkg/watcher/configmap_watch.go:94-138 | one reload step: accepts exactly the decodable, valid configurations; a rejected one changes and enqueues nothing; an accepted one installs its registry and enqueues each old or new name exactly once |
| Registry.ActiveIsLatestAccepted | pkg/watcher/configmap_watch.go:94-138 | after any sequence of reloads, the active registry is valid and the one made from the latest acceptable configuration, or nothing has changed since the start |
| Registry.EnqueuedByReloads | pkg/watcher/configmap_watch.go:94-138 | what a sequence of reloads enqueued is one batch per reload: empty when rejected, otherwise each name of the registry active just before or of the new one, once |
| Snapshots.OrderIndependence | pkg/snapshot/builder.go:62-154 | permuting what the listers return changes no decision |
| SnapshotMeaning.PolicyPodGroupsAre | pkg/snapshot/builder.go:160-182 | the groups of a policy are the listed ones of its queue whose phase is not Completed, as often as listed |
| SnapshotMeaning.PodsOfAre | pkg/snapshot/builder.go:189-218 | the pods of a policy are the listed ones whose group annotation names such a group, as often as listed |
| SnapshotMeaning.ObserveMeans | pkg/snapshot/builder.go:62-154 | every number that a decision reads, and the exhaustion flag, as sums over the listed objects' own fields |
| SnapshotMeaning.StalestMeans | pkg/snapshot/stale_pending.go:18-56 | the stalest duration is the longest of a policy pod's first PodScheduled=False condition, or 0 |
| SnapshotMeaning.DrainedExactlyWhen | pkg/evaluator/state_machine.go:82-87 | the Spill condition holds if and only if no listed pod of an uncompleted group of the queue is placed on a node labelled with the overflow group |
| SnapshotMeaning.SpillDueExactlyWhen | pkg/evaluator/state_machine.go:89-98 | the Steady condition holds if and only if scaling was reported to fail for the bare name of such a pod, or, with a positive threshold, such a pod has been unschedulable for longer |
| Snapshots.ExhaustionIsOursIff | pkg/snapshot/supply.go:97-116 | the exhaustion flag means a pod of the policy under every set of events about existing pods, if and only if no foreign pod bears the name of a policy pod |
| Snapshots.ForeignEventSpills | pkg/snapshot/supply.go:97-116 | a cluster whose only event is about a pod of another namespace makes the Steady condition true |
| Snapshots.DemandExactly | pkg/snapshot/demand.go:25-102 | demand is the declared resources plus each live pod's request, once for every undeclared group of its group name |
| Snapshots.DemandCountsPodsOnceIff | pkg/snapshot/demand.go:25-102 | each live pod of an undeclared group counts once, if no pod that requests the resource is shared by two undeclared groups, and, requests being non-negative, only then |
| Snapshots.SharedNameCountsTwice | pkg/snapshot/builder.go:199-216 | two groups of one name count a pod twice |
| SnapshotLoops.ListPolicyPodGroups | pkg/snapshot/builder.go:160-182 | exactly the groups of the queue whose phase is not Completed, each as often as listed |
| SnapshotLoops.ListPolicyPods | pkg/snapshot/builder.go:189-218 | exactly the pods whose group annotation names one of those groups |
| SnapshotLoops.SplitNodesByGroup | pkg/snapshot/supply.go:23-43 | the two pools, by label |
| SnapshotLoops.CountPodsOnNodes | pkg/snapshot/supply.go:49-63 | the number of pods placed on the named nodes |
| SnapshotLoops.SumAllocatable | pkg/snapshot/supply.go:82-91 | the numeric total of every resource |
| SnapshotLoops.AutoscalerExhausted | pkg/snapshot/supply.go:97-116 | whether some exhaustion event names a policy pod |
| SnapshotLoops.FindUnschedulable | pkg/snapshot/stale_pending.go:41-56 | nothing without a PodScheduled=False condition, and otherwise how long the first one has lasted, never negative |
| SnapshotLoops.ScanStalePending | pkg/snapshot/stale_pending.go:18-34 | the longest such duration and the number beyond the threshold |
| SnapshotLoops.ResourceTotal.AddResources | pkg/snapshot/demand.go:128-134 | every resource grows by its amount in the source |
| SnapshotLoops.IndexPodsByGroupName | pkg/snapshot/demand.go:91-102 | every group name maps to its pods in order |
| SnapshotLoops.PerPodGroupDemand | pkg/snapshot/demand.go:59-85 | the declared resources, or the sum over the group's live pods |
| SnapshotLoops.ComputeDemand | pkg/snapshot/demand.go:25-46 | the indexed nested loops compute the specified demand, and the estimated count is exactly the undeclared groups |
| SnapshotLoops.BuildSnapshot | pkg/snapshot/builder.go:62-154 | the whole build equals its specification |
| WatchFilters.Handlers.OnPodGroupUpdate | pkg/watcher/podgroup_watch.go:83-122 | enqueues the old and new owner, and only on a change |
| WatchFilters.PodGroupEnqueuesIff | pkg/watcher/podgroup_watch.go:83-161 | a PodGroup update enqueues a policy if and only if queue, phase, minimum member count or minimum resources changed and its queue is the old or the new one |
| WatchFilters.Handlers.OnNodeUpdate | pkg/watcher/node_watch.go:90-121 | enqueues the policies of both groups on a relabel, of the group on a supply change |
| WatchFilters.NodeEnqueuesIff | pkg/watcher/node_watch.go:90-177 | a Node update enqueues a policy if and only if it uses the old or new group of a relabel, or the group of a node whose cordon, allocatable resources, taints or readiness changed |
| WatchFilters.Handlers.OnQueueUpdate | pkg/watcher/queue_watch.go:83-111 | enqueues the owner exactly on drift |
| WatchFilters.QueueEnqueuesIff | pkg/watcher/queue_watch.go:83-164 | a Queue update enqueues a policy if and only if it is its Queue and affinity, capability or an annotation under the prefix changed |
| WatchFilters.Handlers.OnEventAdd | pkg/watcher/pod_event_watch.go:184-233 | enqueues the policy that the involved pod's namespace and name resolve to, for exhaustion events about pods only |
| WatchFilters.EventEnqueuesIff | pkg/watcher/pod_event_watch.go:184-265 | the same in the objects' own fields: the stored pod of that key, the stored group of its namespace and annotation, and that group's queue |
| WatchFilters.Handlers.OnPodEvent | pkg/watcher/pod_event_watch.go:133-176 | enqueues at once, or later, or nothing, as the specification of the handler says |
| WatchFilters.Handlers.FilterSpillAnnotations | pkg/watcher/queue_watch.go:156-164 | keeps exactly the prefixed annotations |
| WatchFilters.PodGroupFilterSound | pkg/watcher/podgroup_watch.go:83-161 | a PodGroup update that does not enqueue a policy leaves its decision unchanged, for any contents in any order |
| WatchFilters.NodeFilterSound | pkg/watcher/node_watch.go:90-177 | the same for Node updates |
| WatchFilters.QueueFilterSound | pkg/watcher/queue_watch.go:83-164 | the same for Queue updates |
| WatchFilters.EventFilterSoundIff | pkg/watcher/pod_event_watch.go:184-233 | for events about any set of pod keys, those that do not enqueue a not yet reported policy change nothing for it, if and only if every such key with the bare name of a policy pod resolves to the policy |
| WatchFilters.MissedEvent | pkg/watcher/pod_event_watch.go:184-233 | under every accepted registry and policy, an event that reaches nobody and makes the Steady condition true |
| StalePending.PodScheduledFalseTransitionTime | pkg/watcher/pod_event_watch.go:277-284 | the transition time of the first PodScheduled=False condition |
| StalePending.SameCondition | pkg/snapshot/stale_pending.go:41-56 | handler and snapshot measure the same condition |
| StalePending.CheckStalePendingIs | pkg/watcher/pod_event_watch.go:133-176 | a pod event arms a policy if and only if the stored group of the pod's namespace and annotation is on the policy's queue and the pod has a transition time: at once from the threshold on, otherwise for one second after it |
| StalePending.DeferredAtEveryAge | pkg/watcher/pod_event_watch.go:163-175 | at every age below the threshold a deferred wake-up is armed |
| StalePending.WakeUpFindsCondition | pkg/watcher/pod_event_watch.go:133-176 | below the threshold the handler arms one second past it, and from then on, as long as the pod belongs to the policy and stays pending, the Steady condition holds, whatever else changed |
| StalePending.ImmediateEnqueueMayBeEarly | pkg/watcher/pod_event_watch.go:163-171 | after an immediate enqueue, in any cluster, the condition holds if and only if the reconcile runs strictly past the threshold, or the autoscaler reported, or another pod of the policy is overdue |
| StalePending.EarlyEnqueue | pkg/watcher/pod_event_watch.go:163-171 | under every accepted registry and policy, a cluster where the handler enqueues at once and the reconcile at that instant sees no condition |

## Left out

- The Nope action: it writes no Queue, so runs model the Patch action.
- Hot reload does not reach the snapshot builder, which captures the registry at start; the watch-filter and wake-up results fix one registry.
- Stale informer caches: with a reconcile that does not see the previous write the cooldown guarantees fail.
- Add and delete handlers of the PodGroup, Node and Queue watches: they enqueue the owner, if there is one, whatever the object holds.
- Updates and deletions of events: no handler is registered, so the end of an exhaustion is noticed only by the resync.
- Pod deletions and bindings enqueue nothing by design, so a drained pool is noticed only by the resync.
- Lister errors, nil list entries and type assertions: a failed build is one fault of a run.
- Reason texts, error texts and their nesting, logging and dry-run YAML: text output only.
- The dedicated-pod count and the raw object lists of a snapshot: no decision reads them.
- MinNodes and MaxNodes: informational, no decision reads them.
- Error mapping of the apply call, leader election, process wiring, manager start and stop: plumbing; a single leader and a single worker are assumed.
- YAML, environment and koanf decoding: the model starts from decoded values.
- Rounding of float64 beyond the range of a Duration, overflow of Duration and NaN hysteresis: integers and reals are unbounded here.
- Lenient forms of Go's time parser (one-digit hours, a comma before the fraction, offsets of 24 hours): `Rfc3339.Parse` reads section 5.6 of RFC 3339 without leap seconds.
- sha256 itself and the display format of quantities.
