# Fleet control plane: a Dafny model

The server manages fleets of OpenWrt routers. A background loop advances durable state machines
every two seconds: fleet operations that fan a command out to many devices, automatic reactions,
maintenance schedules and incident correlation. This project models those state machines and the
smaller kernels beside them, and proves what they promise over whole runs.

A table is a map or a sequence of typed records, a transaction is one atomic step that either
happens or leaves the tables as they were, and `now` is an input of each step. What the rest of the
system answers (permissions, inventories, signing, the network library, the time zone database) is
an input that may change freely from step to step. Agents are environment steps that rewrite the
command table.

How the modules fit together:

- `FleetOperations` holds the scheduler's transactions as functions; `FleetStore.dfy` (module
  `FleetScheduler`) runs the same transactions in place, with the counters and the in-memory items the
  scheduler keeps, and proves that memory and rows agree at commit. `FleetOperationSafety` has the
  invariant of one transaction, `FleetOperationRuns` the invariant of every reachable state, and
  `FleetOperationTheorems` the promises over runs of creations, passes, cancels, resumes, agent changes
  and device deletions. `FleetOperationOutcomes` and `FleetOperationRequests` tell exactly what a pass and a request
  make of each row; `FleetOperationWitnesses` has concrete runs for the exceptions.
- `FleetCalendar`, `FleetSchedules`, `FleetScheduleRuns`, `FleetScheduleSlots`, `FleetScheduleStore`,
  `FleetScheduleOutcomes` and `FleetScheduleWitnesses` do the same for maintenance schedules; the fleet operations above are part of their state.
- `FleetRules`, `FleetRuleRuns`, `FleetRuleStore` and `FleetRuleOutcomes` cover automatic reactions,
  `Incidents`, `IncidentRuns` and `IncidentOutcomes` incident correlation.
- `FleetHistory` with `FleetHistoryOutcomes`, `Digests`, `LanClients` with `LanClientTheorems` and `LanClientRows`, `SemVer` with `VersionText`,
  `SemVerPrecedence` and `WebVersions`, and `RateLimiter` are the smaller kernels. `Text`, `Units`
  and `Sorting` are shared helpers.

## What turned out not to hold as promised

- A command can outlive its operation's deadline: the time to live and the signature come from two readings
  of the clock. One pass at the deadline ends the operation exactly when no item still waits for such a
  command (`DeadlineEndsEveryOperation`, `LateSigningOutlivesDeadline`); the deadline plus the signing delay
  is always enough (`DeadlineAndDelayEnd`).
- While a canary is undecided at most one command exists, with one exception: deleting the device that
  holds the undecided canary removes its item, and the next pass issues a second command without a
  resume (`CanaryGate`, `DeletingCanaryReopensGate`).
- An operation that ended as failed shows a failed item until every device that held one is deleted
  (`FailedVerdictShowsFailure`, `DeletionHidesFailure`).
- Repeating a creation request returns the same operation unless its deadline was given in a
  non-canonical spelling: then the exact same request conflicts (`ReplayIsExact`, `LooseDeadlineConflicts`).
- A schedule can be left waiting for a slot that is already reserved, when an edit reads the clock before a
  reservation and commits after it. From then on every reservation that finds the schedule due fails as a
  whole, until the schedule is saved again (`AwaitedSlotIsFreeExactly`, `StaleSaveBlocksReservations`).
- An incident with no active source is resolved, except when a source leaves its category while it is the
  last active one there (`SyncKeepsIdleExactly`, `CategoryChangeStrands`). Such an incident stays open until
  some source is next observed inactive in that category, or until it is resolved by hand
  (`IdleIncidentIsResolvedExactly`).
- A sample at the zero instant is mistaken for "no sample yet", and the time up to the next sample is
  neither covered nor a gap (`CoverageIsExact`, `ZeroSampleLosesTime`).
- The server's version comparison departs from section 11 of Semantic Versioning 2.0.0 exactly for
  numbers that do not fit 64 bits and for identifiers made of a hyphen and digits, which it reads as
  negative numbers (`RuleHoldsExactly`, `PairIsRightExactly`). The web console calls each of two versions newer exactly when they
  first differ in two digit texts that convert to the same number: with leading zeros, or by rounding at
  2^53 and above (`WebCompareFlipsExactly`, `TiedIdentifiers`).

## Model

| member | source | states |
|---|---|---|
| FleetOperationTheorems.OperationsEvolve | server/internal/store/fleet_operations.go:401-611 | Over any stretch of any run: terminal items are frozen, a command once given stays, a verdict is final, cancelling leads only to cancelled, the ledger of issued commands only grows |
| FleetOperationTheorems.ParallelismHolds | server/internal/store/fleet_operations.go:500-512 | In every reachable state queued plus claimed items never exceed the operation's parallelism, which is at most 20 |
| FleetOperationTheorems.OneCommandPerDevice | server/internal/store/fleet_operations.go:504-591 | Over a whole run, deletions included, an operation creates at most one command per device |
| FleetOperationTheorems.TerminalItemsNeverChange | server/internal/store/fleet_operations.go:436-485 | Once terminal, an item never changes again while its device exists |
| FleetOperationTheorems.ActiveLimitHolds | server/internal/store/fleet_operations.go:193-199 | No user ever has more than 20 active operations |
| FleetOperationTheorems.QuietUntilResume | server/internal/store/fleet_operations.go:486-512 | An operation that is not running or has nothing pending stays so and issues nothing until a resume |
| FleetOperationTheorems.CancellingIsFinal | server/internal/store/fleet_operations.go:351-370 | Once cancelling, no further command is created whatever is tried, and the only other status is cancelled |
| FleetOperationTheorems.FailureStopsUntilResume | server/internal/store/fleet_operations.go:486-556 | With stop-on-failure, from the moment an item failure is recorded, in whichever branch, no command of the operation is created until a later resume: in the recording pass nothing for that item or any later one, nothing at all if the failure shows while refreshing, and nothing in later steps |
| FleetOperationTheorems.VerdictsAreExact | server/internal/store/fleet_operations.go:592-610 | Ended means every item terminal; completed means every item completed; failed means none cancelled and, in the step that gives it, some failed; cancelled exactly from cancelling |
| FleetOperationTheorems.TerminalRowStaysExactly | server/internal/store/fleet_operations.go:436-485 | Over any stretch of any run a terminal item is still there exactly when its device was not deleted in between |
| FleetOperationTheorems.FailedVerdictShowsFailure | server/internal/store/fleet_operations.go:592-610 | At any time after an operation ended as failed it shows a failed item exactly when not every device that held one has been deleted since |
| FleetOperationTheorems.FailedVerdictLasts | server/internal/store/fleet_operations.go:592-610 | Without deletions a failed operation has a failed item from its verdict on |
| FleetOperationTheorems.DeletionHidesFailure | internal/fleetschema/fleet.sql:18-26 | Deleting the only device that failed leaves a failed operation without a failed item |
| FleetOperationWitnesses.FailureIsForgotten | internal/fleetschema/fleet.sql:18-26 | A run from the empty tables that ends that way |
| FleetOperationTheorems.DeadlineEndsEveryOperation | server/internal/store/fleet_operations.go:425-610 | At or after the deadline one advance ends any reachable active operation with every item terminal, whatever permissions, inventories, backups and signing answer, exactly when no item in flight waits for a live command that expires later |
| FleetOperationTheorems.SignedExpiriesPass | server/internal/store/fleet_operations.go:566-591 | In a reachable state no item waits for a live command once the expiries that the commands of the operation were signed with have passed |
| FleetOperationTheorems.DeadlineAndDelayEnd | server/internal/store/fleet_operations.go:425-610 | An advance at the deadline plus the longest delay between computing a time to live and signing ends the operation |
| FleetOperationTheorems.DeadlineAloneEnds | server/internal/store/fleet_operations.go:425-610 | When every command was signed to expire by the deadline, an advance at the deadline ends the operation |
| FleetOperationWitnesses.LateSigningOutlivesDeadline | server/internal/store/fleet_operations.go:566 | A run from the empty tables in which signing takes two microseconds and the pass at the deadline does not end the operation |
| FleetOperationTheorems.CanaryGate | server/internal/store/fleet_operations.go:489-512 | A canary operation gets a second command only after a resume that follows the canary's outcome, unless the device with the undecided canary is deleted |
| FleetOperationTheorems.DeletingCanaryReopensGate | internal/fleetschema/fleet.sql:18-26 | The exception is real in any run: deleting the canary's device lets the next pass send a second command to the first pending item left that can be served |
| FleetOperationWitnesses.CanaryIsBypassed | internal/fleetschema/fleet.sql:18-26 | A run from the empty tables in which that happens |
| FleetOperationTheorems.ReplayIsExact | server/internal/store/fleet_operations.go:171-189 | A later request under the same key, whose devices still exist, finds the same operation exactly when payload and default arguments are equal and its deadline text is canonical, and conflicts otherwise |
| FleetOperationWitnesses.LooseDeadlineConflicts | server/internal/store/fleet_operations.go:171-189 | A run from the empty tables after which the very same request conflicts, for its spelling of the deadline |
| FleetOperationRuns.RunKeeps | server/internal/store/fleet_operations.go:90-611 | The invariant of operations, ledger, request index and active limit holds in every reachable state |
| FleetOperationRuns.CreateKeeps | server/internal/store/fleet_operations.go:90-232 | Creating an operation keeps the invariant, rejections included |
| FleetOperationRuns.DeleteKeeps | server/internal/store/sqlite.go:1787-1821 | Deleting a device, with the cascade to its items and commands, keeps the invariant |
| FleetOperationRuns.ExpiryIsBounded | server/internal/store/sqlite.go:303-336 | The expiry of a command exceeds the deadline by no more than the delay between computing its time to live and signing it |
| FleetOperationRuns.ExpiryWithinDeadlineExactly | server/internal/store/sqlite.go:316-322 | With the truncations to microseconds, exactly when the expiry is no later than the deadline |
| FleetOperationSafety.PassKeeps | server/internal/store/fleet_operations.go:401-611 | One pass keeps the invariant of the operation and every terminal item and command |
| FleetOperationSafety.CanaryOutcomePauses | server/internal/store/fleet_operations.go:489-499 | The pass that sees the canary's outcome issues nothing and does not end running |
| FleetOperationSafety.DeadlineEndsExactly | server/internal/store/fleet_operations.go:416-485 | A pass at or after the deadline issues nothing and ends the operation exactly when no item in flight waits for a live unexpired command |
| FleetOperationSafety.FailureOnSightIssuesNothing | server/internal/store/fleet_operations.go:425-488 | With stop-on-failure, a pass that sees a failure while closing the window or refreshing issues nothing |
| FleetOperationSafety.FailureIssuesNothingAfter | server/internal/store/fleet_operations.go:520-556 | With stop-on-failure, a pass that records the failure of an item issues nothing for it or any later item |
| FleetOperationSafety.FailureStops | server/internal/store/fleet_operations.go:486-556 | With stop-on-failure, a pass that records a failure leaves the operation not running or without pending items |
| FleetOperationOutcomes.FlightOutcomesAreExact | server/internal/store/fleet_operations.go:436-485 | In any run, an item in flight before a committed advance is afterwards completed, queued, claimed, cancelled or failed exactly as its command row, its expiry, its exit code, the health of an update and the operation's status say; a missing row fails it and a terminal item stays |
| FleetOperationOutcomes.PendingOutcomesAreExact | server/internal/store/fleet_operations.go:425-591 | In any run, a pending item fails when the window has closed; otherwise it is failed, completed or queued only as the answers for its device say, and left pending only when the operation does not run, the cap is reached or a backup is in progress |
| FleetOperationOutcomes.PausesAreExact | server/internal/store/fleet_operations.go:486-610 | In any run, a committed advance ends the operation exactly when every item is terminal, pauses a running one exactly on a failure with stop-on-failure before the window closes or on the canary's outcome, and keeps the canary undecided exactly while no sent command has an outcome |
| FleetOperationOutcomes.PassFailsOnlyOnFault | server/internal/store/fleet_operations.go:510-591 | An advance fails only when a pending item of a running operation meets a failed query or a command that cannot be signed under a fresh identifier |
| FleetOperationRequests.CommandsAreExact | server/internal/store/fleet_operations.go:416-424 | In any run, a committed advance expires exactly the operation's own live commands whose time is up, keeps every other row, and adds one queued row per new ledger entry, as signed |
| FleetOperationRequests.CancelIsExact | server/internal/store/fleet_operations.go:351-363 | A cancel is accepted exactly from the owner, and on an active operation cancels exactly its pending items and its queued commands |
| FleetOperationRequests.ResumeIsExact | server/internal/store/fleet_operations.go:338-370 | A resume is accepted exactly from the owner, with the permission, for a paused operation, which it sets running |
| FleetOperationRequests.CreatedExactly | server/internal/store/fleet_operations.go:90-232 | An operation is created exactly when the request is within its limits, a scheduled run is valid, the caller and every device are admitted, the key is new, fewer than twenty operations are active, and deadline, identifier and arguments fit |
| FleetOperationRequests.ExistingIsAdmitted | server/internal/store/fleet_operations.go:146-189 | An existing operation is returned only to a request whose caller and devices are all admitted |
| FleetOperationRequests.RefusalIsExact | server/internal/store/fleet_operations.go:146-170 | A refusal carries the answer for the caller or for the least refused device |
| FleetOperationRequests.RejectionsHaveCauses | server/internal/store/fleet_operations.go:90-232 | Each kind of rejection has its cause |
| FleetOperationRequests.CreatedIsExact | server/internal/store/fleet_operations.go:200-232 | The created operation runs, waits for its canary when asked to, and has one pending item per device in order; nothing else changes |
| FleetScheduler.RefreshItems | server/internal/store/fleet_operations.go:436-485 | The refresh loop writes each row by primary key; items, rows and the active, failed and new-failure variables end as the declarative refresh says |
| FleetScheduler.ObserveItems | server/internal/store/fleet_operations.go:425-499 | Closing the window, refreshing, pausing on a failure and on the canary's outcome give the observed operation |
| FleetScheduler.ServeItem | server/internal/store/fleet_operations.go:510-591 | One pending item becomes a command, a failure, a completion or stays, and memory still agrees with the rows |
| FleetScheduler.DispatchItems | server/internal/store/fleet_operations.go:504-591 | The dispatch loop issues what the declarative dispatch says, and its counters count the items it ends with |
| FleetScheduler.ConcludeItems | server/internal/store/fleet_operations.go:592-610 | The verdict taken from memory and the counters is the verdict of the stored rows |
| FleetScheduler.FleetStore.AdvanceOperation | server/internal/store/fleet_operations.go:401-611 | The in-place transaction refines the declarative one, rolls back on failure, and the statuses that decided the verdict equal the stored rows |
| FleetScheduler.FleetStore.SetAction | server/internal/store/fleet_operations.go:322-372 | Cancel and resume write exactly the operation, its pending items and its queued commands; anything else is refused |
| FleetScheduler.CheckDevices | server/internal/store/fleet_operations.go:146-170 | The principal and then the devices in order are asked for access and feature, and the first refusal stands |
| FleetScheduler.FleetStore.CreateOperation | server/internal/store/fleet_operations.go:90-232 | Creation answers and writes what the declarative transaction says, each rejection in the order the checks are made, an unreadable deadline included |
| Text.SortUniqueSorts | server/internal/store/fleet_operations.go:97-99 | Sorting and compacting keeps exactly the given device identifiers, each once, in order |
| FleetCalendar.NextFleetSlot | server/internal/store/fleet_schedules.go:29-51 | The search loop returns the first fitting slot of a fifteen-day scan and fails on an invalid calendar |
| FleetCalendar.NextSlotIsLeast | server/internal/store/fleet_schedules.go:38-49 | The result is the least existing slot of any day strictly after the given instant on an allowed weekday |
| FleetCalendar.NextSlotExists | server/internal/store/fleet_schedules.go:38-50 | A valid calendar always yields a slot when at most one scanned day lacks the local time |
| FleetCalendar.NextSlotFailsExactly | server/internal/store/fleet_schedules.go:38-50 | With one weekday other than today's the search fails exactly when both of its scanned dates lack the local time |
| FleetScheduleRuns.RunKeeps | server/internal/store/fleet_schedules.go:53-310 | Over all interleavings of saves, reservations, workers, crashes and fleet steps the invariant of runs and workers holds |
| FleetScheduleRuns.RunIsStable | server/internal/store/fleet_schedules.go:182-310 | A run never changes its schedule, slot, deadline or request, and not at all once it is no longer pending; schedules keep their owner |
| FleetScheduleRuns.OneOperationPerRun | server/internal/store/fleet_schedules.go:276-308 | A schedule run creates at most one operation, whatever crashes between creating it and acknowledging the run |
| FleetScheduleRuns.QueuedRunNamesItsOperation | server/internal/store/fleet_schedules.go:285-308 | A run marked queued names the one operation of the schedule's owner with the run's request key |
| FleetScheduleRuns.EditedRunNeverStarts | server/internal/store/fleet_schedules.go:147-151 | After an edit or a disabling no operation starts from a run reserved before it, even by a worker that had already read the run |
| FleetScheduleRuns.RestartFindsSameOperation | server/internal/store/fleet_operations.go:137-189 | Starting a still pending run again after a crash returns the operation already created, as long as none of its devices was deleted |
| FleetScheduleSlots.StepMovesForward | server/internal/store/fleet_schedules.go:213-250 | Between edits each reservation takes the slot the schedule waits for and moves it strictly past that slot |
| FleetScheduleSlots.SlotsIncrease | server/internal/store/fleet_schedules.go:213-250 | Between edits the reserved slots of a schedule strictly increase |
| FleetScheduleOutcomes.ReservationsAreExact | server/internal/store/fleet_schedules.go:213-252 | In any run, a reservation that commits gives each due schedule one run, missed exactly when its window is over and pending otherwise, with the schedule's template under the run's key and deadline, moves it on to the next slot of its calendar, and changes nothing else |
| FleetScheduleOutcomes.ReservationFailsOnly | server/internal/store/fleet_schedules.go:213-252 | A reservation fails only where a due schedule has no next slot, an identifier is not fresh or the slot is held |
| FleetScheduleOutcomes.SaveAcceptsExactly | server/internal/store/fleet_schedules.go:53-137 | A save is accepted exactly within the limits, with access and a slot: an edit of one's own schedule, a new one below a hundred, or a repeated identical request |
| FleetScheduleOutcomes.SaveIsExact | server/internal/store/fleet_schedules.go:70-152 | It stores the definition with its template stripped, waits for the computed slot and cancels exactly the schedule's pending runs; a repeated request changes nothing |
| FleetScheduleOutcomes.StartIsExact | server/internal/store/fleet_schedules.go:276-304 | A run is missed exactly when its window is over, otherwise queued with the operation creation returns, failed when it is refused, and left for a retry on a transient failure |
| FleetScheduleOutcomes.AckIsExact | server/internal/store/fleet_schedules.go:305-307 | The outcome is written into a run that is still pending, and only there |
| FleetScheduleOutcomes.WorkAllIsExact | server/internal/store/fleet_schedules.go:276-310 | The worker loop processes every picked run in order with that outcome, and ends early only at a transient failure |
| FleetScheduleSlots.SavedSlotIsFreeExactly | server/internal/store/fleet_schedules.go:70-150 | After a save the slot its schedule waits for is free exactly when no run of the schedule already holds the slot that the save computed |
| FleetScheduleSlots.AwaitedSlotIsFreeExactly | server/internal/store/fleet_schedules.go:182-253 | In any run with reservations in order, that remains so until the next save of the schedule: free stays free and taken stays taken |
| FleetScheduleSlots.NoSlotIsReservedTwice | internal/fleetschema/fleet.sql:53-64 | When the latest save of a schedule commits with a time no earlier than the latest reservation, the awaited slot was never reserved before |
| FleetScheduleSlots.TakenSlotBlocksReservation | server/internal/store/fleet_schedules.go:213-252 | A reservation that includes a schedule whose awaited slot is taken fails as a whole, at any time |
| FleetScheduleWitnesses.StaleSaveBlocksReservations | server/internal/store/fleet_schedules.go:70-86 | A run from the empty tables in which an edit reads the clock before a reservation and commits after it, and then blocks every reservation that finds its schedule due |
| FleetScheduleSlots.ScheduledDeadlineIsAccepted | server/internal/store/fleet_operations.go:204-210 | A run started inside its window, at a time no earlier than the latest reservation, is never refused for its deadline |
| FleetScheduleStore.ScheduleStore.Reserve | server/internal/store/fleet_schedules.go:182-253 | The reservation loop over due schedules refines the declarative transaction and changes nothing when it fails |
| FleetScheduleStore.ScheduleStore.Save | server/internal/store/fleet_schedules.go:53-152 | Saving writes the schedule and cancels its pending runs, accepts a repeated identical request without a change, and refuses a conflicting one, an edit of an unknown or foreign schedule and a hundred-and-first schedule |
| FleetScheduleStore.ScheduleStore.AdvanceRuns | server/internal/store/fleet_schedules.go:259-310 | An uninterrupted worker loop is the start and acknowledge steps of the protocol, run by run, ending at the first transient failure |
| FleetScheduleStore.ScheduleStore.StartRun | server/internal/store/fleet_schedules.go:276-308 | One run is missed, queued with its operation, or failed, and a run that is no longer pending is left alone |
| FleetRuleRuns.CounterIsCappedStreak | server/internal/store/fleet_rules.go:385-455 | The stored counter is always the smaller of the configured length and the streak of newly processed known violations since the last action, clean or unknown observation, or save |
| FleetRuleRuns.ActionsNeedFullStreak | server/internal/store/fleet_rules.go:400-455 | An action is taken only on a known violation that completes the configured streak |
| FleetRuleRuns.StalePassChangesNothing | server/internal/store/fleet_rules.go:382-395 | A pass without a new observation changes nothing |
| FleetRuleRuns.ActionsRespectCooldown | server/internal/store/fleet_rules.go:413-455 | Within one saved definition two actions on a device are at least the cooldown apart, whatever the clock does |
| FleetRuleRuns.DailyCapHolds | server/internal/store/fleet_rules.go:396-455 | With a date that never goes back a device gets at most the configured number of actions per UTC day within one saved definition |
| FleetRuleRuns.AtMostOneLiveCommand | server/internal/store/fleet_rules.go:404-455 | At most one reaction command per rule and device is ever live, even across rule edits |
| FleetRuleOutcomes.PassIsExact | server/internal/store/fleet_rules.go:329-457 | In any run with a date that never goes back, a committed pass processes exactly the rule's devices; a new observation is acted on exactly when it is a known violation that fills the streak, the cooldown is over, the day's cap is not reached, no command of the rule and device is live, and the rule notifies or the device is online; an action adds one reaction, with a fresh queued command exactly for a restart; a clean observation cancels exactly the queued commands of rule and device |
| FleetRuleOutcomes.ObservationIsExact | server/internal/store/fleet_rules.go:382-455 | One observation has that outcome |
| FleetRuleOutcomes.ObservationFailsExactly | server/internal/store/fleet_rules.go:337-434 | An observation cannot be processed exactly when a query fails or a warranted restart cannot be signed under a fresh identifier |
| FleetRuleOutcomes.PassFailsOnlyOnFault | server/internal/store/fleet_rules.go:329-457 | A pass fails only where some observation cannot be processed |
| FleetRuleOutcomes.IdleRuleDoesNothing | server/internal/store/fleet_rules.go:303-328 | A pass of an unknown, disabled or unpermitted rule changes nothing |
| FleetRuleOutcomes.SaveIsExact | server/internal/store/fleet_rules.go:112-196 | A save is accepted exactly within the limits and with the permission; it forgets the rule's state rows, cancels its queued commands and touches nothing else |
| FleetRuleOutcomes.MemoryViolationIsExact | server/internal/store/fleet_rules.go:234-238 | Memory is violated exactly when the used share, where it makes sense, reaches the threshold |
| FleetRuleOutcomes.OtherViolationsAreExact | server/internal/store/fleet_rules.go:239-263 | Load is violated exactly when a known load reaches the threshold; kinds without telemetry are unknown |
| FleetRuleRuns.RunKeeps | server/internal/store/fleet_rules.go:294-458 | The invariant behind these holds after any run of saves, passes and agent changes |
| FleetRules.WanUnreachableExactly | server/internal/store/fleet_rules.go:249-261 | The WAN is known to be unreachable exactly when there are checks and every one says so, and unknown exactly when there are none or one without an outcome precedes any reachable one |
| FleetRuleStore.CountLive | server/internal/store/fleet_rules.go:414-417 | The count of live reaction commands is zero exactly when none is queued or claimed |
| FleetRuleStore.ObserveDevice | server/internal/store/fleet_rules.go:382-455 | The step-by-step processing of one observation refines the declarative one |
| FleetRuleStore.ReactionStore.AdvanceRule | server/internal/store/fleet_rules.go:294-458 | One pass over the compacted device list refines the declarative transaction and changes nothing when it fails |
| FleetRuleStore.ReactionStore.SaveRule | server/internal/store/fleet_rules.go:103-196 | Saving resets the rule's state rows and cancels its queued commands |
| IncidentRuns.OneIncidentPerCategory | server/internal/store/incidents.go:55-104 | Every reachable state has at most one incident per device and category |
| IncidentRuns.ActiveSourceHasIncident | server/internal/store/incidents.go:70-84 | An active source always has the incident of its device and category |
| IncidentRuns.SyncKeepsIdleExactly | server/internal/store/incidents.go:66-103 | An observation keeps "no active source means resolved" exactly when its source does not leave, as the last active one, a category whose incident is open |
| IncidentRuns.UpdateKeepsIdle | server/internal/store/incidents.go:200-258 | Manual actions keep it |
| IncidentRuns.IdleIncidentsAreResolved | server/internal/store/incidents.go:55-104 | For sources whose category never changes, an incident without an active source is resolved in every reachable state |
| IncidentRuns.CategoryChangeStrands | server/internal/store/incidents.go:62-66 | The condition is needed: two observations of one source in two categories leave an open incident without an active source |
| IncidentRuns.IdleIncidentIsResolvedExactly | server/internal/store/incidents.go:87-92 | An unresolved incident without an active source is resolved exactly by the next inactive observation of any source in its category, or by hand |
| IncidentRuns.RepeatedObservationIsSilent | server/internal/store/incidents.go:52-104 | A repeated identical observation changes nothing and adds no event |
| IncidentRuns.ReopensOnlyOnActivation | server/internal/store/incidents.go:93-101 | A resolved incident reopens only on an inactive-to-active transition of a source of its device and category, which adds one occurrence |
| IncidentOutcomes.SyncIsExact | server/internal/store/incidents.go:55-104 | What an observation makes of its source, its incident and the log: first activity opens, no activity resolves, a source turning active reopens, anything else leaves the incident as it is |
| IncidentOutcomes.SyncFailsExactly | server/internal/store/incidents.go:70-84 | An observation fails exactly when it needs a new incident and has no fresh identifier |
| IncidentOutcomes.AlertSourcesAreExact | server/internal/store/incidents.go:106-140 | After a sync each alert's source is active exactly while the alert is not resolved, under the listed category of its kind, and no other source changes |
| IncidentOutcomes.UnresolvedAlertsHaveIncidents | server/internal/store/incidents.go:106-140 | Every unresolved alert has the incident of its category |
| IncidentOutcomes.ObservedCategoriesSettle | server/internal/store/incidents.go:106-140 | In a category in which an alert was observed, an incident left without an active source is resolved, as long as no alert changes its category |
| IncidentOutcomes.AlertsSucceed | server/internal/store/incidents.go:106-140 | With fresh identifiers the sync does not fail |
| IncidentOutcomes.CategoriesAreListed | server/internal/store/incidents.go:30-41 | Which kinds fall into which category |
| IncidentOutcomes.UpdateAcceptsExactly | server/internal/store/incidents.go:200-250 | When a manual action is accepted |
| IncidentOutcomes.UpdateIsExact | server/internal/store/incidents.go:225-259 | It changes the status or the assignee of that incident alone and logs itself |
| IncidentRuns.LogReplaysToStatus | server/internal/store/incidents.go:69-104 | Replaying an incident's events gives its status, and its occurrences are one plus its reopened events, over all mixes of automatic and manual steps |
| Incidents.IncidentStore.SyncIncidentSource | server/internal/store/incidents.go:55-104 | The in-place writes of one observation are those of the declarative transaction |
| Incidents.IncidentStore.SyncAlertIncidents | server/internal/store/incidents.go:106-140 | All alerts of a device are folded in order, or nothing changes |
| Incidents.IncidentStore.UpdateIncident | server/internal/store/incidents.go:200-268 | A manual action changes the status or assignee and logs itself, or is refused and changes nothing |
| FleetHistory.TakeSample | server/internal/httpapi/fleet_history.go:75-130 | The loop body appends the point and events and covers the time that the declarative step says |
| FleetHistory.DeriveFleetHistory | server/internal/httpapi/fleet_history.go:42-142 | The loop over sorted samples and the closing arithmetic give the declarative history |
| FleetHistory.CoverageIsExact | server/internal/httpapi/fleet_history.go:94-139 | For any samples of which an accepted one is earlier than now: covered time plus reported gaps never exceeds the time since the first accepted sample, and equals it exactly when no accepted sample at the zero instant comes with an accepted later one |
| FleetHistory.ZeroSampleLosesTime | server/internal/httpapi/fleet_history.go:94-139 | Of a sample at the zero instant and any later one, everything up to the later one is neither covered nor a gap |
| FleetHistory.NonZeroTimesLoseNothing | server/internal/httpapi/fleet_history.go:94-139 | For samples with non-zero timestamps covered time plus gaps is exactly the time since the first accepted one |
| FleetHistory.AvailabilityIsExact | server/internal/httpapi/fleet_history.go:132-139 | Availability lies in 0..100 and is 100 exactly when no telemetry gap is reported and no accepted zero instant comes with an accepted later sample |
| FleetHistory.GapEventsAlternate | server/internal/httpapi/fleet_history.go:94-140 | In the sorted timeline gap and restored events alternate, starting with a gap, at strictly increasing instants |
| FleetHistory.RatesAreSafe | server/internal/httpapi/fleet_history.go:117-123 | Rates are never negative and only computed between neighbouring samples at most 120 seconds apart |
| FleetHistoryOutcomes.PointsAreExact | server/internal/httpapi/fleet_history.go:75-131 | One point per accepted sample in order, with a rate exactly where two successive samples allow one, equal to the difference of the counters in bits per second |
| FleetHistoryOutcomes.EventsAreExact | server/internal/httpapi/fleet_history.go:87-140 | A reboot, address, gap or restored event exactly where two successive accepted samples report it, and the gap that is open now |
| FleetHistoryOutcomes.AvailabilityIsShare | server/internal/httpapi/fleet_history.go:132-139 | Availability is the share of the observed time outside the reported gaps |
| FleetHistory.SortedInput | server/internal/httpapi/fleet_history.go:43-44 | The samples the loop sees are ordered by time |
| Digests.RowStream | server/internal/dbmigrate/migrate.go:1041-1071 | The loops feed the encoding of the rows, and fail exactly on a value that is neither NULL, text nor bytes |
| Digests.FeedRow | server/internal/dbmigrate/migrate.go:1051-1070 | One row feeds its cells after what was fed before |
| Digests.RowsRoundTrip | server/internal/dbmigrate/migrate.go:1051-1070 | For a fixed positive number of columns the hashed stream decodes back to the rows |
| Digests.RowStreamIsInjective | server/internal/dbmigrate/migrate.go:1031-1076 | Two tables of the same width feed the same stream exactly when they are equal |
| Digests.NoColumnsNoStream | server/internal/dbmigrate/migrate.go:1041-1071 | Without columns the stream is empty for any number of rows |
| Digests.NullIsAllOnes | server/internal/dbmigrate/migrate.go:1052-1055 | NULL is written as eight bytes of ones |
| Digests.MetadataStream | server/internal/dbmigrate/migrate.go:1084-1091 | The loop feeds the encoding of the names and values |
| Digests.MetadataRoundTrip | server/internal/dbmigrate/migrate.go:1084-1091 | The decimal-length stream decodes back, whatever bytes the names and values hold |
| Digests.MetadataStreamIsInjective | server/internal/dbmigrate/migrate.go:1078-1096 | Two metadata tables feed the same stream exactly when they are equal |
| LanClients.LeasePass | server/internal/store/clients.go:31-39 | The lease loop builds the merge of the leases |
| LanClients.NeighbourPass | server/internal/store/clients.go:40-70 | The neighbour loop updates the map as the declarative merge says |
| LanClients.StationPass | server/internal/store/clients.go:71-86 | The Wi-Fi loop updates the map as the declarative merge says |
| LanClients.ProbePass | server/internal/store/clients.go:87-107 | The probe loop updates the map as the declarative merge says |
| LanClients.UpsertClients | server/internal/store/clients.go:130-153 | Upserting in any order leaves one row per old or observed client, each computed from the rows before |
| LanClients.LanStore.SyncLANClients | server/internal/store/clients.go:21-164 | A sync rewrites exactly the device's rows, and an unreadable inventory changes nothing |
| LanClientTheorems.MergeIsExact | server/internal/store/clients.go:30-107 | Which clients exist, which are confirmed, how they connect and what confirms them, told from the leases, active non-WAN neighbours, stations and reachable probes alone |
| LanClientTheorems.OrderDoesNotMatter | server/internal/store/clients.go:30-107 | Keys, confirmation and connection do not depend on the order or repetition of observations |
| LanClientTheorems.SyncKeepsExactly | server/internal/store/clients.go:109-162 | After a sync exactly the observed clients and the earlier ones that are not on the WAN, unexplained or stale are stored |
| LanClientTheorems.UnseenMeansLease | server/internal/store/clients.go:122-153 | After every sync, whatever was stored before, a client never seen alive has confirmation "lease" |
| LanClientTheorems.RowsAreBacked | server/internal/store/clients.go:109-162 | Over any run of syncs each row's first-seen, last-seen and last-checked times come from syncs that observed the client, and alive where last seen says so |
| LanClientRows.MergedMacsMatch | server/internal/store/clients.go:208-217 | A client known by its MAC has that MAC, and any other has none |
| LanClientRows.HostNamesAreExact | server/internal/store/clients.go:31-39 | The host name is that of the last lease of the key, or none |
| LanClientRows.InterfacesAreExact | server/internal/store/clients.go:62-85 | The interface is that of the last station of the key, else of the last neighbour off the WAN |
| LanClientRows.LeasedAddressStays | server/internal/store/clients.go:31-63 | A leased address that is present and not IPv6 is kept whatever neighbours report |
| LanClientRows.PreferredIpIsExact | server/internal/store/clients.go:235-247 | The current address is kept unless it is missing, or is IPv6 and the other IPv4 |
| LanClientRows.ObservedRowIsExact | server/internal/store/clients.go:108-153 | Every column of an observed client after a sync: observed values win, missing ones keep what a surviving row had |
| LanClientRows.UnobservedRowStays | server/internal/store/clients.go:109-162 | A client that is not observed keeps its row or loses it |
| LanClientRows.WanNamesAreListed | server/internal/store/clients.go:228-233 | Which interfaces are on the WAN side |
| LanClientRows.StatesAreListed | server/internal/store/clients.go:219-226 | Which neighbour states are active, and which probes answered |
| LanClientRows.HostNamesAreClean | server/internal/store/clients.go:257-266 | A host name is the trimmed text, at most 253 characters of it, and nothing for an asterisk |
| LanClientRows.KeysAreExact | server/internal/store/clients.go:208-217 | A key tells a MAC from an IPv4 address, and there is one exactly for either |
| SemVer.ParseText | server/internal/httpapi/server.go:1394-1411 | The parsing loop over the three core parts gives the declarative parse |
| SemVer.ComparePrerelease | server/internal/httpapi/server.go:1434-1465 | The index loop computes the lexicographic comparison of the fields |
| SemVer.CompareSemver | server/internal/httpapi/server.go:1389-1432 | The whole comparison, and 1 when either version does not parse |
| SemVer.CompareFlipsExactly | server/internal/httpapi/server.go:1412-1431 | Swapping the sides flips the answer exactly when both versions parse |
| SemVer.CompareIsReflexiveExactly | server/internal/httpapi/server.go:1412-1431 | A version equals itself exactly when it parses |
| SemVer.CompareChains | server/internal/httpapi/server.go:1389-1465 | The comparison is transitive on versions that parse, strictly if either step is |
| SemVerPrecedence.ParseRendered | server/internal/httpapi/server.go:1394-1411 | A well-formed version reads back to its numbers and prerelease, and is refused exactly when a core number exceeds 64 bits |
| SemVerPrecedence.CompareMeetsRule | server/internal/httpapi/server.go:1389-1465 | On plain well-formed versions of any length the answer is the precedence of section 11 |
| SemVerPrecedence.FieldIsRightExactly | server/internal/httpapi/server.go:1436-1457 | Two different identifiers are put in the order of section 11 exactly when they are not one of the listed wrong pairs |
| SemVerPrecedence.PairIsRightExactly | server/internal/httpapi/server.go:1389-1465 | Two well-formed versions with readable cores are ordered by section 11 exactly when their cores differ or their first differing prerelease fields are not a wrong pair that no later field makes up for |
| SemVerPrecedence.RuleHoldsExactly | server/internal/httpapi/server.go:1434-1460 | A well-formed version is ordered by section 11 among all plain versions exactly when it is plain itself |
| WebVersions.FindsEveryMatch | web/version.js:7-8 | The matcher finds the groups of any text that the version pattern describes |
| WebVersions.FindsOnlyMatches | web/version.js:7-8 | What the matcher finds is a match of the whole text |
| WebVersions.ComparePrerelease | web/version.js:17-35 | The console's index loop computes its field comparison |
| WebVersions.CompareSemVer | web/version.js:37-45 | The console's whole comparison, and no answer when either version does not parse |
| WebVersions.WebCompareMeetsRule | web/version.js:6-45 | On well-formed versions with numbers below 2^53 the console's answer is the precedence of section 11 |
| WebVersions.ComparisonsAgree | web/version.js:6-45 | Server and console agree on well-formed versions with numbers below 2^53 and no identifier made of a hyphen and digits |
| WebVersions.LeadingV | web/version.js:7 | A leading "v" changes nothing for the console, and makes the version unreadable for the server |
| WebVersions.WebFieldsFlipExactly | web/version.js:17-35 | Swapping the sides flips the comparison of fields exactly when the first difference is not between two digit texts of the same number; there both answers are 1 |
| WebVersions.WebCompareFlipsExactly | web/version.js:37-45 | The whole comparison of readable versions flips exactly when the cores differ or the prereleases have no such tie |
| WebVersions.SmallFieldsDoNotTie | web/version.js:27-30 | Well-formed identifiers with numbers below 2^53 never tie |
| WebVersions.TiedIdentifiers | web/version.js:27-30 | Versions that differ only in two digit texts of the same number are each newer than the other, for a leading zero as for rounding |
| WebVersions.ServerSeesNoDifference | server/internal/httpapi/server.go:1434-1450 | The server answers 0 for two versions that differ only in two digit texts of the same number that fits 64 bits |
| WebVersions.LeadingZero | web/version.js:27-30 | An instance: versions with "01" and with "1" answer 1 both ways in the console and 0 in the server |
| RateLimiter.LoginRateLimiter.Allow | server/internal/httpapi/auth.go:414-424 | The answer and the removal of an expired entry |
| RateLimiter.LoginRateLimiter.Purge | server/internal/httpapi/auth.go:430-436 | The loop leaves exactly the entries that have not expired |
| RateLimiter.LoginRateLimiter.Fail | server/internal/httpapi/auth.go:426-443 | Purging above 1024 entries and then counting the attempt, in a new window when the old one has expired |
| RateLimiter.LoginRateLimiter.Success | server/internal/httpapi/auth.go:445-449 | The entry of the key is gone, all others stay |
| RateLimiter.PurgingIsInvisible | server/internal/httpapi/auth.go:430-436 | With a clock that does not go back, purging never changes an answer of any run of calls |
| RateLimiter.PurgingShowsWhenClockGoesBack | server/internal/httpapi/auth.go:430-436 | With more than 1024 entries and a clock that goes back, a purge changes an answer |
| RateLimiter.AttemptsAreBounded | server/internal/httpapi/auth.go:414-443 | With overlapping requests, any interval no longer than the window holds at most twice max(limit, 1) - 1 + overlap attempts of a key since its last success |
| RateLimiter.OneAtATimeIsTwiceTheLimit | server/internal/httpapi/auth.go:414-443 | With one request per key at a time that is twice the limit |
| RateLimiter.RefusalHasCause | server/internal/httpapi/auth.go:414-424 | A refusal means at least `limit` attempts without a success since, none older than the window |

## Left out

- SQL text, JSON, HTTP handlers and routing, cookies, notifications, metrics and process startup: input and output around the modelled logic.
- Signatures, encryption, password hashing and SHA-256: foreign library calls. A request hash is modelled as the payload it digests, and for database digests only the hashed stream is modelled.
- Permission, ownership and capability rules: each step takes their answer as an input that may change between steps.
- The clock within one pass over an operation: expiring commands, closing the window and refreshing items read one `now` here, where the code reads the time anew (the deadline results hold with `now` as the first of these readings); computing a command's time to live and signing it have readings of their own. A save of a schedule has the time it read before its transaction.
- Agents, command claiming and results: any change of the command table is allowed, except that nothing rewrites the expiry of a command or reuses its identifier, and, for reactions, that a finished command does not become live again.
- The `LIMIT 100` of the background queries: any active operation, rule, schedule or run may be the next one advanced.
- Device backup rows, audit rows, item error texts and message texts: they decide nothing that is modelled. Whether a backup is still being created is an input.
- Resolving per-device arguments of an agent update from stored releases: the resolved arguments are inputs.
- The ledger of issued commands is a history variable; the database does not store it.
- Deleting users, operations, schedules and rules, and the cascade of a device deletion into reaction and incident rows.
- FleetRuleStore.ReactionStore.SaveRule: does not model the limit of 100 rules per user or the replay of a repeated creation request, because both leave the tables as they are.
- Reservations by several servers at once: the slot results take reservations to be made in order of their times, as one loop makes them.
- Where an observation comes from (telemetry, a diagnostic report or the last contact) and decoding it: each observation carries its identifier and its violation and known flags. The incident source that a rule reports is modelled in `Incidents` and not wired to the rule.
- The time zone database: a map from instants to local dates and from local dates to optional slots, in which later dates have later slots and an instant lies after the slots of earlier dates and before those of later dates.
- FleetHistory.DeriveFleetHistory: the load, memory and address values of points are not modelled, and counters are exact reals without NaN.
- FleetHistory.CoverageIsExact: durations are unbounded; the code's difference of two instants saturates at 2^63 - 1 nanoseconds, about 292 years, which a sample at the zero instant beside present-day ones exceeds.
- FleetHistory.AvailabilityIsExact: the percentage is an exact real; the code's float64 quotient can round to 100 for a very short gap in a long span.
- FleetHistory.SortedInput: samples with equal timestamps are taken in a stable order, while the code's sort may order them either way.
- Digests.RowStream: reads the rows that the query returned; the order the query asks for is not modelled.
- LanClients.LanStore.SyncLANClients: its statements are not one transaction in the code; a database failure between them is not modelled.
- LanClients.NeighbourPass: parsing of MAC and IP addresses is an input; case folding and trimming are those of ASCII text.
- SemVer.CompareSemver: strings are sequences of characters and trimming is that of ASCII white space; a Go `int` has 64 bits.
- WebVersions.CompareSemVer: the conversion of digits to a number is any function that is exact below 2^53.
- RateLimiter.LoginRateLimiter.Fail: the counter is unbounded.
- Table copying and schema checks of the database migration, topology, backups comparison, agent rollouts and the user interface: easier or foreign to the state machines above.
