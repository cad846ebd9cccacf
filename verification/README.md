# A verified model of the Nexus proxy's stateful core

The proxy decides, for every chat completion, whether a request may go to a local model, whether the
rolling 24-hour budget allows the frontier model, and leaves an audit trail. This project models the
components that carry state across requests and proves what they keep:

- **The slot limiter** (`SlotProtocol`, `Limiter`). A mutex, a condition variable, a counter, a capacity
  that is re-read from a free-VRAM probe in every critical section, and cancellation by a callback that
  broadcasts. `SlotProtocol` is the step system: every critical section is one event, and the probe
  readings, the waiter that Signal picks, the scheduling and the cancellations are parameters of the
  events. Theorems about all legal event sequences therefore hold for every probe and every scheduler.
  `Limiter.Limiter` is the object; each of its methods is proved to be exactly one event.
- **The multi-GPU limiter** (`GpuLimiter`, `GpuDistribution`, `GpuLiveness`, `GpuSemaphores`). One slot
  protocol per GPU, a round-robin counter, and requests that walk the ring of GPUs when an attempt is given up.
- **The spend guard** (`BudgetGuard`, `SpendGuard`). A sorted window that every operation evicts
  physically by binary search, against the full, unevicted record of costs.
- **The admission protocol of the chat handler** (`Admission`). Estimate, Check, dispatch, Record, with
  other requests in between, at one configured price, against the unevicted ledger of what was recorded.
- **The bucketed spend tracker** (`SpendBuckets`, `SpendDisorder`, `SpendTracker`, `TrackerVsGuard`). Minute
  buckets, a sorted key list and a running total, against the exact window and against the guard.
- **The hash-chained audit log** (`AuditChain`, `AuditWriter`). Verification, tamper evidence, and the
  writer over whole histories with write failures, sync failures and reopening.
- **The environment expander** (`EnvTemplate`), **the config migrators** (`Text`, `Migrations`, `ValueInForce`) and
  **the credential index** (`Credentials`).

Components whose fields the program updates in place are classes here; a specification on values stands
beside each of them, every method is proved equal to one step of it, and the theorems about runs are
proved about the specification.

## Assumptions

- Critical sections are atomic. A context that ends while its request waits has its callback scheduled in
  the same step, so that whoever observes the error knows that the broadcast is on its way or has happened.
  A callback may run late; a context that ends just after a grant may or may not still run it.
- Contexts end by a step of the environment, a ghost method of the limiter objects that touches no real field.
- A release function is called once per grant, as its documentation demands; what a surplus call does to the counter is
  stated separately (`ReleaseLocked`, `SurplusReleaseIsHarmless`).
- Amounts are `real`; rounding is not modelled. Integers are unbounded.
- Clock readings are parameters that never decrease along a run, in the order in which the operations take
  the lock; an operation that reads the clock twice has two parameters. The tracker's Record reads its clock
  before it takes the lock, so for it this is an assumption about lock order. The tracker's representation
  invariant is proved without it, under any clock, and `SpendDisorder` bounds the total in any order. The bounds
  of the tracker's total take clocks after the epoch, because the division into minutes truncates towards zero.
- The price of a token is one constant: it is read from the configuration once for the life of the process.
- SHA-256 is symbolic: a digest is the pair of what was hashed, hence collision-free. A stored hash field may
  be any digest or any other text.
- Strings are sequences of characters; the code looks only at ASCII bytes in the places where it matters.

## Where the code differs from its own comments

The model follows the code.

- The multi-GPU limiter's comments promise a total of at most `ceiling` and that a full GPU passes a request
  on. The total is capped at `ceiling` if and only if `gpuCount` divides it (`TotalIsBounded`,
  `CeilingIsExceededUnlessDivisible`), and a request parks on its first GPU however idle the others are
  (`FullGpuDoesNotFallThrough`).
- The limiter is said to wake blocked acquirers when the effective count grows. Growth is noticed only between
  the two readings of one release. The guarantee that holds is relative to the readings on which callers
  parked (`NoIdleSlot`), and it is the best possible (`GrowthLeavesSlotIdle`).
- The tracker drops a minute as a whole once its first entry has expired: its total is exact if and only if
  no entry of the last 24 hours shares its minute with an older one (`TotalIsExactIff`,
  `SharedMinuteIsForgotten`). The branch of the pruning that expires part of a bucket is unreachable under any
  clock (`PruneLocked`).
- Opening continues the chain from the last stored hash "so the file stays verifiable across restarts"
  (internal/audit/audit.go:153-154), and the auditor overwrites hash fields so that callers cannot break the
  chain. A failed sync breaks it nonetheless: the line is in the file and the tip does not advance, so the next
  line of the same session forks the chain (`FailedSyncForks`). `HistoryVerifiesIff` gives the exact condition.
- The `.env` migrator is said to comment out a line when the replacement is already set elsewhere. It
  keeps both lines (`DuplicatesAreKept`), and the value in force of the replacement may change
  (`ValueChangesIff`). It also looks for the old name from the start of the line, so a name
  that is a part of the word `export` is exchanged in the wrong place (`NameInsideExportIsMisplaced`).

## Where a round trip or a limit has a condition

- An escaped template reads back if and only if no literal backslash stands directly before a reference
  (`RoundTripIff`, `BackslashBreaksRoundTrip`).
- The budget is checked before a call and recorded after it. What can be recorded beyond the limit in between is
  exactly known (`OvershootIsReached`), and it is nothing if and only if requests come one at a time or no token can
  be afforded (`LimitIsKeptIff`). What is served and cut off is not recorded at all (`TruncationIsNotRecorded`).

## Model

| member | source | states |
|---|---|---|
| SlotProtocol.Effective | internal/concurrencylimit/limiter.go:123-160 | A disabled limiter has no slots; an enabled one has between one and `ceiling`, and all of them when the probe is unavailable |
| SlotProtocol.EffectiveIsLargestFit | internal/concurrencylimit/limiter.go:136-151 | With a reading, the slots are the most, up to `ceiling`, whose reservations fit into the free memory together, but at least one |
| SlotProtocol.StepKeepsInv | internal/concurrencylimit/limiter.go:170-240 | Every event keeps: the counter is the number of granted and unreleased visits, at most `ceiling`; only cancelled visits gave up; a cancelled visit stays parked only while a broadcast is pending |
| SlotProtocol.SlotSafety | internal/concurrencylimit/limiter.go:170-240 | Over every run, under all readings, cancellations and schedules, `inFlight` is grants minus releases and stays in [0, ceiling] |
| SlotProtocol.ShrunkCapacityOnlyDrains | internal/concurrencylimit/limiter.go:53-60 | While readings stay at or below `e`, the number of held slots never rises above `e` or what it was, so an excess only drains |
| SlotProtocol.HolderIsNotPreempted | internal/concurrencylimit/limiter.go:56-60 | Whatever the readings, a holder keeps its slot until its own release |
| SlotProtocol.StepKeepsFloor | internal/concurrencylimit/limiter.go:170-240 | Every event keeps: somebody is parked only if `floor` slots are held or about to be contested by live woken callers, or a broadcast is pending |
| SlotProtocol.NoIdleSlot | internal/concurrencylimit/limiter.go:170-240 | If all callers that parked did so on readings of at least `floor`, that floor holds in every reachable state; in particular with a stable probe |
| SlotProtocol.NoStall | internal/concurrencylimit/limiter.go:123-240 | Under any readings and cancellations a parked caller implies a held slot, a live woken caller or a pending broadcast |
| SlotProtocol.NobodyWaitsAtRest | internal/concurrencylimit/limiter.go:170-240 | When nothing is about to happen, nobody waits while fewer than `floor` slots are held |
| SlotProtocol.GrowthWakesEveryone | internal/concurrencylimit/limiter.go:228-236 | A release that sees capacity grow between its two readings leaves nobody parked and wakes everybody who was |
| SlotProtocol.SignalWakesOne | internal/concurrencylimit/limiter.go:228-238 | Any other release wakes exactly the waiter that Signal picks and leaves the others parked |
| SlotProtocol.CallbackWakesEveryone | internal/concurrencylimit/limiter.go:185-189 | A cancellation callback leaves nobody parked and wakes everybody who was |
| SlotProtocol.ReleaseFrame | internal/concurrencylimit/limiter.go:222-240 | A release changes the phase of no one else |
| SlotProtocol.SurplusReleaseIsHarmless | internal/concurrencylimit/limiter.go:225-227 | A release too many never takes the counter below zero |
| SlotProtocol.GrowthResetsFloor | internal/concurrencylimit/limiter.go:222-240 | After a release that sees capacity grow, only the readings of later parks count for the floor, whatever earlier parks read |
| SlotProtocol.CallbacksAreConserved | internal/concurrencylimit/limiter.go:170-189 | Over every run the pending callbacks are those scheduled, for every context that ended while its visit waited or before it arrived, less those that ran |
| SlotProtocol.GrowthLeavesSlotIdle | internal/concurrencylimit/limiter.go:222-240 | For every pair of readings with a higher capacity at the second one, a run in which capacity grows, a release reads the new capacity twice, and a caller stays parked at rest beside a free slot |
| SlotProtocol.DrainIsBounded | internal/concurrencylimit/limiter.go:170-240 | Without new arrivals and cancellations every sequence of passes, releases and callbacks is bounded by a weight of the state it starts in |
| SlotProtocol.EveryCallerIsServedOrLeaves | internal/concurrencylimit/limiter.go:162-168 | Where such a sequence can go on no further, every caller has been served or, with its context ended, has left: while holders release, no caller waits forever |
| SlotProtocol.DoneContextNeverBlocks | internal/concurrencylimit/limiter.go:22-24 | Even if no holder ever releases: passes and callbacks are bounded in number, and where none is left to happen every caller that waited with its context done has left |
| Limiter.Limiter.constructor | internal/concurrencylimit/limiter.go:93-104 | A new limiter is in the initial state of the protocol, with the default reservation of 2 GiB for a non-positive one |
| Limiter.Limiter.EffectiveLocked | internal/concurrencylimit/limiter.go:123-160 | The clamped quotient is the capacity of the protocol, and it is remembered as the last one |
| Limiter.Limiter.Arrive | internal/concurrencylimit/limiter.go:170-187 | A disabled limiter is bypassed without a trace; otherwise the call is the arrival event of the protocol |
| Limiter.Limiter.ContextEnds | internal/concurrencylimit/limiter.go:177-189 | The environment's step that ends a context and schedules its callback is the cancel event; the object is untouched |
| Limiter.Limiter.Pass | internal/concurrencylimit/limiter.go:189-201 | One iteration of the wait loop is one pass event: it gives up, takes a slot, or waits, and says which |
| Limiter.Limiter.ReleaseLocked | internal/concurrencylimit/limiter.go:222-240 | Whatever the state: the counter falls by one but not below zero, and everybody or one waiter leaves the wait list as the two readings say |
| Limiter.Limiter.Release | internal/concurrencylimit/limiter.go:222-240 | A release with its two readings, and the Signal or Broadcast that follows, is one release event |
| Limiter.Limiter.Broadcast | internal/concurrencylimit/limiter.go:185-189 | The cancellation callback is one callback event |
| GpuLimiter.VisitsStayOk | internal/concurrencylimit/limiter.go:376-392 | In every reachable fleet each visit sits on the GPU its attempt selects, and no attempt after the first ever holds a slot |
| GpuLimiter.FleetSafety | internal/concurrencylimit/limiter.go:376-463 | In every reachable fleet each GPU counts its grants exactly, stays within its share and stalls nobody |
| GpuLimiter.FailedRequestNeverHolds | internal/concurrencylimit/limiter.go:376-448 | A request that failed at some moment of a run holds a slot at no moment of it, earlier or later, on any GPU |
| GpuLimiter.HistoryStaysOk | internal/concurrencylimit/limiter.go:376-392 | In every reachable fleet all attempts of a request before its current one have left, and so has the last attempt of a failed request |
| GpuLimiter.FailedRequestTriedEveryGpu | internal/concurrencylimit/limiter.go:383-391 | A request that failed has left on every GPU of the ring, and at last on the first one of its walk again |
| GpuLimiter.PerGpuIsLargestFit | internal/concurrencylimit/limiter.go:336-351 | A GPU's slots are the most, up to its share, whose reservations of the configured size fit into its free memory, but at least one; its share when the probe is unavailable |
| GpuLimiter.EnterIsArrive | internal/concurrencylimit/limiter.go:394-403 | Entering a GPU is the arrival of the slot protocol, after the end of the context if it has ended |
| GpuDistribution.CeilDivBounds | internal/concurrencylimit/limiter.go:315 | The shares hold the ceiling with less than one share's worth to spare |
| GpuDistribution.CeilDivExact | internal/concurrencylimit/limiter.go:315 | Nothing is to spare if and only if the GPU count divides the ceiling |
| GpuDistribution.RingIsMod | internal/concurrencylimit/limiter.go:385-391 | Walking around the ring is the remainder by the GPU count |
| GpuDistribution.SlotsFollowRoundRobin | internal/concurrencylimit/limiter.go:376-392 | Whoever holds or held a slot on GPU g is the k-th caller for a k with k mod gpuCount = g |
| GpuDistribution.FirstCallsAreBalanced | internal/concurrencylimit/limiter.go:383-385 | In every reachable fleet the numbers of requests that chose two GPUs first differ by at most one |
| GpuDistribution.TotalIsBounded | internal/concurrencylimit/limiter.go:288-294 | Each GPU holds at most ceil(ceiling/gpuCount); the total stays below ceiling + gpuCount, and within the ceiling when gpuCount divides it |
| GpuDistribution.CeilingIsExceededUnlessDivisible | internal/concurrencylimit/limiter.go:288-294 | For every configuration in which gpuCount does not divide the ceiling there is a run that holds more than `ceiling` slots |
| GpuDistribution.FullGpuDoesNotFallThrough | internal/concurrencylimit/limiter.go:394-420 | In every reachable fleet a caller whose first GPU is full parks there and no other GPU is touched |
| GpuLiveness.NoIdleSlotOnGpu | internal/concurrencylimit/limiter.go:394-463 | On every GPU on which callers parked only on readings of at least `floor`, a parked caller implies that `floor` slots are held or about to be contested, or a pending broadcast |
| GpuLiveness.GrowthWakesGpu | internal/concurrencylimit/limiter.go:450-463 | A release that sees its GPU's capacity grow wakes everybody parked there and touches no other GPU |
| GpuLiveness.OnlyDoneRequestsFail | internal/concurrencylimit/limiter.go:366-369 | In every reachable fleet only requests whose context has ended have failed |
| GpuLiveness.FleetDrainIsBounded | internal/concurrencylimit/limiter.go:376-463 | Without new calls and cancellations the walking, waiting and releasing take a number of steps bounded by a weight of the fleet |
| GpuLiveness.EveryRequestIsServedOrFails | internal/concurrencylimit/limiter.go:366-369 | Where these steps cannot go on, every request has been served or, with its context ended, has failed |
| GpuLiveness.DoneRequestNeverBlocks | internal/concurrencylimit/limiter.go:376-448 | Even if no holder ever releases, a request that waits with its context done walks the rest of the ring and fails |
| GpuSemaphores.GpuSemaphores.constructor | internal/concurrencylimit/limiter.go:304-324 | Disabled for a non-positive ceiling or GPU count, otherwise an empty fleet with the ceiling shared out |
| GpuSemaphores.GpuSemaphores.EffectivePerGpuLocked | internal/concurrencylimit/limiter.go:336-364 | The capacity of a GPU is that of a limiter with the GPU's share as its ceiling |
| GpuSemaphores.GpuSemaphores.Begin | internal/concurrencylimit/limiter.go:376-385 | Drawing a ticket and entering the GPU at the ticket modulo gpuCount is one event of the fleet; a disabled limiter is bypassed |
| GpuSemaphores.GpuSemaphores.ContextEnds | internal/concurrencylimit/limiter.go:394-399 | The environment's step that ends a request's context and schedules the callback of the GPU it waits for is one event of the fleet; the object is untouched |
| GpuSemaphores.GpuSemaphores.Retry | internal/concurrencylimit/limiter.go:384-391 | After an attempt is given up the request enters the next GPU of the ring, the first one again after a full round, and then fails |
| GpuSemaphores.GpuSemaphores.Pass | internal/concurrencylimit/limiter.go:401-419 | One iteration of the wait loop on a GPU is one pass event there and nothing elsewhere |
| GpuSemaphores.GpuSemaphores.ReleaseGpuLocked | internal/concurrencylimit/limiter.go:450-463 | Whatever the state: the GPU's counter falls by one but not below zero, everybody or one waiter leaves its wait list as the two readings say, and no other GPU changes |
| GpuSemaphores.GpuSemaphores.ReleaseGpu | internal/concurrencylimit/limiter.go:450-463 | A release is one release event on its GPU and nothing elsewhere |
| GpuSemaphores.GpuSemaphores.Broadcast | internal/concurrencylimit/limiter.go:395-399 | The cancellation callback of a GPU is one callback event there |
| BudgetGuard.QueriesAreObservationallyPure | internal/budget/budget.go:96-208 | Inserting any number of Check, WouldExceed, State and Remaining calls anywhere in a run changes the answer of no other call |
| BudgetGuard.WindowStaysSorted | internal/budget/budget.go:119-136 | Through every run the window is sorted, holds positive costs and nothing later than the clock |
| BudgetGuard.WindowIsExact | internal/budget/budget.go:229-240 | Through every run, at any later time, the evicted window and the full record have the same last 24 hours |
| BudgetGuard.SnapshotIsExact | internal/budget/budget.go:169-175 | A snapshot after any run reports the exact sum of the last 24 hours, what remains of the limit in force, and whether it is exhausted |
| BudgetGuard.NextResetIsExact | internal/budget/budget.go:253-266 | A snapshot after any run announces the reset 24 hours after the oldest payment of the last 24 hours, or 24 hours from now when there is none |
| BudgetGuard.RemainingIsExact | internal/budget/budget.go:182-191 | Remaining after any run is what the limit in force leaves over the last 24 hours, never less than zero |
| BudgetGuard.LimitInForce | internal/budget/budget.go:84-89 | After any run the limit in force is the last one set, if positive, and else none |
| BudgetGuard.DisabledGuardIsSilent | internal/budget/budget.go:91-165 | While the last limit set is not positive, nothing is rejected, announced or recorded |
| BudgetGuard.RecordIsKept | internal/budget/budget.go:111-136 | The record grows by exactly the cost and source given, stamped with the second clock reading, for every positive cost under a positive limit |
| BudgetGuard.WindowIsADay | internal/budget/budget.go:229-234 | The window is 86400 seconds |
| BudgetGuard.VerdictIsExact | internal/budget/budget.go:91-109 | Check and WouldExceed reject exactly the costs that exceed a positive limit on top of the last 24 hours |
| BudgetGuard.NextResetIsTight | internal/budget/budget.go:253-266 | Without new records nothing is evicted up to the announced reset, and strictly after it the spent sum falls |
| BudgetGuard.ApproachingFiresOnRisingEdge | internal/budget/budget.go:138-165 | Without SetLimit, a call returns true if and only if it sees 80% of the limit reached and the previous call, if any, did not |
| BudgetGuard.ApproachingAlternates | internal/budget/budget.go:138-165 | Between two calls that return true there is one that saw spend below the threshold |
| BudgetGuard.AlertInAnyRun | internal/budget/budget.go:138-165 | In every run, also with SetLimit: a call returns true if and only if a limit is in force, it sees high spend, and the last call under a limit since the last SetLimit did not |
| BudgetGuard.HighIsFourFifths | internal/budget/budget.go:151-155 | Against the full record, spend is high at four fifths of the limit in force |
| SpendGuard.SearchFirstLive | internal/budget/budget.go:234-236 | Binary search in a sorted window splits it into the expired entries and those to keep |
| SpendGuard.SumCosts | internal/budget/budget.go:244-250 | The loop computes the sum of the window |
| SpendGuard.SpendGuard.constructor | internal/budget/budget.go:79-89 | A new guard has an empty window; a non-positive limit disables it |
| SpendGuard.SpendGuard.EvictLocked | internal/budget/budget.go:229-240 | The in-place shift leaves exactly the entries at or after the cutoff |
| SpendGuard.SpendGuard.CurrentSpentLocked | internal/budget/budget.go:244-250 | The spent amount is the sum over the window |
| SpendGuard.SpendGuard.CopyStateLocked | internal/budget/budget.go:253-266 | The snapshot agrees with the specification, including the announced reset |
| SpendGuard.SpendGuard.Check | internal/budget/budget.go:96-109 | One Check step of the specification: eviction, nothing else changed, and the verdict that VerdictIsExact characterises; a disabled guard never rejects |
| SpendGuard.SpendGuard.WouldExceed | internal/budget/budget.go:198-208 | One WouldExceed step of the specification, with the same verdict as Check and nothing recorded |
| SpendGuard.SpendGuard.Remaining | internal/budget/budget.go:182-191 | One Remaining step of the specification: the limit less the window's sum, never negative |
| SpendGuard.SpendGuard.State | internal/budget/budget.go:169-175 | One State step of the specification: evicted at the first clock reading, the snapshot that SnapshotIsExact characterises |
| SpendGuard.SpendGuard.CheckApproaching | internal/budget/budget.go:145-165 | One CheckApproaching step of the specification: the flag remembers what this call saw, and the answer is the rising edge; a disabled guard leaves the flag alone |
| SpendGuard.SpendGuard.Record | internal/budget/budget.go:119-136 | Nothing for a non-positive cost or a disabled guard; otherwise eviction and one entry stamped with the second clock reading |
| SpendGuard.SpendGuard.SetLimit | internal/budget/budget.go:220-225 | The limit is normalised, the alert rearmed, the window kept |
| Admission.FrontierCostIsProduct | internal/handlers/chat.go:1819-1823 | The estimate is the token count times the configured price per thousand, divided by a thousand |
| Admission.TokensIsGreatest | internal/handlers/chat.go:1819-1823 | A price and an amount determine the greatest number of tokens that costs no more |
| Admission.InvHolds | internal/handlers/chat.go:2299-2367 | Over every run, the guard's window plus pending costs stay within the bound, every one of them is positive and a whole number of tokens, and a pending one is at most the greatest cost that can be admitted |
| Admission.WindowIsLedger | internal/handlers/chat.go:2414-2418 | Through every run the guard's window, seen now or later, holds exactly what was recorded in the 24 hours before, of all that was ever recorded |
| Admission.OvershootIsBounded | internal/handlers/chat.go:2299-2420 | With at most n requests between Check and Record, each costing at most C, what is recorded in any 24 hours whatsoever is at most what fits into the limit in whole tokens plus n - 1 times the greatest cost that can be admitted; from the last event on, also together with what is pending |
| Admission.BoundInTokens | internal/handlers/chat.go:2299-2420 | Where a token can be admitted, that bound is the price of L + (n - 1) * m tokens, for the L tokens that fit into the limit and the m that a single request may have |
| Admission.BoundForAnyPrice | internal/handlers/chat.go:2299-2420 | Whatever the price, the bound is at most limit + (n - 1) * min(C, limit) |
| Admission.OvershootIsReached | internal/handlers/chat.go:1890-1995 | The bound is the exact maximum: for every limit, price, greatest cost and n there is a run at that one price in which it is recorded |
| Admission.LimitIsKeptIff | internal/handlers/chat.go:2299-2420 | The limit is kept in every 24 hours of every run if and only if at most one request at a time is between its Check and its Record, or a token has no price, or a single token costs more than the limit or than any request |
| Admission.TruncationIsNotRecorded | internal/handlers/chat.go:2388-2418 | Streams that are cut off are served in part and never recorded: any number of them, one at a time, leaves the ledger and the guard empty |
| Admission.StepIsFair | internal/handlers/chat.go:2299-2420 | An event admits or removes one request at most and every other one keeps its cost; free requests are not even checked |
| Admission.AdmittedIsConserved | internal/handlers/chat.go:2299-2420 | Over every run the costs admitted are those recorded, with the same amount, those of streams cut off, those failed and those pending |
| SpendBuckets.PruneKeepsRep | internal/budget/tracker.go:75-120 | Pruning keeps the key list strictly increasing and equal to the bucket keys, each bucket's sum that of its entries, and the total that of the buckets |
| SpendBuckets.AddKeepsRep | internal/budget/tracker.go:148-158 | Recording keeps the same invariant, whether or not the minute has a bucket, and under any clock |
| SpendBuckets.InsertKeyIsSorted | internal/budget/tracker.go:153-154 | Appending a key and sorting leaves the keys strictly increasing |
| SpendBuckets.BucketIsMinute | internal/budget/tracker.go:71-73 | Two times share a bucket if and only if they lie in the same minute; 24 hours are 1440 of them |
| SpendBuckets.Final | internal/budget/tracker.go:75-173 | The representation invariant holds after every run, whatever the clock readings were |
| SpendBuckets.TrackerHoldsSuffix | internal/budget/tracker.go:75-163 | The buckets hold, in order, a suffix of everything recorded that never splits a minute, and what is gone had expired |
| SpendBuckets.TotalIsSumOfUnexpired | internal/budget/tracker.go:165-173 | After any history the reported total is the sum of exactly the entries whose minute holds nothing older than 24 hours |
| SpendBuckets.TotalIsWithinAMinute | internal/budget/tracker.go:71-173 | The total is at most the exact 24-hour sum and at least the exact sum of the window shortened by one minute |
| SpendBuckets.TotalIsExactIff | internal/budget/tracker.go:86-91 | The total is exact if and only if no entry of the last 24 hours shares its minute with an older one |
| SpendBuckets.SharedMinuteIsForgotten | internal/budget/tracker.go:86-91 | Of any two payments in one minute both are forgotten as soon as the first has expired, although the second still counts: the total is zero and the exact sum is not |
| SpendDisorder.TotalInAnyOrder | internal/budget/tracker.go:139-173 | In whatever order records take the lock: the total is at most the exact sum of the last 24 hours and a minute, and at least that of the last 24 hours less a minute, counted back from the latest clock reading |
| SpendDisorder.LateEntryOutlivesWindow | internal/budget/tracker.go:143-146 | Of any two records of one minute that take the lock in the wrong order, the older one is still counted when it is more than 24 hours old |
| SpendBuckets.RetryAfterIsTight | internal/budget/tracker.go:182-199 | Without new records nothing is pruned up to the announced instant, and strictly after it the total falls |
| SpendTracker.SpendTracker.NewSpendTracker | internal/budget/tracker.go:47-56 | There is a tracker if and only if the budget is positive, and it starts empty |
| SpendTracker.SpendTracker.PruneLocked | internal/budget/tracker.go:75-120 | The loop drops exactly the leading buckets whose first entry has expired; its partial-expiry branch is unreachable under any clock |
| SpendTracker.SpendTracker.CountOlder | internal/budget/tracker.go:93-96 | The number of leading entries older than the cutoff |
| SpendTracker.SpendTracker.WouldExceed | internal/budget/tracker.go:122-137 | A positive amount is rejected exactly when the pruned total plus the amount exceeds the budget; a non-positive one is not even pruned for |
| SpendTracker.SpendTracker.Record | internal/budget/tracker.go:139-163 | Nothing for a non-positive amount; otherwise pruning, then one entry in its minute |
| SpendTracker.SpendTracker.AddEntry | internal/budget/tracker.go:148-158 | The bucket, key list and total after an entry are those of the specification, and the invariant is kept |
| SpendTracker.SpendTracker.CurrentSpend | internal/budget/tracker.go:165-173 | The total after pruning |
| SpendTracker.SpendTracker.RetryAfter | internal/budget/tracker.go:182-199 | The distance from the second clock reading to the instant at which the oldest bucket expires, never negative, zero when nothing is recorded |
| TrackerVsGuard.SameRuns | internal/budget/tracker.go:139-163 | Over a common history, guard and tracker are given the same record |
| TrackerVsGuard.GuardIsExact | internal/budget/budget.go:91-109 | After that history the guard rejects exactly what exceeds the limit on top of the tracker's exact 24-hour history |
| TrackerVsGuard.TrackerRejectsOnlyWhatGuardRejects | internal/budget/tracker.go:122-137 | The tracker rejects only what the exact guard rejects, and rejects every positive amount that exceeds the limit on top of the last 24 hours less one minute |
| AuditChain.Verify | internal/audit/reader.go:11-71 | Accepts exactly the intact logs; otherwise the reported line is the first at which the log stops being intact, with the matching kind of fault |
| AuditChain.PrefixIsAccepted | internal/audit/reader.go:23-71 | Every prefix of an accepted log is accepted |
| AuditChain.SameTipSameRows | internal/audit/audit.go:75-86 | Two intact logs with the same last hash are identical row for row |
| AuditChain.HashPinsPrefix | internal/audit/audit.go:75-86 | Where the hash of a row of one intact log occurs in another, it occurs at the same index and everything before it is the same |
| AuditChain.ReplacementIsDetectedIff | internal/audit/reader.go:11-22 | Exchanging a row is detected unless nothing changes or it is the last row and the new one is correctly chained |
| AuditChain.DeletionIsDetectedIff | internal/audit/reader.go:11-22 | Deleting a row is detected unless it is the last one |
| AuditChain.InsertionIsDetected | internal/audit/reader.go:11-22 | Inserting a row before the end is detected |
| AuditChain.ReorderingIsDetected | internal/audit/reader.go:11-22 | Every reordering but the identity is detected |
| AuditWriter.HistoryVerifiesIff | internal/audit/audit.go:155-227 | From an intact log, any history of opening, recording, failing, closing and reopening leaves a log that verifies if and only if no line was written while an earlier line of the session was written but not acknowledged |
| AuditWriter.FailedSyncForks | internal/audit/audit.go:204-213 | On any intact log, a failed sync followed by a record that works leaves a log that does not verify |
| AuditWriter.HonestHistoryVerifies | internal/audit/audit.go:155-214 | Without a failed sync every history verifies and the auditor continues from the last row's hash, whatever hash fields the callers supplied |
| AuditWriter.LogOnlyGrows | internal/audit/audit.go:184-214 | No history rewrites what is in the file |
| AuditWriter.SubmittedIsRecorded | internal/audit/audit.go:184-214 | Over every history the attribution fields that stand in the file are those that were submitted, unaltered and in order, while the log was open and the write did not fail |
| AuditWriter.OutcomesThatAgree | internal/audit/audit.go:204-213 | Without syncing a sync cannot fail; a failed write leaves log and tip as they were |
| AuditWriter.ReadLastHash | internal/audit/audit.go:232-255 | The hash of the last entry, none for a log without entries, an error if and only if some line does not parse |
| AuditWriter.FileAuditor.OpenAuditor | internal/audit/audit.go:155-179 | Opening continues the chain at the last entry or at genesis, and fails if and only if the log does not parse |
| AuditWriter.FileAuditor.Record | internal/audit/audit.go:184-214 | File and tip after a record with a given outcome of write and sync are those of the specification; an error is returned exactly when the tip does not advance, and always after Close |
| AuditWriter.FileAuditor.Close | internal/audit/audit.go:218-227 | Closing leaves the file as it is, and may be repeated |
| EnvTemplate.ScanToken | internal/config/file.go:192-231 | One turn of the scan writes and consumes exactly the token at the front, and always advances |
| EnvTemplate.ExpandEnv | internal/config/file.go:188-233 | The scan terminates on every input with the meaning of the text |
| EnvTemplate.RoundTripIff | internal/config/file.go:185-233 | Expanding the text of a template of literals, dollar signs that begin no reference, and braced and bare references yields the literals and the values if and only if no literal backslash directly precedes a reference or such a dollar sign |
| EnvTemplate.BackslashBreaksRoundTrip | internal/config/file.go:194-199 | For every name, the template of a literal backslash and a braced reference to it does not read back |
| EnvTemplate.PlainTextIsKept | internal/config/file.go:188-233 | A text without a dollar sign is left alone |
| EnvTemplate.LoneDollarIsKept | internal/config/file.go:207-226 | A dollar sign that begins no reference, or a brace that is never closed, is kept and the scan goes on behind it |
| EnvTemplate.BracedIsLookup | internal/config/file.go:207-217 | A braced reference becomes the variable's value, and nothing for an unknown variable |
| EnvTemplate.BareIsLookup | internal/config/file.go:219-231 | So does a bare one, of letters, digits and underscores |
| EnvTemplate.NameByteIff | internal/config/file.go:235-240 | Those are the bytes of a bare name |
| Migrations.RewriteLines | internal/config/deprecations.go:143-162 | The loop rewrites exactly the matching lines in place, and counts them |
| Migrations.CountIsNumber | internal/config/deprecations.go:143-212 | The count is the number of matching lines |
| Migrations.MigrateContent | internal/config/deprecations.go:188-212 | The new text is the rewritten lines joined, and the count is the number of matching lines; with a count of zero the text comes back character by character |
| Migrations.MatchIsLookup | internal/config/deprecations.go:167-179 | The prefix search over the registry finds a rule exactly for assignments to the rule's old variable |
| Migrations.KeyIsFirstOccurrence | internal/config/deprecations.go:143-162 | In a matching line the first occurrence of a name outside the word `export` is the key itself |
| Migrations.NameInsideExportIsMisplaced | internal/config/deprecations.go:154-156 | For every name inside the word `export` there is a matching line in which the first occurrence precedes the key |
| Migrations.EnvLineMeaning | internal/config/deprecations.go:136-162 | A `.env` line keeps its lead and value and changes only the variable; a removed one becomes a comment; other lines say what they said; no migrated line matches again |
| Migrations.AssignmentIsRenamed | internal/config/deprecations.go:143-179 | With any blanks and with or without `export ` in front: exactly the text after a migration, for a kept, a renamed and a removed variable |
| Migrations.CommentIsKept | internal/config/deprecations.go:136-142 | Comments in a `.env` file are never touched |
| Migrations.NoVariableIsKept | internal/config/deprecations.go:167-179 | Nor are lines without an assignment or without a variable |
| Migrations.FirstEnvRule | internal/config/deprecations.go:167-179 | The first rule for the variable decides |
| Migrations.YamlLineMeaning | internal/config/deprecations.go:181-212 | A top-level YAML line keeps everything from its colon on; a removed key becomes a comment; other lines say what they said; no migrated line matches again |
| Migrations.NestedLinesAreKept | internal/config/deprecations.go:181-198 | Indented lines, comments, empty lines and lines without a key are neither matched nor touched, in any text |
| Migrations.TopLevelKeyIsRenamed | internal/config/deprecations.go:188-210 | A top-level line with any white space before its colon: exactly the text after a migration, for a kept, a renamed and a removed key |
| Migrations.FirstYamlRule | internal/config/deprecations.go:106-113 | The first rule with the key decides, and there is none only when no rule has it |
| Migrations.MigrationPreservesMeaning | internal/config/deprecations.go:143-212 | For every text, the number of lines is kept, unmatched lines are untouched, and every line of the re-read result says what it said up to the renaming |
| Migrations.MigrationIsIdempotent | internal/config/deprecations.go:143-212 | A second migration returns the same text with a count of zero |
| Migrations.ChangedIffCounted | internal/config/deprecations.go:136-212 | A migration changes the text if and only if its count is positive |
| Migrations.DeprecatedReplacementMigratesTwice | internal/config/deprecations.go:188-212 | When a YAML replacement is itself deprecated, there is a text that a second migration changes again |
| Migrations.DeprecatedVariableMigratesTwice | internal/config/deprecations.go:143-162 | The same for `.env` variables |
| Migrations.DuplicatesAreKept | internal/config/deprecations.go:136-142 | In every file that sets both an old variable and its replacement, both lines survive the migration and then set the same variable |
| ValueInForce.LastOfAnyWins | internal/config/deprecations.go:143-162 | With the last assignment in force, after a migration the last line that sets the variable or one of its old names decides |
| ValueInForce.ValueChangesIff | internal/config/deprecations.go:136-162 | Migrating a file changes the value in force of a variable that it sets if and only if an old name of it is assigned another value after every other line that assigns the variable or an old name |
| ValueInForce.OldAliasTakesOver | internal/config/deprecations.go:136-162 | With the new name set first and the old name after it, the old name's value takes over |
| Migrations.ShippedRegistryIsOk | internal/config/deprecations.go:42-51 | The registry in use meets the conditions of both migrators |
| Migrations.ShippedRegistryCorrects | internal/config/deprecations.go:42-51 | It turns the misspelt names into the corrected ones, in both formats |
| Credentials.BlankIff | internal/auth/tenant.go:89-91 | A key is blank if and only if all its characters are white space |
| Credentials.LastMatchDecides | internal/auth/tenant.go:81-102 | For a token that is not blank the last entry with its key decides, and nothing matches only when no entry has it |
| Credentials.BlankNeverMatches | internal/auth/tenant.go:81-91 | A blank token matches nothing |
| Credentials.CredentialSet.constructor | internal/auth/tenant.go:81-102 | The set answers every token as the last non-blank entry of the list with that key; item keys are distinct; the hash index points at exactly the right positions |
| Credentials.CredentialSet.Build | internal/auth/tenant.go:83-102 | The loop skips blank keys, overwrites repeated ones and appends new ones, keeping index and answers exact |
| Credentials.CredentialSet.Match | internal/auth/tenant.go:109-126 | Comparing with every item yields the tenant of the last non-blank entry with the key, or no match and no tenant |
| Credentials.CredentialSet.Replace | internal/auth/tenant.go:137-143 | Afterwards the set answers as the new list does, and nothing of the old one is left |

## Left out

- HTTP serving, streaming, upstream calls, tracing, logging, metrics, the request recorder and rejection counters.
- Alerter and observer callbacks of the guard and the tracker; they are called with snapshots and change nothing.
- Spending that other components (judge, planner, cascade) record on the same guard; the overshoot bound is about the chat handler's protocol alone.
- The nil limiter and the nil tracker, which answer with constants.
- Fairness between waiting callers; Signal may pick any of them.
- The effective count that is remembered per GPU only to log its changes, and the hook called before waiting.
- The wrap-around of the 64-bit round-robin counter; float64 rounding in the ceiling division.
- Migrations.MigrateContent: the two migrators are one method with the format as a parameter, since both loops differ only in their matching and rewriting of a line.
- Credentials.CredentialSet.Match: the timing of the comparison is not modelled, only its answer; concurrent Replace is atomic.
- AuditChain.Verify: files are lists of lines; the scanner's limit on the length of a line, read errors, and lines that the line reader and the stream decoder split differently (white space only, several values on a line) are not modelled.
- AuditWriter.FileAuditor.Record: a partially written line, a failing encoder and a second auditor on the same file are not modelled.
- SpendBuckets.TrackerHoldsSuffix: assumes that records take the lock in the order of their clock readings; SpendDisorder.TotalInAnyOrder does not.
- SpendBuckets.TotalIsSumOfUnexpired: assumes the same order, since which entries are dropped depends on it.
- SpendBuckets.TotalIsWithinAMinute: assumes the same order; without it the upper bound is a minute weaker, as SpendDisorder.LateEntryOutlivesWindow shows.
- SpendBuckets.TotalIsExactIff: assumes the same order, since which entries are dropped depends on it.
- TrackerVsGuard.TrackerRejectsOnlyWhatGuardRejects: assumes the same order; without it the comparison holds against a window of 24 hours and a minute.
- Admission.TruncationIsNotRecorded: the cost of a stream that is cut off is its estimate; how much of it the provider charges is unknown.
- JSON and YAML syntax beyond single lines; quoting inside values is carried along as text.
- Config loading, overrides, the init wizard, JWT validation, dashboards and the accessors that return a field.
