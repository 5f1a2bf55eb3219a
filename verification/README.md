# A model of OpenPPWR's scan queue, worker health, retention deletion and web tier

OpenPPWR Community keeps packaging evidence. Uploaded files wait in a queue for a malware scan, workers report
whether they can do their job, retained files are deleted after their time, and a small web server decides which
surface, page or file a request gets. This project models the parts of it where order, failure and text make
mistakes easy, and proves what they keep.

| file | what it models |
|---|---|
| `Backoff.dfy` | `retryBackoffMs`: exponent, cap, jitter, rounding |
| `FailureCodes.dfy` | failure codes and their one classification |
| `ScanQueue.dfy` | `scan_jobs` as a step system: scanning workers, open transactions, clock, crashes, lost connections, requeues, audit trail |
| `ScanHistory.dfy` | what a run has done to one job: its last verdict, and when it may be claimed |
| `ScanWorker.dfy` | the same operations as they assign fields, tied to the step system |
| `Fairness.dfy` | how often a due job can be overtaken |
| `Health.dfy` | `WorkerHealth` against the whole history of signals it was told |
| `Retention.dfy` | `cleanupRetainedEvidence`: any number of calls, one file, one fenced row, one step at a time |
| `Segments.dfy` | paths as text: split, filter, join, and the parts of an address |
| `Addresses.dfy` | host tables and the printer of links |
| `Routing.dfy` | redirects, dispatch of the application, language links |
| `Paging.dfy`, `Currency.dfy` | pages of a listing; which row of a requirement is current |
| `Workbench.dfy` | the workbench's listings under the `busy` lock, with operations in flight |
| `PathResolution.dfy` | from a request path to a file below the root |
| `ProxyHeaders.dfy` | what a proxied request tells the API |
| `WebTier.dfy` | the decision about a request, its one response head, the memoised shell |

`Options.dfy` holds the option type. `dafny verify dfyconfig.toml` checks everything.

## What the proofs found

Where the code and its documentation or comments differ, the model follows the code.

- **A crash is not charged.** `processNextScanJob` is one transaction (`apps/worker/src/index.mjs:297-412`), so a worker
  that dies rolls back and leaves no `running` row. The document says a reclaim is charged and bounds a crash loop
  (`docs/architecture/WORKER_HEALTH_AND_RETRY.md:126-133`). `ScanQueue.RunningRowsAreOld` shows the lease only reaches
  `running` rows that were there before the run, `ScanQueue.CrashLoopIsUnbounded` that no budget bounds the loop.
- **Exclusion is the row lock's, not the lease's**, and it covers commits rather than scans. If the database loses a
  worker's connection during a scan, the lock goes and the scan goes on; a second worker can claim the job at once.
  Two live workers scan one job exactly when that happened (`ScanQueue.DoubleScanExactlyAfterLoss`), whatever the lease
  and the scanner timeout, and at most one of them commits (`ScanQueue.AtMostOneScanCommits`).
- **The retry bound is the infrastructure limit plus two**, not plus three: exhaustion is judged on both budgets, and
  the bound is reached (`ScanQueue.SettledAttemptsBounded`, `ScanQueue.BoundIsReached`). `attempts` itself can become 4.
- **Lowering the configured limit strands waiting jobs**: a job that has already spent the new limit can neither be
  claimed nor requeued, and states no reason (`ScanQueue.LoweredLimitStrands`, `ScanQueue.StrandedForever`).
- **"Within 20%" is off by rounding**: the delay can miss the band by up to half a millisecond
  (`Backoff.RoundingCanExceedAFifth`; `Backoff.FifthHoldsExactly` says for which ceilings it cannot).
- **A successful probe clears scanner faults only**; the document's table says every infrastructure fault (line 60). And
  there is one fault slot, so a storage fault can be overwritten by a scanner fault that a probe then clears, leaving the
  worker ready (`Health.SlotFallsShortExactlyWhenMasked` gives the exact histories). A retention sweep that fails with
  a `RETENTION_...` code makes the worker unready, against the comment at `apps/worker/src/server.mjs:175-177`.
- **A retention record can be wrong in two ways, and in no other.** A worker that lost its claim renames the file
  between the two probes of the recovery that adopted it, while that recovery's lease is live; or, with the volume away,
  a probe of the call that holds a live claim misses the place its conclusion rests on. This is exact for the record
  itself: after a step, some continuation without a further such event makes the record false if and only if the step
  was one of them (`Retention.RecordIsAtRiskExactly`).
- **Partial host tables break links**: a link to a surface without a host, on a deployment where others have one, never
  reaches it (`Routing.LinkReachesItsPage`).
- **A language switch can lose the page**: below an unlocalized `/docs/`, `/app/` or `/demo/` of the marketing site, the
  printed language link is redirected to the other host's root (`Routing.LanguageSwitchKeepsThePage` has the exact
  condition).
- **Four ways around the `busy` lock** each have a run, from an opened workbench, that spoils a listing: a sign-out in
  flight, a catalogue tile, signing in as someone else without signing out, and editing the credential field, which
  keeps the rows while load-more does not ask who is signed in (`Workbench`, last section of lemmas). A credential
  change is harmless exactly when the identity stays, or no listing request is outstanding and the new identity is listed the
  same as far as the screen shows (`Workbench.CredentialChangeKeepsInvExactly`).
- **A failed reload leaves a stale table that load-more continues.** An operation that changes a listing reloads it, which
  puts its first page on screen (`Workbench.MutationReloads`); when the reload fails, or when something else changes the
  listing, the rows stay and load-more appends a page of the changed listing (`Workbench.FailedReloadMixesVersions`).
- **Names that every object inherits are redirected.** `CROSS_HOST` is looked up without a check for own properties, so
  `/constructor` is sent to `/en/constructor` like an old page (`Routing.LegacyPathsMoveExactly`).
- **A `..` that leaves the root and names it again is served**: climbing alone is not refused, only ending elsewhere
  (`PathResolution.RefusedExactly`). The file is below the root all the same.
- **The upstream response handler does not check whether a head was sent.** There is one head for each request in every
  order of events, but a response after another event makes the second `writeHead` throw where nothing catches it
  (`WebTier.Upstream`, `WebTier.OneHeadExactlyWhenRespondingFirst`).

## Assumptions

- The database and all workers read one clock; times are whole milliseconds; `random()` is a real from 0 to 1.
- The claim query with `FOR UPDATE ... SKIP LOCKED LIMIT 1` returns a first unlocked eligible row, in any order among
  ties. New jobs and requeued jobs enter with `available_at` equal to the present.
- `base <= max` for the two delays, which `processNextScanJob` enforces although the tabulated ranges do not.
- Health timestamps are what the clock said; a heartbeat is judged at the time the snapshot is taken.
- A retention lease is live until a step says it expired; a file operation may fail with or without effect.
- A declared hostname has no `/`, `?` or `#`. A pathname contains no `?` or `#`, as the URL parser guarantees.
- What the API lists may change at any moment; the promise about a table is for listings unchanged since their last
  load. `Workbench` counts a change between the API's read and the arrival of its answer as one after the arrival.
- The served root is a directory below `/`, already resolved.

## Model

| member | source | states |
|---|---|---|
| `Backoff.ClampIsInvisible` | apps/worker/src/index.mjs:269-271 | the clamped ceiling equals the documented `min(base * 2^(attempt-1), max)` exactly when the attempt is at most 31 or thirty doublings of the base reach the maximum |
| `Backoff.ClampIsInvisibleWhenConfigured` | docs/architecture/WORKER_HEALTH_AND_RETRY.md:186-199 | within the configured ranges the two ceilings never differ |
| `Backoff.CeilingClimbs` | docs/architecture/WORKER_HEALTH_AND_RETRY.md:114-118 | the ceiling starts at the base, never falls, and stays between base and maximum |
| `Backoff.CeilingIsReached` | docs/architecture/WORKER_HEALTH_AND_RETRY.md:114-118 | from a fixed attempt on every configured backoff sits at its maximum |
| `Backoff.DelayStaysBounded` | apps/worker/src/index.mjs:258-274 | for every attempt and draw the delay is at least the base, and at most the maximum exactly when base <= max |
| `Backoff.DelayStaysNearCeiling` | docs/architecture/WORKER_HEALTH_AND_RETRY.md:116-122 | the delay is within 20% of the ceiling up to the half millisecond of rounding |
| `Backoff.RoundingCanExceedAFifth` | apps/worker/src/index.mjs:273 | an input for which 20% without that half millisecond is false |
| `Backoff.FifthHoldsExactly` | docs/architecture/WORKER_HEALTH_AND_RETRY.md:116-122 | no draw leaves the 20% exactly when the ceiling's remainder by five is at most two, or base and maximum confine the delay already |
| `Backoff.DrawsCoverExactlyTheBand` | apps/worker/src/index.mjs:265-273 | the delays some draw produces are exactly the whole milliseconds from the lowest to the highest |
| `ScanQueue.StepKeepsInv` | apps/worker/src/index.mjs:297-412 | every step keeps for every row and lock: dead exactly when a reason and a time are stated, a reason names a spent budget, waiting rows have both budgets, one transaction for each job |
| `ScanQueue.EveryRunKeepsInv` | apps/worker/src/index.mjs:297-412 | the same over every interleaving of workers, crashes, lost connections, arrivals and requeues; a locked job stays eligible, a file has a verdict exactly when its job is completed |
| `ScanQueue.DoubleScanExactlyAfterLoss` | docs/architecture/WORKER_HEALTH_AND_RETRY.md:130-133 | two live workers scan one job exactly when one lost its connection during its scan and the other claimed the job after that |
| `ScanQueue.NoLossNoDoubleScan` | docs/architecture/WORKER_HEALTH_AND_RETRY.md:130-139 | without a lost connection no job is ever being scanned twice, whatever the lease |
| `ScanQueue.LossLetsASecondWorkerIn` | apps/worker/src/index.mjs:302-332 | after a lost connection the job is claimable in that same moment, and a second worker can scan it beside the first |
| `ScanQueue.LocklessScanLostItsConnection` | apps/worker/src/index.mjs:302-332 | a worker that scans without a lock lost its connection during that very scan |
| `ScanQueue.AtMostOneScanCommits` | packages/database/src/index.mjs:189-194 | of all workers scanning a job at one moment at most one commits that scan |
| `ScanQueue.AuditDeterminesRows` | apps/worker/src/index.mjs:384-406 | replaying the audit trail gives every job's phase, reason and both counters at every point of every run, so infrastructure failures never move `attempts` and no stop is silent |
| `ScanQueue.SettledAttemptsBounded` | docs/architecture/WORKER_HEALTH_AND_RETRY.md:103-112 | between two requeues a job settles at most `infrastructureLimit + 2` times |
| `ScanQueue.BoundIsReached` | apps/worker/src/index.mjs:358-361 | that bound is tight: a run from an empty queue settles a job exactly that often and stops it at the last |
| `ScanQueue.SettingsAreTheDocumented` | docs/architecture/WORKER_HEALTH_AND_RETRY.md:186-199 | exactly the documented ranges are accepted, with base at most maximum |
| `ScanQueue.BudgetsAreSeparate` | docs/architecture/WORKER_HEALTH_AND_RETRY.md:105-132 | error by error, what an attempt and a reclaim spend, how long it waits by the number of failures before it, and exactly when it is the last |
| `ScanHistory.CommitIsStated` | apps/worker/src/index.mjs:334-383 | a committed row states its result: verdict or error, class, code, time, and the budget that ran out |
| `ScanHistory.AuditStatesTheCommit` | apps/worker/src/index.mjs:384-406 | the audit trail of a commit says the same, and whether the row had been left running |
| `ScanHistory.RenewalIsStated` | packages/database/migrations/028_gadd4_final_remediation.sql:30-41 | an arrived or requeued row has nothing scanned, spent or failed, and is due at once |
| `ScanHistory.RowStatesItsLastCommit` | apps/worker/src/index.mjs:374-383 | in every run from an empty queue a row states its last commit, or nothing since it arrived or was requeued |
| `ScanHistory.FileReadsItsLastVerdict` | apps/worker/src/index.mjs:332-337 | a file reads infected, clean, timed out, errored or unscanned exactly as the last committed result says |
| `ScanHistory.ClaimableExactly` | apps/worker/src/index.mjs:302-308 | a free job can be claimed exactly when due, or when its lease is over, and never when done or dead |
| `ScanHistory.ClaimTakesTheEarliest` | apps/worker/src/index.mjs:306 | no claimable job was due earlier, or as early and created before |
| `ScanHistory.RetryIsClaimableExactlyWhenDue` | docs/architecture/WORKER_HEALTH_AND_RETRY.md:105-118 | after a failed attempt, in every run, the job can be claimed exactly when the wait it owes is over |
| `ScanHistory.RetryWaits` | apps/worker/src/index.mjs:368-383 | the next claim does not come before |
| `ScanHistory.ReclaimWaitsForTheLease` | docs/architecture/WORKER_HEALTH_AND_RETRY.md:126-129 | a job left running is claimed only when its lease is over |
| `ScanQueue.RetryIsLater` | apps/worker/src/index.mjs:368-383 | every committed retry is due strictly after its commit |
| `ScanQueue.AbortedClaimLeavesNoTrace` | packages/database/src/index.mjs:176-198 | a claim followed by a rollback changes nothing |
| `ScanQueue.CrashLoopIsUnbounded` | docs/architecture/WORKER_HEALTH_AND_RETRY.md:130-133 | for every n a run claims one job n times, crashes each time, and ends where it began |
| `ScanQueue.RunningRowsAreOld` | apps/worker/src/index.mjs:304-319 | a committed `running` row was there before the run and has not changed |
| `ScanQueue.WaitingRowsAreEventuallyEligible` | apps/worker/src/index.mjs:302-308 | a waiting row becomes eligible at some moment exactly when both budgets are left |
| `ScanQueue.StrandedForever` | apps/worker/src/index.mjs:350-357 | a waiting row with a spent budget is never claimed, settled or requeued in any run |
| `ScanQueue.LoweredLimitStrands` | apps/worker/src/index.mjs:294-306 | a change of the configured limit strands a waiting row exactly when the row has spent the new limit |
| `ScanQueue.RequeueMakesClaimable` | docs/architecture/WORKER_HEALTH_AND_RETRY.md:174-176 | a requeued job has both budgets back and can be claimed at once |
| `ScanWorker.ReadResult` | apps/worker/src/index.mjs:332-340 | status, code and class of what the scan came to |
| `ScanWorker.Judge` | apps/worker/src/index.mjs:343-366 | what the attempt costs, and exhaustion judged on both budgets |
| `ScanWorker.SettleRow` | apps/worker/src/index.mjs:339-383 | the assignments after a scan give the row the step system prescribes |
| `ScanWorker.ScanQueueTable.constructor` | packages/database/migrations/001_phase4_foundation.sql:195-208 | the table starts empty and satisfies the invariant |
| `ScanWorker.ScanQueueTable.ClaimNext` | apps/worker/src/index.mjs:290-320 | refuses a caller that is no worker, a missing scanner and bad settings, in that order; finds nothing exactly when nothing is claimable, otherwise locks a head of the queue |
| `ScanWorker.ScanQueueTable.FinishAttempt` | apps/worker/src/index.mjs:339-412 | commits the settled row with the file's status and its audit events, releases the lock, reports what it stored and the wait; without its connection it writes nothing |
| `ScanWorker.ScanQueueTable.Rollback` | packages/database/src/index.mjs:192-197 | rows and audit trail are untouched |
| `ScanWorker.ScanQueueTable.FindDead` | apps/api/src/evidence-service.mjs:402-408 | refused for an unknown job and for one that is not dead |
| `ScanWorker.ScanQueueTable.RequeueFound` | packages/database/migrations/028_gadd4_final_remediation.sql:12-57 | checks again, refuses after a lost race, otherwise resets both budgets and the file's status with one audit event |
| `Fairness.OvertakenAtMostOnce` | docs/architecture/WORKER_HEALTH_AND_RETRY.md:135-143 | once a job is overdue each other job is claimed at most once before it, plus once for each of its own rollbacks, and not at all unless it was ahead |
| `Fairness.DueJobIsReached` | docs/architecture/WORKER_HEALTH_AND_RETRY.md:135-143 | a run that does not claim the overdue job makes at most as many claims as jobs were ahead, plus rollbacks |
| `Fairness.OverdueQueueIsNotEmpty` | apps/worker/src/index.mjs:302-308 | while a job is overdue a poll always finds a head |
| `Fairness.StepAhead` | apps/worker/src/index.mjs:302-308 | one step adds no job to those ahead, except a rolled-back one, and a claim removes its own |
| `Health.FaultSlotIsHistory` | apps/worker/src/health.mjs:124-164 | the one fault slot holds a code exactly when the latest infrastructure fault has met no evidence against it, and then holds that fault's code |
| `Health.SlotFallsShortExactlyWhenMasked` | docs/architecture/WORKER_HEALTH_AND_RETRY.md:51-63 | a held fault does stand; some fault stands unheld exactly when a scanner fault overwrote it and a probe cleared that one |
| `Health.MaskedStorageFault` | apps/worker/src/health.mjs:149-164 | the shortest such history |
| `Health.EmptyPollsClearNothing` | docs/architecture/WORKER_HEALTH_AND_RETRY.md:63 | any number of polls, sign-ins, checks and failed probes leaves both fault slots as they were |
| `Health.ProbesCannotClear` | apps/worker/src/health.mjs:49-55 | a fault outside the probe's reach keeps the worker unready until a scan completes or a scanner fault takes the slot |
| `Health.RetentionFailureUnreadies` | apps/worker/src/server.mjs:174-179 | a failed sweep makes the worker unready exactly when its code is not an item code |
| `Health.PollFailuresAreHistory` | apps/worker/src/health.mjs:106-122 | the failure counter is positive exactly when a failed poll has met no later success |
| `Health.LastSuccessIsHistory` | apps/worker/src/health.mjs:106-109 | the stored time of success lies in a window exactly when the history's last successful poll does |
| `Health.LastFailureIsHistory` | apps/worker/src/health.mjs:117-118 | the stored time of failure lies in a window exactly when the history's last failed poll does |
| `Health.WorkerHealth.constructor` | apps/worker/src/health.mjs:68-92 | a new record stands for the empty history |
| `Health.WorkerHealth.RecordAuthentication` | apps/worker/src/health.mjs:94-98 | the fields, with the failure's code, stay those of the longer history |
| `Health.WorkerHealth.RecordTenancy` | apps/worker/src/health.mjs:100-103 | the fields, with the number of tenants, stay those of the longer history |
| `Health.WorkerHealth.RecordPollSuccess` | apps/worker/src/health.mjs:106-115 | the same, with the time of an empty poll, and neither fault is touched |
| `Health.WorkerHealth.RecordPollFailure` | apps/worker/src/health.mjs:117-122 | the fields, with the failure's code, stay those of the longer history |
| `Health.WorkerHealth.RecordJobOutcome` | apps/worker/src/health.mjs:126-144 | the same, with times, counters, and the time and scan status kept with a fault |
| `Health.WorkerHealth.RecordScannerProbe` | apps/worker/src/health.mjs:149-164 | the same, with the probe's time and result, and an item fault is never cleared |
| `Health.WorkerHealth.RecordQueue` | apps/worker/src/health.mjs:166-169 | the fields, with all four depths and their time, stay those of the longer history |
| `Health.WorkerHealth.HeartbeatAgeMs` | apps/worker/src/health.mjs:174-177 | the time since the last sign of life, inside the window exactly when the history shows the loop alive inside it |
| `Health.AuthenticationIsKept` | apps/worker/src/health.mjs:94-98 | the flag and code are those of the last authentication |
| `Health.TenancyIsKept` | apps/worker/src/health.mjs:100-103 | the count and flag are those of the last check |
| `Health.SuccessfulPollIsKept` | apps/worker/src/health.mjs:106-109 | the time is that of the last successful poll |
| `Health.EmptyPollIsKept` | apps/worker/src/health.mjs:111 | the time is that of the last empty poll |
| `Health.FailedPollIsKept` | apps/worker/src/health.mjs:117-122 | the time and, while failures stand, the code are those of the last failed poll |
| `Health.CompletedJobIsKept` | apps/worker/src/health.mjs:128-129 | the time is that of the last completed job |
| `Health.FailedJobIsKept` | apps/worker/src/health.mjs:138 | the time is that of the last failed job |
| `Health.ProbeIsKept` | apps/worker/src/health.mjs:149-151 | the time and result are those of the last probe |
| `Health.QueueIsKept` | apps/worker/src/health.mjs:166-169 | the depths are those last seen |
| `Health.FaultIsKept` | apps/worker/src/health.mjs:140-142 | a held infrastructure fault is the latest one, with its code, time and scan status |
| `Health.ItemFaultIsKept` | apps/worker/src/health.mjs:140-142 | a held item fault is the latest one, with its code, time and scan status |
| `Health.PollFailuresAreCounted` | apps/worker/src/health.mjs:109-120 | the counter is the number of failed polls that no success has followed |
| `Health.JobFailuresAreCounted` | apps/worker/src/health.mjs:130-139 | the counter is the number of failed jobs that no completed one has followed |
| `Health.FaultClassesAreTheDocumented` | docs/architecture/WORKER_HEALTH_AND_RETRY.md:73-82 | code by code, which fault slot a failure takes and whether a probe clears it |
| `Health.LastSignIsTheLatest` | apps/worker/src/health.mjs:174-177 | the last sign of life is the latest of start, last successful and last failed poll |
| `Health.IdentityReasonsAreNamed` | apps/worker/src/health.mjs:183-185 | which reason authentication and tenancy give, as the history has it |
| `Health.WorkReasonsAreNamed` | apps/worker/src/health.mjs:186-189 | which reason polls, faults and silence give |
| `Health.DegradedReasonsAreNamed` | apps/worker/src/health.mjs:191-192 | which reason an item fault and parked jobs give |
| `Health.ReasonsDecide` | apps/worker/src/health.mjs:183-195 | the history gives a reason not to be ready, or to be degraded, exactly when it denies readiness or holds a standing item fault or parked jobs |
| `Health.CompletedJobsAreHistory` | apps/worker/src/health.mjs:126-136 | the counter is the number of completed jobs in the history |
| `Health.JobFailuresAreHistory` | apps/worker/src/health.mjs:126-143 | the counter is positive exactly when a failed job has met no later completed one |
| `Health.WorkerHealth.TakeSnapshot` | apps/worker/src/health.mjs:179-225 | ready, degraded and healthy exactly as the whole history says, with exactly the reasons, faults, counters, times, tenancy and queue the history gives, uptime and heartbeat age |
| `Retention.StepKeepsInvExactly` | apps/worker/src/index.mjs:592-1037 | with the volume in place or away, a step keeps the invariant exactly when it is neither a superseded worker's move between the probes of a recovery with a live lease, nor a probe of the live owner that misses the file on an absent volume |
| `Retention.RecordStaysTruthful` | apps/worker/src/index.mjs:682-701 | in every run without these two, however often the volume comes and goes: recorded as deleted means the bytes are gone, retained means in place, and at most one deletion is recorded |
| `Retention.ClaimDeletes` | apps/worker/src/index.mjs:940-998 | every run of a claim and its call alone, undisturbed, ends with the file gone and its deletion recorded once |
| `Retention.ReclaimDeletes` | apps/worker/src/index.mjs:703-723 | from every state with a deletion under way, wherever the file is, adopting the expired claim and finishing it deletes and records |
| `Retention.UnhinderedRunExists` | apps/worker/src/index.mjs:592-601 | such runs exist to their end |
| `Retention.OneFaultInAClaim` | apps/worker/src/index.mjs:947-1036 | what one fault does to a deletion, by the step it hits and whether the operation took effect |
| `Retention.FailedRenameRetains` | apps/worker/src/index.mjs:967-969 | as a run: a rename that cleanly fails ends with the item retained and in place |
| `Retention.OneFaultInARecovery` | apps/worker/src/index.mjs:751-770 | a rename that took effect or a written record completes a recovery, every other fault admits that nobody knows |
| `Retention.LateCallTouchesNothing` | apps/worker/src/index.mjs:578-586 | a call that lost its claim or lease before it renews it leaves no trace |
| `Retention.LateCallRecordsNothing` | apps/worker/src/index.mjs:688-695 | a call whose lease ran out records no deletion and no return |
| `Retention.SupersededCallRecordsNothing` | packages/database/migrations/027_gadd3_remaining_remediation.sql:53-61 | a call whose claim was taken changes nothing by ending |
| `Retention.LeaseProtectsTheClaim` | packages/database/migrations/021_gate_a_remediation.sql:131-153 | between two takings of a claim its lease expired |
| `Retention.TerminalStatusIsFinal` | packages/database/migrations/037_audit_chain_per_tenant.sql:217-279 | no stale call changes a final status or records a second deletion |
| `Retention.StaleStepEffect` | packages/database/migrations/027_gadd3_remaining_remediation.sql:49-62 | a call that lost its claim changes nothing in the row and can only make three kinds of move |
| `Retention.WindowMoveFalsifiesRecord` | apps/worker/src/index.mjs:783-787 | after such a move three ordinary steps record a deletion while the file is there |
| `Retention.StalledWorkerFalsifiesRecord` | apps/worker/src/index.mjs:999-1016 | a run from a fresh item ends with a recorded deletion and the file under its own name |
| `Retention.RecordIsAtRiskExactly` | apps/worker/src/index.mjs:592-1037 | from a state satisfying the invariant, a step leads to where an undisturbed continuation can make the record false exactly when it is such a move or such a probe |
| `Retention.BlindProbeFalsifiesRecord` | apps/worker/src/index.mjs:613-639 | every blind probe is enough: the volume returns, no other probe is blind, and some continuation records a deletion of a file that is there |
| `Retention.StaleRestoreFalsifiesRecord` | apps/worker/src/index.mjs:1008-1016 | a recovery that missed the tombstone records a deletion while a stale call puts the file back |
| `Retention.MissedOriginalFalsifiesRecord` | apps/worker/src/index.mjs:947-949 | a recovery that missed the original records a deletion while stale calls take the file and put it back |
| `Retention.VanishedVolumeFalsifiesRecord` | apps/worker/src/index.mjs:613-639 | a run from a fresh item in which blind probes happen without any such move: the volume goes away after the tombstone was found |
| `Segments.SlashSeparates` | apps/web/src/App.jsx:78 | the segments of two texts joined by a slash are the segments of both |
| `Segments.PiecesAreSegments` | apps/web/src/App.jsx:78 | every piece is non-empty, slash-free and made of the path's characters |
| `Segments.SplitUndoesJoin` | apps/web/src/surfaces.mjs:122 | joining segments and splitting again gives them back |
| `Segments.AbsoluteAddress` | apps/web/src/runtime.js:60-63 | an absolute address splits into the host and the path it was made of |
| `Addresses.RuntimeConfig` | apps/web/src/surfaces.mjs:161-165 | the loop over the map gives each surface its first hostname |
| `Addresses.HostForIsTheFirst` | apps/web/src/surfaces.mjs:108-111 | a surface's host is the first hostname declared for it |
| `Addresses.LookupIsExact` | apps/web/src/surfaces.mjs:55-58 | a hostname is resolved exactly as it is declared |
| `Addresses.HostForResolves` | apps/web/src/surfaces.mjs:108-111 | the host stated for a surface resolves back to that surface |
| `Addresses.RuntimeIsConsistent` | apps/web/src/runtime.js:11-24 | read from the document or fallen back to one host: `all` exactly without a host table, any other surface is in its table, and no two surfaces share a host |
| `Addresses.AddressComesApart` | apps/web/src/runtime.js:57-68 | for every table, surface, locale and rest: the printed address names the table's host, and its segments are the locale, the surface's place and the segments of the rest |
| `Addresses.CollisionMeansSamePlace` | apps/web/src/runtime.js:57-68 | two links print alike only when host and segments agree |
| `Addresses.NavigationNeverCollides` | apps/web/src/site-nav.js:48-71 | the ten navigation addresses are pairwise different for every table of distinct hosts, however partial |
| `Routing.RedirectIsALink` | apps/web/src/surfaces.mjs:113-124 | the cross-host redirect happens exactly when the second segment names a hosted surface, and goes where the printed link to that surface goes |
| `Routing.LegacyCrossingIsALink` | apps/web/src/surfaces.mjs:137-150 | an unlocalized surface path goes to that surface's link in the default locale, in both deployment shapes |
| `Routing.LegacyPathsMoveExactly` | apps/web/src/surfaces.mjs:132-150 | an unlocalized one-segment path moves exactly when it names a crossing surface, an old page, or a property every object inherits, and where to |
| `Routing.RedirectsSettle` | apps/web/server.mjs:196-201 | the target of a redirect is answered without another one |
| `Routing.VisitLocated` | apps/web/src/App.jsx:76-107 | where any localized path ends up and what it shows |
| `Routing.UnlocalizedPathShows` | apps/web/src/App.jsx:78-106 | a path without a locale shows what it shows behind the browser's language, except where the documentation host drops its first segment |
| `Routing.LinkReachesItsPage` | apps/web/src/runtime.js:33-68 | a link reaches its surface's own page if and only if a stated condition on the host table and rest holds |
| `Routing.OneHostShowsSitePages` | apps/web/src/App.jsx:99-106 | on one host `demo` and `community` links reach the site pages of those names |
| `Routing.LanguageSwitchKeepsThePage` | apps/web/src/Surfaces.jsx:43-46 | following a printed language link shows the same page and slug in the new language, exactly unless a site page's route belongs to another host |
| `Routing.ChainOfSwitches` | apps/web/src/Site.jsx:100 | a chain of switches that each keep the page ends where its last one ends |
| `Routing.LastSwitchDecides` | apps/web/src/Site.jsx:100 | any chain of language switches ends where the last alone ends |
| `Routing.SwitchLeavesTheSite` | apps/web/src/surfaces.mjs:113-124 | otherwise the link leads to the root of the other host |
| `Routing.UnlocalizedPathIsNotRedirected` | apps/web/src/surfaces.mjs:115-116 | an unlocalized path of two or more segments is rendered where it is |
| `Routing.UnlocalizedPathLosesItsPage` | apps/web/src/Site.jsx:100 | so below `/docs/` the switch loses the page when the documentation has a host |
| `Paging.PageIsASlice` | apps/api/src/app.mjs:747-756 | the answer is the listing's slice, and its flag is set exactly when a row lies beyond |
| `Paging.NextPageExtendsThePrefix` | apps/web/src/paging.js:41-45 | asking at the number of rows held keeps a prefix and says truthfully whether it is all |
| `Paging.OnlyTheHeldOffsetFits` | apps/web/src/paging.js:41-45 | at any other offset the rows stay a prefix exactly when the page is empty |
| `Paging.WalkReachesEveryRow` | apps/web/src/App.jsx:205-230 | load-more until no more yields the whole listing in order, for every page size |
| `Paging.WalkSendsNoSpareRequest` | apps/api/src/app.mjs:747-756 | with as many requests as there are started pages |
| `Currency.LatestVersions` | apps/web/src/App.jsx:71-72 | the one-pass table holds exactly each requirement's highest version |
| `Currency.AnnotateCurrency` | apps/web/src/App.jsx:70-74 | a row is current exactly when no held row of its requirement is newer |
| `Currency.IncrementalEqualsWhole` | apps/web/src/App.jsx:219-228 | marking marked rows with a new page equals marking the raw rows at once |
| `Currency.PagesEqualWhole` | apps/web/src/App.jsx:64-69 | the same over any number of pages |
| `Currency.PageChangesMarkExactly` | apps/web/src/App.jsx:64-69 | a page changes a mark exactly when it brings a newer version of a current row |
| `Currency.SupersededIsFinal` | apps/web/src/App.jsx:219-222 | a superseded mark stays over any further pages |
| `Currency.SomeRowIsCurrent` | apps/web/src/App.jsx:60-62 | every requirement on screen has a current row |
| `Workbench.OrderlyStepKeepsInv` | apps/web/src/App.jsx:191-230 | every orderly event keeps at most one operation in flight and every listing a prefix of what the present credential is served |
| `Workbench.StepKeepsInvExactlyWhenOrderly` | apps/web/src/App.jsx:191-230 | apart from credential changes an event keeps that exactly when it is orderly |
| `Workbench.ListingsAreSafe` | apps/web/src/App.jsx:627-633 | in every orderly run, for a listing unchanged since its load: rows are a duplicate-free prefix, more is offered exactly when rows are missing, marks are exact once none are |
| `Workbench.MarksAreExact` | apps/web/src/App.jsx:60-74 | once no row is missing, an evidence row reads current exactly when the listing holds no newer version, and other tables show their rows as listed |
| `Workbench.SignedInExactly` | apps/web/src/App.jsx:194-198 | in every run somebody is shown as signed in exactly when a session was confirmed and no refused operation, failed session, edited credential or sign-out has followed |
| `Workbench.TablesKeepThroughOtherEvents` | apps/web/src/App.jsx:191-202 | a table keeps its rows and offer through everything but its own arrivals and a clearing |
| `Workbench.ClearingIsComplete` | apps/web/src/App.jsx:345-363 | a finished sign-out, however it went, and a finished reset leave no row |
| `Workbench.LoadShowsOnePage` | apps/web/src/paging.js:13-35 | a first load shows five hundred requirements or a hundred rows of a table, or all |
| `Workbench.LockStatesTheMostPermanentReason` | apps/web/src/Locked.jsx:16-39 | a lock states a reason that holds, and none more permanent does |
| `Workbench.CredentialChangeKeepsInvExactly` | apps/web/src/App.jsx:434-435 | a credential change keeps the property exactly when the identity stays, or no listing request is outstanding and the new identity is listed the same as far as shown |
| `Workbench.SessionCanBeRegained` | apps/web/src/App.jsx:194-198 | after a refused credential the same identity can sign in again over its rows, in an orderly way |
| `Workbench.MutationReloads` | apps/web/src/App.jsx:238-239 | a mutation changes its listing and its reload puts the first page of the changed listing on screen, whatever was there |
| `Workbench.FailedReloadMixesVersions` | apps/web/src/App.jsx:254 | when the reload fails, an orderly run continues the old rows with the changed listing |
| `Workbench.PressingReachesTheEnd` | apps/web/src/App.jsx:205-230 | pressing load-more while offered reaches the whole listing |
| `Workbench.LoadMoreAdvances` | apps/web/src/App.jsx:223-228 | each press adds a page or all that is left |
| `Workbench.FirstPageIsReachable` | apps/web/src/App.jsx:229 | signing in and loading is an orderly run to the first page |
| `Workbench.PendingSignOutLeavesASecondPage` | apps/web/src/App.jsx:355-363 | in a run from an opened workbench a page asked for during a sign-out lands on the cleared screen, and is no prefix |
| `Workbench.TileReleasesTheLock` | apps/web/src/App.jsx:472 | in such a run a tile pressed during load-more lets one page land twice |
| `Workbench.ChangedCredentialMixesListings` | apps/web/src/App.jsx:323-336 | in such a run signing in as someone else, or editing the credential, leaves rows that are no prefix of what the new credential is listed, when the two listings start differently |
| `Workbench.Screen.Table` | apps/web/src/App.jsx:627-649 | what a valid screen renders: a duplicate-free prefix, complete and exactly marked when no more is offered |
| `Workbench.Screen.Act` | apps/web/src/App.jsx:191-193 | takes the lock and starts the operation |
| `Workbench.Screen.Press` | apps/web/src/App.jsx:204-230 | each operation behind the lock starts its request, and an orderly start keeps the screen valid |
| `Workbench.Screen.SignOutPressed` | apps/web/src/App.jsx:355-360 | starts the sign-out without the lock, keeping the screen valid |
| `Workbench.Screen.CredentialEdited` | apps/web/src/App.jsx:434-435 | brings in the credential, drops the identity, keeps the rows; valid if orderly |
| `Workbench.Screen.LoginAnswered` | apps/web/src/App.jsx:327-329 | the token is set before the session answers; valid if orderly |
| `Workbench.Screen.SignInEnded` | apps/web/src/App.jsx:309-320 | the identity is adopted or cleared, and the screen stays valid |
| `Workbench.Screen.Adopt` | apps/web/src/App.jsx:213-228 | the rows, marks and flag after a page arrived |
| `Workbench.Screen.Release` | apps/web/src/App.jsx:194-201 | the lock is released whoever else holds it, and a refused credential ends the session |
| `Workbench.Screen.Settle` | apps/web/src/App.jsx:191-230 | what each operation does when its answer arrives; the screen stays valid |
| `PathResolution.Resolve` | apps/web/server.mjs:205 | the stack loop ends where a walk along the segments ends |
| `PathResolution.TextCheckIsExact` | apps/web/server.mjs:206 | the text check passes exactly the root and what is below it |
| `PathResolution.Locate` | apps/web/server.mjs:203-210 | refused exactly when the place is outside the root, else the file or the shell |
| `PathResolution.OpenedIsBelowRoot` | apps/web/server.mjs:205-207 | whatever the path, the file opened is strictly below the root |
| `PathResolution.FileAskedForIsOpened` | apps/web/server.mjs:205-210 | a path that is not refused opens exactly the file it names below the root, and the shell when there is none |
| `PathResolution.UnclimbingPathOpensItsFile` | apps/web/server.mjs:205-210 | a path that never climbs opens the file of its own names, or the shell |
| `PathResolution.PlainNamesAreNormal` | apps/web/server.mjs:205 | a path of plain names is its own normal form |
| `PathResolution.UnclimbingPathIsNeverRefused` | apps/web/server.mjs:205-206 | a path whose `..` never climb above the root is never refused |
| `PathResolution.RefusedExactly` | apps/web/server.mjs:205-206 | a path is refused exactly when it leaves directories of the root and does not start by naming them again |
| `PathResolution.ClimbingIsUp` | apps/web/server.mjs:205 | some `..` climbs above the start exactly when the path's normal form begins with a step up |
| `ProxyHeaders.Rewrite` | apps/web/server.mjs:106-114 | header by header, what the API is told after the rewriting in place |
| `ProxyHeaders.WhatTheApiLearns` | apps/web/server.mjs:106-114 | two requests look alike to the API exactly when address, scheme, host and the untouched headers agree |
| `ProxyHeaders.StrippedHeadersDoNotInterfere` | apps/web/server.mjs:18-28 | with the Cloudflare flag off stripped headers have no influence |
| `ProxyHeaders.OnlyCloudflareIsHeard` | apps/web/server.mjs:63-69 | with it on, only the address Cloudflare states has |
| `ProxyHeaders.EveryHeaderIsAccountedFor` | apps/web/server.mjs:107-114 | stripped headers never arrive, all others arrive as they came or as stated here |
| `ProxyHeaders.AddressIsTheConnections` | apps/web/server.mjs:63-69 | the API is told Cloudflare's address when trusted and stated, and otherwise the connection's own |
| `ProxyHeaders.UnstatedSchemeIsTheConnections` | apps/web/server.mjs:55-56 | an unstated scheme is the connection's, or the one Cloudflare uses |
| `ProxyHeaders.NeverForwarded` | apps/web/server.mjs:18-28 | name by name, the headers that never reach the API |
| `ProxyHeaders.DeclaredSchemeIsReported` | apps/web/server.mjs:51-57 | the first declared scheme is read through blanks, case and later hops |
| `WebTier.ForwardsExactly` | apps/web/server.mjs:173-189 | exactly which requests reach the API |
| `WebTier.DocumentsExactly` | apps/web/server.mjs:190-218 | a file is streamed, and the shell sent, exactly when a request that reads documents names it |
| `WebTier.StatusExactly` | apps/web/server.mjs:124-219 | exactly which requests are answered 405, 400, 301, 404 and 200 |
| `WebTier.MovedExactly` | apps/web/server.mjs:140-201 | exactly which requests are moved, and where to |
| `WebTier.FaultsInNumbers` | apps/web/server.mjs:115-221 | the status of every fault and of a forwarded request |
| `WebTier.CanonicalHostExactly` | apps/web/src/surfaces.mjs:76-81 | the `www.` spelling is answered for exactly the hosts declared without it, unless declared too |
| `WebTier.NoDocumentWithoutItsHost` | apps/web/server.mjs:134-195 | no document from the API host or an undeclared one, which gets a refusal or its declared spelling |
| `WebTier.DocumentsLieBelowRoot` | apps/web/server.mjs:203-218 | a streamed file is a file strictly below the root |
| `WebTier.CanonicalRedirectShape` | apps/web/server.mjs:140-149 | the location's authority is the declared host, its path the pathname with leading slashes made one |
| `WebTier.OneRedirectFromAKnownHost` | apps/web/server.mjs:196-201 | a redirect from a known host is the last |
| `WebTier.AtMostTwoRedirects` | apps/web/server.mjs:134-201 | any request meets at most two redirects |
| `WebTier.Serve` | apps/web/server.mjs:124-219 | branch by branch: one head with the decided status, none after a throw or while the API or the shell's file is awaited, and a held shell is the surface's own |
| `WebTier.ServeDocument` | apps/web/server.mjs:190-219 | the same for redirects and documents |
| `WebTier.FinishShell` | apps/web/server.mjs:210-215 | after the read: the shell built for the surface with one head, or a throw without one |
| `WebTier.Upstream` | apps/web/server.mjs:115-120 | over every sequence of upstream events one head, that of the first event, and an uncaught exception exactly when a response follows another event |
| `WebTier.OneHeadExactlyWhenRespondingFirst` | apps/web/server.mjs:115-120 | the handlers write at most one head exactly when a response can only come first |
| `WebTier.Handle` | apps/web/server.mjs:221 | over every fault, order of events and interleaving of cache misses: one status line for each request, none only while the API has neither answered nor failed, and a shell that is sent is the surface's own |
| `WebTier.ShellCache.Cached` | apps/web/server.mjs:97-99 | a held shell is the one a fresh build gives |
| `WebTier.ShellCache.Store` | apps/web/server.mjs:100-104 | storing keeps that, whoever stored meanwhile |

## Left out

- `parseHostMap`, `requestHostname` and `x-forwarded-host` as a source of the hostname: the map and the addressed hostname are inputs.
- Percent-encoding, and the dot segments, backslashes and characters a browser's URL parser normalises: a pathname is the text after that, its decoding an optional input.
- The `lang` query, the hash, and the correction of the workbench's address in the browser history.
- `pathLocale` of a link opened without a locale falls back to the browser's language, which is an input; how it is negotiated is not modelled.
- Header names are lower case and single-valued, as Node delivers them for requests; the array branches of `forwardedProto` and `clientIp` are not modelled.
- A head that Node refuses to write because of an invalid character, and a stream that fails after its head: sockets and streams are outcomes only; bodies other than the shell are abbreviated.
- A changed `index.html` while the server runs: the shells are those of the file at its first read.
- `cachePolicy`, MIME types, security headers, `injectRuntimeConfig`: the shell is built by a function given from outside.
- `Workbench.ListingsAreSafe`: says nothing of a table whose listing changed since its last load; offsets then shift, which the API does not promise to prevent.
- `Workbench.Screen.Act`: roles and the fields a control needs are taken as satisfied, which only allows more runs; a sign-out without a credential, which does not wait, is not modelled; the empty credential after a sign-out stays the identity's, whose requests the API would refuse.
- Catalogue rows of the workbench: only the effect of their operations on the lock is modelled.
- The worker's polling loop, its re-authentication and tenancy re-check, and when it probes: health takes the signals as they come.
- Reading the evidence file, the ClamAV protocol and the scanner's timeout: an attempt ends in a verdict or a thrown code.
- Correlation identifiers and log lines of the queue; a commit whose acknowledgement is lost counts as a commit.
- `Retention.RecordStaysTruthful`: tombstones of successive operations share one place, and legacy suffix tombstones, symbolic links and storage-key collisions are not modelled; the audit record of a deletion is a counter.
- Two database statements of one retention call are separate steps; within one PostgreSQL function a call is atomic.
- Assessment, gaps, freezing, dossiers, the audit hash chain, permissions and sessions of the API.
