# Thalos backend: a verified model

Thalos is an escrow backend. It keeps agreements with milestones, mirrors escrows held by
Trustless Work on Stellar, splits disputed funds by percentage, and retries remote calls from a
queue that must survive crashes. This project models the parts of it where a mistake would lose
money, run a job too often or leave an agreement in the wrong state, and proves what they promise.

| file | what it models |
|---|---|
| `Distributions.dfy`, `EscrowResolution.dfy` | dispute payouts: percentages to stroops, the remainder, the re-checks, the total they split |
| `RetryJobs.dfy`, `RetryMachine.dfy`, `RetryRuns.dfy`, `RetryQueue.dfy`, `RetryProgress.dfy` | the persistent retry queue: rows and backoff, a statement-level machine with crashes, what holds over its runs, the service itself, whose poll is a run of the machine, and what makes every job settle |
| `Lifecycle.dfy`, `AgreementRecords.dfy`, `AgreementRuns.dfy`, `SyncRuns.dfy`, `Participants.dfy`, `AgreementServices.dfy` | the agreement state machine, every writer of an agreement, its participants, and the services over one database |
| `Disputes.dfy` | disputes, resolutions, and the statuses they drive |
| `Money.dfy` | decimal strings, cents, and the validators that compare a total with its milestones |
| `Verification.dfy` | aggregation of verification records |
| `MemoryQueue.dfy` | the in-memory queue of the sync engine |
| `Applications.dfy`, `Wallets.dfy` | who may win an opportunity; which wallet is primary |

Conventions. A table is a sequence or map of rows and a service method is a step, or a short
sequence of steps, on it; a service that updates its fields is a class whose methods state the whole
new state, most of them by a function on which the whole-run lemmas are then proved. Numbers are
exact (`real` for JavaScript numbers, `int` for stroops, cents and milliseconds). Clock readings,
handler replies, access decisions, what Trustless Work answers, and the order in which the database
returns rows are parameters, so a lemma about every run holds for all of them.

Where the code and its own words differ, the model follows the code:

- A dispute payout says "the set must total exactly 100", but 1e-9 is tolerated, so the remainder
  handed to the largest share can be negative; it is proved harmless below 10^11 allocations, far
  more than an array can hold.
- "Allocations of 0% are dropped": `ZeroPercentPaidIff` gives the one situation in which a 0% party
  is paid.
- "Never hand out more than the contract holds": the cap is off exactly when the balance is not
  positive (`EscrowResolution.SplitByPercentage`, last clause; `EscrowResolution.EmptyEscrowCanPay`).
- The sync engine protects no terminal status but completed (`SyncRuns.OnlyCompletedSurvivesSync`).
- A dispute webhook job can dispute an agreement again after the dispute was withdrawn; only on an
  agreement that is over does it act at most once (`AgreementRuns.DisputeJobsActOnceIff`). With sync
  pulls in between, funded and cancelled jobs can act again too; only completion is for good
  (`AgreementRuns.WebhookActsOnceIff`).
- A withdrawn dispute is final exactly when no resolver had been assigned
  (`Disputes.WithdrawnIsFinalIff`).
- Opening a dispute leaves it open even when the agreement may not move to disputed, and a dispute
  left open so keeps the agreement from being disputed later (`Disputes.AgreementFollowsIff`,
  `Disputes.PendingCanHaveDispute`, `Disputes.StrayDisputeBlocks`).
- A job's first try is made even when its maximum is zero or less, so its budget is the larger of
  its maximum and one (`RetryRuns.MaximumBoundsIff`).
- A milestone event whose read of the agreement fails is dropped, while a status event is retried
  (`AgreementServices.ApplyMilestoneUpdate`, `AgreementServices.ApplyStatusUpdate`).
- Nothing keeps two polls from overlapping, and if they do a job that succeeded can be pending again
  (`RetryProgress.OverlapUndoesSuccess`); the runs considered have one worker at a time.
- A job left in processing by a crash is settled by nothing but a reclaim
  (`RetryProgress.OrphansWait`).
- A webhook may store a blank milestone description, after which every milestone update of that
  agreement is refused (`AgreementRuns.WebhookBlanksIff`, `AgreementRuns.BlankDescriptionBlocks`).

## Model

| member | source | states |
|---|---|---|
| `Distributions.StroopsRoundTrip` | src/disputes/dispute-distributions.ts:42-55 | an amount made from stroops rounds back to the same stroops |
| `Distributions.AssertAllocations` | src/disputes/dispute-distributions.ts:57-86 | accepts exactly the sound allocations; otherwise the refusal is the one of the first allocation at fault, then duplicates, then the total |
| `Distributions.AcceptableMeans` | src/disputes/dispute-distributions.ts:57-86 | what sound allocations are, in so many words: trimmed addresses not blank and different, finite percentages from 0 to 100, 100 in total give or take 1e-9 |
| `Distributions.FaultMeans` | src/disputes/dispute-distributions.ts:62-72 | which complaint an allocation gets: a blank address first, then a percentage that is no number, then one out of range |
| `Prelude.TrimDropsSpace` | src/disputes/dispute-distributions.ts:63-74 | trimming drops all white space at both ends and nothing else |
| `Distributions.SetSizeIsLengthIffDistinct` | src/disputes/dispute-distributions.ts:74-79 | comparing set size with length detects a repeated address exactly |
| `Distributions.Absorber` | src/disputes/dispute-distributions.ts:106-111 | the absorbing position is the earliest one with a maximal share |
| `Distributions.LargestShare` | src/disputes/dispute-distributions.ts:106-111 | the loop finds that position |
| `Distributions.AbsorbRemainder` | src/disputes/dispute-distributions.ts:102-113 | the in-place update yields the shares with the remainder added at the absorber |
| `Distributions.SplitStroops` | src/disputes/dispute-distributions.ts:97-114 | the loop's result is the specified split, on which the three laws below are proved |
| `Distributions.RemainderBounds` | src/disputes/dispute-distributions.ts:98-104 | the remainder lies in [-T * 1e-11, n + T * 1e-11) for every tolerated total of percentages |
| `Distributions.SplitConserves` | src/disputes/dispute-distributions.ts:88-114 | conservation: shares are non-negative and add up to the total to the stroop, even when the remainder is negative |
| `Distributions.SplitIsFair` | src/disputes/dispute-distributions.ts:88-114 | fairness: everyone but the absorber gets the floor of its exact share; the absorber gets its exact share plus less than n - 1 stroops (up to the slack in the percentages) |
| `Distributions.ZeroPercentPaidIff` | src/disputes/dispute-distributions.ts:97-114 | a 0% party is paid if and only if it is listed first and every exact share is below one stroop |
| `Distributions.ZeroMeansNothing` | src/disputes/dispute-distributions.ts:128-132 | with a stroop or more per allocation and percentages totalling 100, a 0% party gets nothing |
| `Distributions.ZeroPercentCanBePaid` | src/disputes/dispute-distributions.ts:106-112 | below that bound it fails: one stroop split 0/50/50 goes to the 0% party |
| `Distributions.PayableSum` | src/disputes/dispute-distributions.ts:148-154 | dropping empty shares and converting to amounts loses no stroop |
| `Distributions.PayableMembers` | src/disputes/dispute-distributions.ts:148-154 | exactly the parties with a positive share appear, each once, with a positive amount |
| `Distributions.BuildDistributions` | src/disputes/dispute-distributions.ts:138-188 | succeeds exactly on sound allocations and a positive finite total; the amounts add up to the total, exactly when it has at most seven decimals and within half a stroop otherwise; the payload is non-empty, positive and free of duplicates; "rounded to zero" and the final re-check never fire |
| `Distributions.PayableAmounts` | src/disputes/dispute-distributions.ts:51-55 | the amounts themselves, not their stroops: each of at most seven decimals, worth in total the shares at ten million to the unit |
| `Distributions.PayoutPaysOut` | src/disputes/dispute-distributions.ts:138-162 | a payout's amounts total what it was asked to pay, without rounding error beyond half a stroop |
| `Distributions.WithinContractIff` | src/disputes/dispute-distributions.ts:171-188 | the re-check lets through exactly what Trustless Work accepts: the whole balance, or no more than the milestone |
| `Distributions.TwoPartiesAcceptedIff` | src/disputes/dispute-distributions.ts:197-207 | a two-party split is accepted exactly for a share in 0..100 and two distinct, non-blank addresses |
| `Distributions.TwoPartiesShare` | src/disputes/dispute-distributions.ts:197-207 | the approver is offered the share named, the service provider the rest |
| `EscrowResolution.SplitByPercentage` | src/internal-trustless/escrows.controller.ts:335-348 | end to end, in money: single-release pays out the whole balance, multi-release the lesser of milestone amount and balance; the payout stays within the balance if and only if the balance is positive; exactly when each refusal is given |
| `EscrowResolution.EmptyEscrowCanPay` | src/internal-trustless/escrow-read.helper.ts:202-203 | the cap fails at balance 0: for every milestone amount and two distinct parties, an accepted 60/40 split pays the whole amount out of nothing |
| `RetryJobs.BackoffPositive` | src/retry-queue/retry-queue.constants.ts:14-18 | a positive base and cap give a positive delay after every attempt |
| `RetryJobs.UncappedComeFirst` | src/retry-queue/retry-queue.constants.ts:14-18 | the delays below the cap are exactly the first m |
| `RetryJobs.TotalDelayClosedForm` | src/retry-queue/retry-queue.constants.ts:14-18 | n delays add up to base * (2^m - 1) + (n - m) * cap |
| `RetryJobs.FindKey` | src/retry-queue/retry-queue.service.ts:137-145 | the lookup returns a row with the key, and nothing only when there is none |
| `RetryMachine.StepRows` | src/retry-queue/retry-queue.service.ts:308-320 | a statement appends at most one row, rewrites only the row it names, and never a job's type, key, payload or maximum |
| `RetryMachine.StepKeepsCallers` | src/retry-queue/retry-queue.service.ts:94-135 | every statement keeps keys unique and answered callers pointing at their key's row |
| `RetryMachine.StepKeepsWorker` | src/retry-queue/retry-queue.service.ts:168-263 | every statement keeps the worker's snapshots equal to the rows they were read from |
| `RetryMachine.RunKeepsInv` | src/retry-queue/retry-queue.service.ts:94-263 | both hold in every run, with enqueues interleaved and crashes or failed statements anywhere |
| `RetryRuns.AttemptBudget` | src/retry-queue/retry-queue.service.ts:193-306 | attempts counts the starts of a job and never exceeds its maximum plus its reclaims and manual retries; a pending job is strictly below |
| `RetryRuns.SucceededIsFinal` | src/retry-queue/retry-queue.service.ts:208-218 | a succeeded row is never touched again |
| `RetryRuns.StepLowersBalance` | src/retry-queue/retry-queue.service.ts:193-246 | each start and finish uses up potential summed over the queue; nothing else but reclaims and manual retries adds any |
| `RetryRuns.UnsettledHasPotential` | src/retry-queue/retry-queue.service.ts:223-244 | without reclaims and manual retries a job is tried at most its maximum, and has potential left exactly while unsettled |
| `RetryRuns.QueueWindsDown` | src/retry-queue/retry-queue.service.ts:193-246 | then starts, finishes and unsettled jobs together never exceed twice the sum of the maxima: a bound on the work of every run |
| `RetryRuns.MaximumBoundsIff` | src/retry-queue/retry-queue.service.ts:193-246 | a job's own maximum, with its reclaims and manual retries, bounds its attempts in every run if and only if the maximum is at least one |
| `RetryRuns.FirstTryIsMade` | src/retry-queue/retry-queue.service.ts:168-195 | a reachable run in which a job of any maximum, zero and less included, is started |
| `RetryProgress.WorkRunsOut` | src/retry-queue/retry-queue.service.ts:168-246 | progress: from any state crashes may have led to, and through further failures, at most as many polls find work as there are tries left, and one more for each failure; after that many an idle worker leaves every job succeeded or failed |
| `RetryProgress.ProductiveIff` | src/retry-queue/retry-queue.service.ts:171-185 | a poll finds work exactly when some pending job is due |
| `RetryProgress.QueueSettles` | src/retry-queue/retry-queue.service.ts:168-246 | so as many patient polls (no row in processing and every pending one due when they select) as there are tries left, and one more for each failure, settle every job |
| `RetryProgress.PollsSettleEveryJob` | src/retry-queue/retry-queue.service.ts:168-246 | without failures, as many completed polls as the jobs' maxima together, all of them patient, settle every job |
| `RetryProgress.TriesWithinMaxima` | src/retry-queue/retry-queue.service.ts:193-246 | the tries left never exceed the jobs' maxima together |
| `RetryProgress.LatePollIsPatient` | src/retry-queue/retry-queue.service.ts:168-190 | a poll that comes the longest delay and the stale time after the last statement is patient: it reclaims every orphan and finds every pending job due |
| `RetryProgress.TimesAreNear` | src/retry-queue/retry-queue.service.ts:235-244 | in every run no job is timed further ahead than the longest delay |
| `RetryProgress.OrphansWait` | src/retry-queue/retry-queue.service.ts:290-306 | a row left in processing stays as it is in every run until it is reclaimed |
| `RetryRuns.YoungAreNotReclaimed` | src/retry-queue/retry-queue.service.ts:290-306 | in every run a reclaimed row is in processing, and its attempt started at least the stale time ago |
| `RetryRuns.ReclaimsComeFirst` | src/retry-queue/retry-queue.service.ts:168-189 | unless something fails, a poll selects only after every stale row it found is reclaimed |
| `RetryRuns.CrashKeepsTable` | src/retry-queue/retry-queue.service.ts:75-79 | a crash keeps the table and what was answered; the worker and every caller under way are gone |
| `RetryRuns.AbortFreesWorker` | src/retry-queue/retry-queue.service.ts:308-320 | a failed read or write of the worker costs nobody but the cycle |
| `RetryProgress.OverlapUndoesSuccess` | src/retry-queue/retry-queue.service.ts:75-79 | for every pending job: when two polls that hold it overlap and the first attempt succeeds and the second fails, the job is pending again, or failed when that was its last try |
| `RetryProgress.OnlyPendingIsUnsettled` | src/retry-queue/retry-queue.service.ts:168-246 | nothing having failed, what an idle worker leaves unsettled is pending and has tries left |
| `RetryRuns.OnlyFailuresOrphan` | src/retry-queue/retry-queue.service.ts:290-306 | without crashes and failed statements a row in processing is the one being attempted |
| `RetryRuns.OneJobPerKey` | src/retry-queue/retry-queue.service.ts:90-135 | any interleaving of lookup-then-insert callers leaves one row per key, and all callers of a key get its id |
| `RetryRuns.JobsKeepTheirIdentity` | src/retry-queue/retry-queue.service.ts:90-135 | a job keeps its place, type, key, payload and maximum in every later state |
| `RetryRuns.RacesAreNotRefused` | src/retry-queue/retry-queue.service.ts:124-131 | losing the insert race is never an error |
| `RetryRuns.NeverEarly` | src/retry-queue/retry-queue.service.ts:171-189 | in every run an automatic attempt starts only on a pending job whose time has come |
| `RetryRuns.TimeStays` | src/retry-queue/retry-queue.service.ts:228-244 | between attempts nothing moves a job's next time |
| `RetryRuns.FailedAttemptIsRetimed` | src/retry-queue/retry-queue.service.ts:235-244 | failed attempt k, if not the last, re-times its job to exactly now + min(base * 2^(k - 1), cap) |
| `RetryRuns.DelaysAreClosedForm` | src/retry-queue/retry-queue.service.ts:223-244 | with equality: over every run the delays scheduled for a job not reclaimed or retried by hand add up to base * (2^m - 1) + (n - m) * cap |
| `RetryRuns.BackoffIsWaitedOut` | src/retry-queue/retry-queue.service.ts:235-244 | after failed attempt k the next automatic start comes at least the backoff of k later |
| `RetryRuns.StartsKeepSchedule` | src/retry-queue/retry-queue.constants.ts:14-18 | over every run, crashes included, start n + 1 of a job not reclaimed or retried by hand comes at least base * (2^m - 1) + (n - m) * cap after its first |
| `RetryRuns.PollsAreFull` | src/retry-queue/retry-queue.service.ts:171-189 | a poll that passes over a due job is full of jobs timed at or before it |
| `RetryRuns.StartsUseUpRivals` | src/retry-queue/retry-queue.service.ts:168-246 | every start takes away one rival of a waiting job, and no rival comes back unless it is reclaimed |
| `RetryRuns.BoundedWaiting` | src/retry-queue/retry-queue.service.ts:168-246 | a due job with r rivals starts within r / concurrency + 1 completed polls, every reclaim and every job enqueued by its time counting as one more rival; crashes, failed statements, enqueues and manual retries interleave freely |
| `RetryQueue.RetryQueueService.Enqueue` | src/retry-queue/retry-queue.service.ts:94-135 | a known key returns its row and writes nothing, even when the lookup missed it and the insert met the unique key; a new key appends one pending row, untried, due at once, with the limit asked for or the default; exactly which failing statements make it throw, and that nothing is then written |
| `RetryQueue.RetryQueueService.ProcessJob` | src/retry-queue/retry-queue.service.ts:193-246 | one attempt writes exactly one row; field by field what it holds after a missing handler, a success, a last failure and a failure to be retried, the retry time included |
| `RetryQueue.RetryQueueService.ReclaimStaleProcessingJobs` | src/retry-queue/retry-queue.service.ts:290-306 | exactly the rows in processing last written the stale time ago go back to pending |
| `RetryQueue.RetryQueueService.ProcessDueJobs` | src/retry-queue/retry-queue.service.ts:168-190 | one poll attempts each selected row once, on the row as reclaimed, and touches no other |
| `RetryQueue.RetryQueueService.ProcessEach` | src/retry-queue/retry-queue.service.ts:186-189 | the loop over snapshots read beforehand attempts every row as it still is |
| `RetryQueue.RetryQueueService.ManualRetry` | src/retry-queue/retry-queue.service.ts:249-263 | one attempt of a pending or failed job; the three refusals change nothing |
| `RetryQueue.PollIsARun` | src/retry-queue/retry-queue.service.ts:168-190 | the service's poll refines the machine: its statements are an enabled run that leaves the same rows |
| `RetryQueue.ManualRetryIsARun` | src/retry-queue/retry-queue.service.ts:249-263 | a manual retry of a pending or failed job is a run of the machine with the same row |
| `RetryQueue.EnqueueIsARun` | src/retry-queue/retry-queue.service.ts:94-135 | an enqueue is a run of the machine, whichever of its statements fail, with the same row and answer |
| `Lifecycle.ValidateTransition` | src/agreements/agreement.validator.ts:171-196 | no errors exactly on an edge of the table |
| `Lifecycle.GuardsAgree` | src/agreements/validation/agreement-validation.service.ts:23-70 | the second copy of the table and its extra checks accept the same transitions as the first |
| `Lifecycle.EdgesClimb` | src/agreements/agreement-lifecycle.ts:44-64 | every edge climbs the rank or stays among active, in review and disputed; terminal statuses have none |
| `Lifecycle.FlagsDecideStatus` | src/common/milestone-status.ts:47-55 | exactly when each status results; the provider's text never makes a milestone approved or released and matters only while no flag is set |
| `Lifecycle.CanonicalByName` | src/common/milestone-status.ts:19-32 | the four milestone statuses there are; anything else is dropped |
| `AgreementRecords.CompletionGate` | src/agreements/agreement-lifecycle.ts:67-107 | a user may complete an agreement if and only if it is in review and every milestone is approved or released |
| `SyncRuns.ReconcilingSettles` | src/agreements/sync/agreement-sync.service.ts:453-481 | reconciling keeps every milestone's worth, gives canonical statuses as far as both lists reach, touches none beyond, and settles after one pass |
| `SyncRuns.SecondReconcileIsIdle` | src/agreements/sync/agreement-sync.service.ts:421-498 | a second reconciliation against the same escrow leaves the row alone, from any status |
| `AgreementRuns.CallFollowsTable` | src/agreements/agreements.service.ts:201-258 | every status change of users, disputes and webhooks is an edge of the table, and times are written only when absent |
| `AgreementRuns.LifecycleOverRuns` | src/agreements/agreement-lifecycle.ts:44-64 | over every run without sync pulls: rank never falls, terminal statuses are final, each time is written at most once, completion time set exactly in completed and resolved |
| `AgreementRuns.NewRecordTimesMatch` | src/agreements/agreements.service.ts:76-87 | a new agreement satisfies the invariant that run starts from |
| `AgreementRuns.WebhookEffect` | src/webhooks/webhooks.service.ts:136-227 | event by event and status by status what a status webhook does to the row, times included, and that it does nothing in every other case |
| `AgreementRuns.EventKinds` | src/webhooks/webhooks.service.ts:28-46 | which events change a status, which a milestone, and which nothing |
| `AgreementRuns.WebhookMilestoneMeans` | src/webhooks/webhooks.service.ts:232-286 | what a milestone event does to the milestone named, and to nothing else |
| `AgreementRuns.MilestoneUpdateMeans` | src/agreements/agreements.service.ts:313-356 | an accepted update gives the milestone named the status asked for and the evidence given, and changes nothing else |
| `AgreementRuns.WebhookJobsAreIdempotent` | src/webhooks/webhooks.service.ts:136-215 | re-running a funded, completed or cancelled job changes the status at most once in any run without sync pulls |
| `AgreementRuns.CompletedJobsActOnce` | src/webhooks/webhooks.service.ts:136-215 | a completed job acts at most once in every run whatsoever, pulls and reconciliations included |
| `AgreementRuns.WebhookActsOnceIff` | src/webhooks/webhooks.service.ts:28-46 | for a linked agreement and runs with sync pulls: a webhook job acts at most once in every run if and only if it completes the agreement or the agreement is completed already |
| `AgreementRuns.CompletedIsFinal` | src/agreements/sync/agreement-sync.service.ts:354-369 | no run of calls of any kind leaves completed |
| `AgreementRuns.DisputeJobsActOnceIff` | src/webhooks/webhooks.service.ts:28-46 | dispute jobs change the status at most once in every run without sync pulls if and only if the agreement is over |
| `AgreementRuns.DisputeJobsAreBounded` | src/webhooks/webhooks.service.ts:136-215 | in every run without sync pulls they act at most once more than the dispute is taken back to active |
| `AgreementRuns.DisputeWebhookRepeats` | src/webhooks/webhooks.service.ts:28-46 | from every active agreement: dispute, withdraw, and the same job acts again |
| `AgreementRuns.CallIsAudited` | src/agreements/agreements.service.ts:617-636 | every call keeps the log telling the status, sync pulls included |
| `AgreementRuns.LogTellsStatus` | src/agreements/sync/agreement-sync.service.ts:375-404 | in every reachable state replaying the log from "pending" gives the status, and each recorded origin is right |
| `AgreementRuns.MoneyOverRuns` | src/agreements/agreements.service.ts:313-356 | no call of any kind changes the terms, the amount, the number or worth of milestones, or leaves a status outside the vocabulary; balanced stays balanced |
| `AgreementRuns.MilestoneUpdateRefusedIff` | src/agreements/agreements.service.ts:313-340 | an update of an accepted agreement is refused exactly for a bad index or a blank description left by a webhook |
| `AgreementRuns.WebhookBlanksIff` | src/webhooks/webhooks.service.ts:256-286 | exactly which payloads leave a blank description behind |
| `AgreementRuns.BlankDescriptionBlocks` | src/webhooks/webhooks.service.ts:256-286 | a description of one space is such a payload: after it every milestone update of the agreement is refused |
| `SyncRuns.SyncsJoin` | src/agreements/sync/agreement-sync.service.ts:340-405 | from any status, a run of passes and reconciliations ends at the furthest chain status among the start and those observed; only while none is on the chain does the last report stand |
| `SyncRuns.FurthestIsUnique` | src/agreements/sync/agreement-sync.service.ts:354-369 | that status is determined by the statuses seen |
| `SyncRuns.SyncOrderIrrelevant` | src/agreements/sync/agreement-sync.service.ts:340-405 | once a chain status is involved, order and repetition of passes and reconciliations do not matter to the status, nor those of passes to anything else |
| `SyncRuns.SecondPassIsIdle` | src/agreements/sync/agreement-sync.service.ts:340-405 | a second pass over the same escrow leaves the row alone, from any status |
| `SyncRuns.OnlyCompletedSurvivesSync` | src/agreements/sync/agreement-sync.service.ts:354-369 | a linked agreement keeps its status through every possible pass if and only if it is completed; cancelled and resolved ones can be reopened |
| `SyncRuns.KeptIff` | src/agreements/sync/agreement-sync.service.ts:340-369 | one pass keeps the status exactly when it is the one reported or strictly further along the chain |
| `SyncRuns.PassByName` | src/agreements/sync/agreement-sync.service.ts:340-405 | report by report and status by status what one pass leaves |
| `AgreementServices.Create` | src/agreements/agreements.service.ts:68-163 | creates a pending, balanced agreement with its participants exactly when the request is acceptable and permitted and both inserts go through; a failing participant insert takes the row out again |
| `AgreementServices.AcceptedTerms` | src/agreements/agreements.service.ts:76-87 | an accepted agreement stores the title, description, metadata and creator it was given, is in USDC, of type "single" unless it says otherwise and, with milestones, "multi" exactly when it has several |
| `AgreementServices.LogCreation` | src/agreements/agreements.service.ts:115-140 | one entry for the agreement, then one for each milestone in order |
| `AgreementServices.UpdateStatus` | src/agreements/agreements.service.ts:201-296 | moves exactly along the table; to completed exactly from review with every milestone approved or released, and with the time; a refusal or a failing write changes nothing |
| `AgreementServices.ApplyStatusChange` | src/agreements/agreements.service.ts:577-657 | the shared status write from the claimed or the stored status: row, time and log entry, or nothing when the guard refuses or the write fails |
| `AgreementServices.UpdateMilestone` | src/agreements/agreements.service.ts:298-431 | writes one milestone's status and evidence, exactly when the result is consistent and the write goes through |
| `AgreementServices.ApplyStatusUpdate` | src/webhooks/webhooks.service.ts:136-230 | acts on the linked agreement only; a refused transition is logged; an error, so that the job is retried, is a failed read, a failed write or an unknown contract, and writes nothing |
| `AgreementServices.ApplyMilestoneUpdate` | src/webhooks/webhooks.service.ts:232-305 | patches the named milestone of the linked agreement and nothing else; exactly when it errs: a failed write; a failed read drops the event |
| `AgreementServices.DoSync` | src/agreements/sync/agreement-sync.service.ts:306-419 | one pass: the row, the entry, the participants, whether it synced and in which direction, for every case, the failed read and the failed write included |
| `Participants.SyncParticipants` | src/agreements/sync/agreement-sync.service.ts:501-547 | the loop over existing roles and the three conditional pushes join the parties not listed yet |
| `Participants.JoiningSettles` | src/agreements/sync/agreement-sync.service.ts:501-547 | joining loses nobody, lists every party the escrow names, and adds nobody the second time |
| `Participants.ListedIsMember` | src/agreements/sync/agreement-sync.service.ts:510-540 | as wallets hold no colon, somebody counts as listed exactly when in the table with that role |
| `AgreementServices.ReconcileMilestones` | src/agreements/sync/agreement-sync.service.ts:453-481 | the indexed loop computes the reconciled list, and counts no change exactly when there was none |
| `AgreementServices.DoReconcile` | src/agreements/sync/agreement-sync.service.ts:421-498 | a pass and then, unless it failed or had nothing to do, the milestones of a second read; exactly when it reports success |
| `Disputes.DocketOverRuns` | src/disputes/disputes.service.ts:99-356 | in every serial run: at most one live dispute per agreement; resolved exactly when there is one resolution row, which splits 100 percent without a negative part and is by the assigned resolver |
| `Disputes.ResolvedIsFinal` | src/disputes/disputes.service.ts:227-356 | a resolved dispute and its resolution never change again |
| `Disputes.WithdrawnIsFinalIff` | src/disputes/disputes.service.ts:246-281 | a withdrawn dispute stays as it is whatever is called if and only if no resolver had been assigned |
| `Disputes.WithdrawnCanBeResolved` | src/disputes/disputes.service.ts:253-281 | a withdrawn dispute of a reachable docket that is then resolved |
| `Disputes.AgreementFollowsIff` | src/disputes/disputes.service.ts:99-161 | after opening there is a live dispute in any case; the agreement is disputed exactly when it was already, or no dispute was live, it was active or in review, and the write went through |
| `Disputes.PendingCanHaveDispute` | src/disputes/disputes.service.ts:119-161 | every fresh agreement can have a live dispute and stay pending |
| `Disputes.StrayDisputeBlocks` | src/disputes/disputes.service.ts:103-117 | a stray dispute of a fresh agreement blocks the next one: the agreement, active by then, stays active |
| `Disputes.OpenDispute` | src/disputes/disputes.service.ts:99-180 | files the dispute first; succeeds exactly when none is live and the agreement may move to disputed; exactly when it fails leaving a live dispute behind |
| `Disputes.AssignResolver` | src/disputes/disputes.service.ts:182-225 | only an open dispute gets a resolver and goes under review |
| `Disputes.ResolveDispute` | src/disputes/disputes.service.ts:227-325 | files the resolution of the assigned resolver, then resolves the agreement if the table allows |
| `Disputes.CancelDispute` | src/disputes/disputes.service.ts:327-396 | the opener withdraws an unresolved dispute, then the agreement goes back to active if the table allows |
| `Disputes.DisputeWritesAreCalls` | src/disputes/disputes.service.ts:136-170 | what dispute calls write to an agreement is a run of the calls the whole-run lemmas cover |
| `Money.NaturalRoundTrip` | src/agreements/agreement.validator.ts:45-49 | the decimal text of a number reads as that number |
| `Money.WholeAmount` | src/agreements/agreement.validator.ts:45-49 | the text of n is an amount worth n, and 100 * n cents |
| `Money.CentAmount` | src/agreements/agreement.validator.ts:45-49 | n followed by a point and two digits d is worth 100 * n + d cents |
| `Money.AmountForm` | src/agreements/agreement.validator.ts:45-66 | an amount is digits, or digits, a point and digits, and nothing else is |
| `Money.PositiveIff` | src/agreements/agreement.validator.ts:63-66 | an amount is valid exactly when some digit of it is not zero |
| `Money.CentsAreClose` | src/agreements/agreement.validator.ts:45-49 | cents are within half a cent of the amount written |
| `Money.CentsAreExact` | src/agreements/agreement.validator.ts:45-49 | and exact for at most two decimals |
| `Money.SumIsClose` | src/agreements/agreement.validator.ts:116-127 | n milestones: the sum in cents is within n / 2 of the sum of amounts, exact for two decimals |
| `Money.BalancedWithinCents` | src/agreements/agreement.validator.ts:116-127 | an accepted total is within (n + 1) / 2 cents of its milestones, equal for two decimals |
| `Money.HeaderFaults` | src/agreements/agreement.validator.ts:68-90 | no complaint exactly when title, description, amount and asset are fine |
| `Money.MilestoneFaults` | src/agreements/agreement.validator.ts:92-114 | no complaint exactly when every milestone is described and priced |
| `Money.ParticipantFaults` | src/agreements/agreement.validator.ts:150-166 | no complaint exactly when there are participants, none blank |
| `Money.ValidateAgreement` | src/agreements/agreement.validator.ts:68-169 | no errors exactly for an acceptable agreement; the sum is compared exactly when everything before it is fine |
| `Money.AcceptsMeans` | src/agreements/agreement.validator.ts:68-169 | in so many words what a request must say to be accepted |
| `Money.ValidateAgreementConsistency` | src/agreements/agreement.validator.ts:198-251 | no errors exactly for a consistent stored agreement |
| `Money.ConsistentMeans` | src/agreements/agreement.validator.ts:198-251 | in so many words what a stored agreement must satisfy |
| `Money.SameAmountsSameSum` | src/agreements/agreement.validator.ts:198-251 | milestones that keep their amounts keep their sum, so the check keeps its verdict on it |
| `Verification.AggregateIsArgmax` | src/verification/verification.service.ts:130-182 | filter and sort pick a valid verified record no other is better than; verified exactly when some record is valid |
| `Verification.LevelIsHighest` | src/verification/verification.service.ts:13-18 | level by level: the response says advanced exactly when some current record is advanced, standard when none is but some is standard, and so on; current is verified and not past its expiry |
| `Verification.NewestOfLevel` | src/verification/verification.service.ts:147-169 | among the current records of that level the one chosen was updated last; provider and expiry are its own |
| `Verification.UnverifiedStatus` | src/verification/verification.service.ts:184-196 | without a current record: pending wins, then expired or lapsed, then rejected |
| `Verification.SortPicksBest` | src/verification/verification.service.ts:149-156 | the stable sort puts the earliest of the best first |
| `Verification.LastUpdatedIsLatest` | src/verification/verification.service.ts:143-147 | sorting the update times and taking the last gives the latest |
| `Verification.RepetitionIrrelevant` | src/verification/verification.service.ts:130-196 | verdict, status, level and last update depend only on which records there are |
| `Verification.OrderIrrelevant` | src/verification/verification.service.ts:130-196 | permuting the records changes neither verdict, status, level nor last update; nor provider and expiry without ties |
| `Verification.MoreRecordsNoLower` | src/verification/verification.service.ts:130-182 | another record never un-verifies a subject or lowers its level |
| `Verification.TimeNoHigher` | src/verification/verification.service.ts:130-196 | time passing never verifies a subject or raises its level |
| `MemoryQueue.IdForm` | src/common/retry/retry-queue.service.ts:225-231 | an id is at most twelve characters of the job type, other than letters and digits replaced, then time and counter |
| `MemoryQueue.Base36RoundTrip` | src/common/retry/retry-queue.service.ts:225-231 | base-36 text determines its number |
| `MemoryQueue.LastSegmentOf` | src/common/retry/retry-queue.service.ts:225-231 | the counter is what follows the last underscore, whatever the job type |
| `MemoryQueue.IdsDiffer` | src/common/retry/retry-queue.service.ts:225-231 | ids with different counters differ, whatever the type and time |
| `MemoryQueue.IdsOverRuns` | src/common/retry/retry-queue.service.ts:71-86 | over any run no id is issued twice and none replaces a queued job |
| `MemoryQueue.EffortIsAccounted` | src/common/retry/retry-queue.service.ts:170-223 | exact account in every run: tries and scheduled delay follow from the retry count, and no job is left in processing |
| `MemoryQueue.EffortIsBounded` | src/common/retry/retry-queue.service.ts:170-223 | at most maxRetries tries and 2000 * (4^(maxRetries - 1) - 1) / 3 ms of delay for each (re)queueing |
| `MemoryQueue.RetryWaits` | src/common/retry/retry-queue.service.ts:148-205 | over every run, after failed try k a job is next attempted, unless re-queued by hand, 2000 * 4^(k - 1) ms later at the earliest |
| `MemoryQueue.MemoryRetryQueue.Enqueue` | src/common/retry/retry-queue.service.ts:71-86 | is the machine's enqueue step and returns the fresh id of a job queued, due at once, with three tries unless told otherwise |
| `MemoryQueue.MemoryRetryQueue.RetryJob` | src/common/retry/retry-queue.service.ts:99-108 | re-queues exactly a failed job with a fresh count |
| `MemoryQueue.MemoryRetryQueue.ClearCompleted` | src/common/retry/retry-queue.service.ts:117-126 | the loop removes exactly the settled jobs and counts them |
| `MemoryQueue.MemoryRetryQueue.ProcessJob` | src/common/retry/retry-queue.service.ts:170-223 | one attempt is the machine's attempt step; field by field what the job holds after a missing handler, a success, a last failure and a failure to be retried |
| `MemoryQueue.MemoryRetryQueue.ProcessDueJobs` | src/common/retry/retry-queue.service.ts:148-168 | one poll attempts each due job once, leaves none in processing, and does nothing when another is under way |
| `MemoryQueue.MemoryRetryQueue.CollectDue` | src/common/retry/retry-queue.service.ts:152-158 | collects exactly the due jobs, each once |
| `Applications.AtMostOneWinner` | src/applications/applications.service.ts:194-252 | in every run an opportunity with an accepted application is filled, has no other winner and nothing pending |
| `Applications.WinnerIsFinal` | src/applications/applications.service.ts:194-252 | while the opportunity exists the winner stays accepted and nobody else becomes so |
| `Applications.ConnectService.ApplyTo` | src/applications/applications.service.ts:112-146 | goes through exactly for an open opportunity of another profile, once per builder |
| `Applications.ConnectService.UpdateStatus` | src/applications/applications.service.ts:194-252 | the three writes of an acceptance together are the machine's step |
| `Applications.ConnectService.UpdateOpportunity` | src/opportunities/opportunities.service.ts:182-264 | the owner's edits keep to the allowed status transitions, fields only while open |
| `Applications.ConnectService.RemoveOpportunity` | src/opportunities/opportunities.service.ts:266-285 | removes the opportunity and, by cascade, its applications |
| `Wallets.PrimaryOverRuns` | src/wallets/wallets.service.ts:515-620 | in every serial run a user has at most one primary wallet, and exactly one if and only if it was not un-set since |
| `Wallets.ExactlyOnePrimary` | src/wallets/wallets.service.ts:288-295 | when no update un-sets it, a user with wallets has exactly one primary |
| `Wallets.WalletsService.LinkWallet` | src/wallets/wallets.service.ts:262-295 | an already linked address returns its row; otherwise a proven wallet is added, primary exactly when first, and the primary index holds; a bad proof or a failing insert changes nothing |
| `Wallets.WalletsService.UpdateWallet` | src/wallets/wallets.service.ts:515-562 | clearing before setting keeps the primary index after each write |
| `Wallets.WalletsService.UnlinkWallet` | src/wallets/wallets.service.ts:567-620 | removing the primary promotes a remaining wallet; custodial wallets stay |

## Left out

- RetryMachine.StepKeepsWorker: assumes poll cycles overlap neither each other nor a manual retry, because nothing in the service guards against it and a stale snapshot would overwrite a newer row (`RetryProgress.OverlapUndoesSuccess`); enqueues interleave freely.
- RetryRuns.BoundedWaiting: counts reclaimed jobs, and jobs enqueued in the very millisecond the job is timed for, as rivals, because they may be selected before it.
- RetryQueue.RetryQueueService.Enqueue: runs its statements without interruption; the race between callers is in the machine (`RetryRuns.OneJobPerKey`).
- AgreementRuns.LifecycleOverRuns: leaves sync pulls out, because the sync engine does not consult the table; its own law is in `SyncRuns`.
- AgreementServices.Create: activity-log inserts are assumed to succeed here and in every other agreement call.
- AgreementServices.DoSync: the read and the insert of the copied participants are assumed to succeed.
- AgreementServices.DoReconcile: its second read of the agreement and its write of the milestones are assumed to succeed.
- RetryProgress.WorkRunsOut: new jobs and manual retries bring new work, so its runs have neither.
- MemoryQueue.EffortIsBounded: does not count the 60 s deferral of a job without a handler, which runs nothing and does not use up a retry.
- MemoryQueue.MemoryRetryQueue.ProcessDueJobs: each attempt is atomic; calls a handler makes back into the queue while awaited, and event listeners that throw, are not modelled.
- Disputes.DocketOverRuns: serial runs with successful writes to the dispute tables; evidence and comments are not kept.
- Wallets.WalletsService.LinkWallet: the ownership proof of each wallet type is one flag, and the retry without optional columns is omitted.
- IEEE doubles and decimal formatting: `fromStroops` is exact division, so its formatting to seven places is the identity.
- Object-prototype names in the validation service's `in` check: its table is a map with exactly its declared keys.
- Agreement calls are atomic and a contract is linked to at most one agreement; concurrent read-modify-write of one agreement is not modelled.
- `assertResolvable` and the trustline check before a resolution: independent guards on an escrow's flags with no arithmetic or state.
- `linkContract` and the extra events of `syncStatusTransition`: they write no status, amount or milestone.
- Notifications, events emitted, listing, pagination, milestone conflict detection, identity-vendor sessions, reputation: easy or finite.
- HTTP, guards, signatures, tokens, storage and network clients: input and output without a local property.
