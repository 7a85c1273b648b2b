# A model of the notification service, with proofs

The service sends scheduled and triggered notifications. Several instances share one MySQL database: they take send
jobs from one table, fire cron tasks under leases, and count requests in one counter table. This project models that
shared state and the code that moves it, and proves what holds over whole runs. Code that changes rows or fields step
by step is modelled by classes and loops, each proved against a function of the old state; the theorems are about those
functions, over every run, schedule or input.

Modules, by subject:

- **Send queue.** `SendJobs` has the table, every UPDATE statement and the repository. `QueueRuns` takes each repository
  call as one step, `QueueStatements` each SQL statement, with any interleaving and any crash; `QueueRefinement` connects
  the two, and `QueueAnomalies` says exactly when they differ. `QueueRetries` is about the waiting after a failure,
  `QueueLiveness` about endless schedules; `QueueTiming` adds the clock, `QueueService` the worker.
- **Cron.** `CronFiring` (lease and dedupe key), `TaskIndex` (registrations against the task table), `YearlySchedule`
  (schedules restricted to years), `ListRange` (lists and ranges of numbers).
- **Limits and logins.** `RateLimit` (shared counter behind per-instance caches), `LoginLock`, `TwoFactor`.
- **Stored data.** `Backup`, `BackupLaws`, `BackupRoundTrip`, `BackupValidity` (export and import), `Categories`
  (referential integrity).
- **Text.** `ListBreaks` (Markdown normalisation); `Text` and `Base` hold numerals, splitting, trimming and set facts.

What is given from outside: the clock readings of each step, the outcome of sending, the base cron schedule, the parser
of cron expressions, the regular expressions of the renderer, random keys, the one-time-code function, the hash and the
cipher. All are arbitrary functions or arguments.

Where the code does something else than its comments say, the model follows the code:

- The comment on `MarkFailed` says that a former holder's failure has no effect. That holds when the call is one step
  (`QueueRuns.FormerHolderHasNoEffect`). Its second UPDATE, however, is guarded by the id only. If the holder stalls
  between the two statements, a delivered job can become pending again or failed, and another instance can lose its live
  claim (`QueueAnomalies.DeliveredJobCanBeRevived`, `DeliveredJobCanFail`, `LiveClaimCanBeTaken`). The second UPDATE
  acts on the claim it belongs to if and only if, in between, no recovery found that claim stale and no other thread
  finished the job for the same instance or settled a MarkFailed on it (`QueueAnomalies.GapIsIntactIff`). Without such a
  disturbance every run of statements refines a run of atomic calls (`QueueRefinement.CalmRunRefinesCalls`), and with it
  the retry limit still bounds the hand-outs (`QueueStatements.BoundedSends`).
- `Claim` is described as not taking jobs whose retry time is in the future. Only its SELECT looks at that time. A job
  can be claimed too early (`QueueAnomalies.ClaimCanBeEarly`): it happens if and only if the job was released after the
  SELECT and the last release stored a retry time after the claim (`QueueAnomalies.ClaimIsEarlyIff`).
- Renewing every `renewInterval` protects a live claim exactly for a TTL that is unset or at least one second
  (`QueueTiming.RenewalPeriodIsSafeIff`): `RecoverStale` cuts the TTL down to whole seconds. For the same reason TTL plus
  recovery interval does not bound the time after which a silent holder is replaced
  (`QueueTiming.TtlAndIntervalAreNotEnough`); the exact bound is in `QueueTiming.SilentHolderBoundIff`.
- `YearlySpecSchedule.Next` jumps to January 1, 00:00 of the next allowed year and then asks for a strictly later
  trigger, so it misses a trigger at that very moment (`YearlySchedule.EarliestIff`,
  `YearlySchedule.NewYearScheduleFindsNothing`).
- A last counter of 0 means that no code has been used, so time step 0 (the first minute of 1970) can be accepted again
  (`TwoFactor.StepZeroCanBeRepeated`); apart from that no step is (`TwoFactor.StepsRiseStrictlyIff`).
- `EnsureExists` is there to make the categories of an import acceptable. INSERT IGNORE cuts names to the column's 50
  characters, so it does that exactly for names that fit (`Categories.EnsuredNamesAreAcceptedIff`).

## Model

| member | source | states |
|---|---|---|
| SendJobs.DueIds | internal/repository/send_job_repo.go:77-80 | the pending rows whose retry time has come, by ascending id; one is left out only when `limit` smaller ids fill the list |
| SendJobs.SelectedIff | internal/repository/send_job_repo.go:77-80 | a due job is selected if and only if fewer than `limit` due jobs have smaller ids |
| SendJobs.SendJobRepo.Create | internal/repository/send_job_repo.go:25-38 | a row with the same non-empty key exists: nothing changes and its id is returned; otherwise a new row is added, with the caller's task, log, variables and key, pending, never tried and free |
| SendJobs.SendJobRepo.Claim | internal/repository/send_job_repo.go:76-117 | what is returned was due, is now held by the caller and stamped now, with no other column changed; a due row stays behind only when the limit is used up by smaller ids; every other row is as before |
| SendJobs.SendJobRepo.RenewClaim | internal/repository/send_job_repo.go:119-127 | restamps the claim exactly when the caller holds it |
| SendJobs.SendJobRepo.MarkDone | internal/repository/send_job_repo.go:129-140 | succeeds exactly for the holder, and then the row is done and free |
| SendJobs.SendJobRepo.MarkFailed | internal/repository/send_job_repo.go:142-167 | succeeds exactly for the holder; then the k-th failure is counted, and the job has failed if k reaches the limit, and else is pending and free with the retry time now plus the k-th delay (the last one beyond the list, none for an empty list); the two UPDATEs, back to back, are that one step |
| SendJobs.FailedRow | internal/repository/send_job_repo.go:142-181 | the documented step of MarkFailed on a held row, column by column, the delay named by its index in the configured list |
| SendJobs.RecoverIsTwoUpdates | internal/repository/send_job_repo.go:188-208 | the two UPDATEs of RecoverStale never meet the same row and together are one step per stale row |
| SendJobs.SendJobRepo.RecoverStale | internal/repository/send_job_repo.go:183-208 | releases or fails exactly the claims older than the TTL and returns their number; a released one waits for the first delay with one more attempt counted, every other row is as before |
| QueueRetries.AttemptsAreFailures | internal/repository/send_job_repo.go:142-208 | in every run from an empty table the attempts column is the number of failures recorded: reports by the holder, and recoveries of a stale claim below the limit |
| QueueRetries.KthFailureWaits | internal/repository/send_job_repo.go:76-181 | over whole runs: after the k-th failure, whatever runs meanwhile, a claim takes the job if and only if the k-th configured delay (the last one beyond the list) has passed and fewer due jobs than its limit have smaller ids |
| QueueRuns.ClaimsFollowAttempts | internal/repository/send_job_repo.go:76-208 | in every run from an empty table: claims = attempts < limit while pending, claims = attempts + 1 while claimed or done, at most the limit when failed |
| QueueRuns.BoundedSends | internal/service/queue.go:226-317 | for any instances, interleaving and crashes, no job is handed out more than maxAttempts times |
| QueueRuns.BoundedMoves | internal/repository/send_job_repo.go:76-208 | a job changes status or counter at most 2 * maxAttempts times: every effective step lowers a measure |
| QueueRuns.NoJobIsStuck | internal/service/queue.go:205-335 | a due job is moved by a claim of any limit if and only if fewer than that many due jobs have smaller ids, and a recovery moves exactly the stale ones |
| QueueLiveness.ServedJobEnds | internal/repository/send_job_repo.go:76-208 | a job that some step keeps moving ends, because every effective step lowers its measure |
| QueueLiveness.JobIsServed | internal/service/queue.go:205-335 | once the jobs with smaller ids have ended, the polling and the recovery loops do keep moving a job until it ends |
| QueueLiveness.EveryJobEnds | internal/service/queue.go:205-335 | on every endless schedule in which some worker goes on polling for one job or more, some recovery loop goes on, the clock passes every bound and no delivery renews its claim forever, every job becomes done or failed |
| QueueLiveness.UndeliveredJobEnds | internal/service/queue.go:319-335 | such a schedule exists for every configuration: an instance that only claims and recovers, and never delivers, still ends its job |
| QueueRuns.TerminalIsFinal | internal/repository/send_job_repo.go:119-208 | done and failed rows are never changed by any run of calls |
| QueueRuns.FormerHolderHasNoEffect | internal/service/queue.go:302-316 | an instance that lost a job cannot change the table through renewing, finishing or failing it until it claims that same job again, whatever else its workers claim |
| QueueRuns.ClaimColumnsAgree | internal/repository/send_job_repo.go:76-208 | in every run of calls: claimed, claimed_by set and claimed_at set are the same |
| QueueStatements.ClaimColumnsAgree | internal/repository/send_job_repo.go:99-208 | in every interleaving of statements: claimed, claimed_by set and claimed_at set are the same |
| QueueStatements.ClaimsAreExclusive | internal/repository/send_job_repo.go:99-109 | between two successful claims of a job there is always a release of it, found as an index of the run |
| QueueStatements.SnapshotStaysDue | internal/repository/send_job_repo.go:77-103 | a job that was due and has not been released since is due whenever it is pending |
| QueueStatements.ReleasesFollowAttempts | internal/repository/send_job_repo.go:146-195 | releases done plus releases under way never exceed attempts nor maxAttempts - 1, and claims never exceed releases plus one |
| QueueStatements.BoundedSends | internal/repository/send_job_repo.go:146-167 | at most maxAttempts steps of any interleaving of single statements, the unguarded UPDATE included, are claiming UPDATEs that find the job pending |
| QueueStatements.UndisturbedFailIsAtomic | internal/repository/send_job_repo.go:142-167 | if nothing else ends or recovers the row between MarkFailed's two UPDATEs, the outcome is that of the atomic step at the end of the gap, in any interleaving with the rest |
| QueueAnomalies.FinishedJobChangesIff | internal/repository/send_job_repo.go:158-166 | a done or failed row changes status if and only if a second UPDATE of MarkFailed hits it and either puts it back into the queue or finds it done; without such an UPDATE the row stays as it is |
| QueueAnomalies.ClaimIsLostIff | internal/repository/send_job_repo.go:131-208 | a holder loses its claim if and only if its instance finishes the job, a MarkFailed on it is settled or a recovery finds it stale; a fresh claim whose holder does not finish exactly through a settled MarkFailed |
| QueueAnomalies.EveryGapWasOpened | internal/repository/send_job_repo.go:147-156 | every thread that is about to issue the second UPDATE counted a failure earlier in the run, as the holder, and has been in the gap ever since |
| QueueAnomalies.GapIsIntactIff | internal/repository/send_job_repo.go:142-167 | for every run: the second UPDATE still acts on the counted claim if and only if nothing in the open gap ended that claim |
| QueueAnomalies.HarmNeedsDisturbance | internal/repository/send_job_repo.go:142-167 | whenever it hits a finished or waiting job or another claim, the step inside the gap that ended the counted claim is found |
| QueueAnomalies.LiveClaimCanBeTaken | internal/repository/send_job_repo.go:163-165 | a concrete run after which the fresh claim of another instance is taken away |
| QueueAnomalies.DeliveredJobCanFail | internal/repository/send_job_repo.go:158-162 | a concrete run after which a delivered job is recorded as failed |
| QueueAnomalies.ClaimIsEarlyIff | internal/repository/send_job_repo.go:74-109 | with a clock that does not go back: a claim comes before the retry time if and only if the job was released after the SELECT and the last release stored a retry time after the claim |
| QueueAnomalies.ClaimCanBeEarly | internal/repository/send_job_repo.go:99-102 | a concrete run in which a job is claimed 400 seconds before its retry time |
| QueueAnomalies.DeliveredJobCanBeRevived | internal/repository/send_job_repo.go:142-167 | a concrete run after which a delivered job becomes due again |
| QueueRefinement.StatementRefines | internal/repository/send_job_repo.go:25-208 | any single statement that disturbs no open MarkFailed gap is matched by a series of atomic calls, a death in a gap by the bare failure count, keeping the relation "rows agree, except that a failure may be counted but not settled" |
| QueueRefinement.CalmRunRefinesCalls | internal/repository/send_job_repo.go:25-208 | every whole run of interleaved statements, threads dying anywhere, in which no open gap is disturbed refines a run of atomic calls and of bare failure counts; without a death inside a gap, of atomic calls alone |
| QueueRefinement.QuietTableIsReachable | internal/repository/send_job_repo.go:142-167 | whenever no gap is open after such a run and nobody died in one, the table is exactly one that atomic calls reach |
| QueueRefinement.FinishedStaysFinished | internal/repository/send_job_repo.go:129-167 | in such a run done and failed rows never change again, at statement level too |
| QueueTiming.RenewalPeriodIsSafeIff | internal/service/queue.go:98-130 | renewals renewInterval apart keep every claim fresh if and only if the TTL is unset or at least one second |
| QueueTiming.IntervalsFollowTtl | internal/service/queue.go:98-130 | the renewal and recovery periods are a third and a fourth of the TTL in whole nanoseconds, one second at least; an unset TTL counts as 120 s |
| QueueTiming.LiveHolderKeepsJob | internal/repository/send_job_repo.go:119-208 | no step of any instance takes a job from a holder whose renewals are at most a TTL apart |
| QueueTiming.RenewalLoopKeepsJob | internal/service/queue.go:226-254 | so with the service's own renewal loop and any safe TTL |
| QueueTiming.SilentHolderIsReplaced | internal/service/queue.go:319-335 | a holder that stops renewing has lost the job before the moment its claim becomes stale plus the recovery gap |
| QueueTiming.SilentHolderBoundIff | internal/repository/send_job_repo.go:188-205 | every run with recoveries at most `gap` apart takes the job before a given time if and only if that time is at least the moment of staleness plus `gap` |
| QueueTiming.TtlAndIntervalAreNotEnough | internal/service/queue.go:111-130 | a concrete TTL and run in which the job is still held after TTL plus recovery interval |
| QueueTiming.RecoveryLoopReplacesHolder | internal/service/queue.go:111-130 | so with the service's own recovery loop, for any configured TTL |
| QueueService.Worker.Process | internal/service/queue.go:226-317 | whatever the task, the payload and the delivery do: the table sees exactly one call by this instance; with the claim the row is done, or one more attempt is counted and it waits for that attempt's delay, or it has failed; without the claim nothing changes and no run time is written |
| CronFiring.DedupeKeyIsInjective | internal/scheduler/scheduler.go:88 | equal keys mean the same task and the same minute |
| CronFiring.DedupeKeyNamesTheMinute | internal/scheduler/scheduler.go:88 | the key is the task, a colon and the second at which the minute of the clock reading starts |
| CronFiring.TaskRepo.AcquireLease | internal/repository/task_repo.go:183-198 | granted if and only if the task is there, enabled, not deleted and its lease is free or older than 60 s; whoever gets it keeps everybody from getting it for exactly the next 60 s, and no other task is touched |
| CronFiring.TaskRepo.ReleaseLease | internal/repository/task_repo.go:200-206 | afterwards the lease can be had if and only if it could before or the caller held it; no other task is touched |
| CronFiring.Scheduler.Fire | internal/scheduler/scheduler.go:74-105 | one undisturbed firing happens if and only if the task is there, enabled, not deleted and its lease can be had; it adds a job exactly when the minute's key is unused, and leaves the lease free |
| CronFiring.TableKeysAreTheLog | internal/repository/send_job_repo.go:25-38 | in every interleaving the keys in the table are those of the inserted firings, one row each |
| CronFiring.OncePerMinute | internal/scheduler/scheduler.go:74-105 | for all firings, lease expiries, crashes, task edits and queue calls: at most one job per task and database minute |
| CronFiring.OnlyEnabledTasksFire | internal/service/queue.go:150-179 | in every interleaving, each job the firings added was added by a step at which its task was present, enabled and not deleted, by a firing of that task and minute that had the lease |
| CronFiring.FiringStepIsLogged | internal/scheduler/scheduler.go:74-105 | and conversely every such step that finds the key unused adds a job of its task and minute |
| CronFiring.OnlyRepeatsAreDropped | internal/scheduler/scheduler.go:74-105 | a leased firing of a runnable task adds its job if and only if none was added for that task and minute |
| CronFiring.LeaseIsExclusive | internal/repository/task_repo.go:183-206 | a lease at most 60 s old that its holder has not released is not granted to anybody |
| RateLimit.CacheKeyIsInjective | internal/repository/rate_limit_repo.go:35 | equal cache keys mean the same bucket and window, whatever characters the bucket has |
| RateLimit.WindowStart | internal/repository/rate_limit_repo.go:33 | a multiple of the window's length that is not after the call, and less than one length before it |
| RateLimit.SameWindowIff | internal/repository/rate_limit_repo.go:33 | a call is counted in the window k exactly from k * window up to (k + 1) * window |
| RateLimit.RateLimitRepo.Allow | internal/repository/rate_limit_repo.go:31-81 | passes exactly while the count found in the window of the call, from k * window up to (k + 1) * window, is below the limit; the call is counted unless the count is over the limit already; a refusal is remembered until the window ends |
| RateLimit.RateLimitRepo.SetDenied | internal/repository/rate_limit_repo.go:68-81 | eviction and insertion keep the cache a subset of what the counters confirm |
| RateLimit.HitIff | internal/repository/rate_limit_repo.go:60-66 | a cache answers for a bucket and window exactly while it remembers their refusal |
| RateLimit.SimulatesStep | internal/repository/rate_limit_repo.go:31-81 | each step keeps the simulation: counts equal, or both over the limit |
| RateLimit.CachedVerdictsArePlain | internal/repository/rate_limit_repo.go:15-17 | for any instances and interleaving, all verdicts equal those of a limiter without caches |
| RateLimit.ExactlyTheLimitPasses | internal/repository/rate_limit_repo.go:26-58 | of the n calls of all instances on a bucket at times from k * window up to (k + 1) * window exactly min(n, limit) pass |
| RateLimit.CountedByWindow | internal/repository/rate_limit_repo.go:33 | counting and passing by row is counting and passing by the times of the calls |
| LoginLock.RateLimitRepo.LoginLocked | internal/repository/rate_limit_repo.go:83-111 | locked exactly before the stored time; an expired lock clears the counter |
| LoginLock.RateLimitRepo.RecordLoginFailure | internal/repository/rate_limit_repo.go:113-125 | counts the failure and locks at maxFails |
| LoginLock.RateLimitRepo.Reset | internal/repository/rate_limit_repo.go:127-131 | the bucket is not locked at any time and has no count; every other bucket is as before |
| LoginLock.RateLimitRepo.Login | internal/service/auth_service.go:215-260 | what a login attempt does to the lock: refused attempts change nothing, wrong ones count, right ones clear, disabled accounts record nothing |
| LoginLock.RowsReflectStreak | internal/repository/rate_limit_repo.go:83-131 | the stored row always tells the number of failures since the last success, modulo maxFails, and the last failure's time |
| LoginLock.RefusedIff | internal/service/auth_service.go:215-260 | for every history: refused if and only if the failures since the last success are a whole number of batches of maxFails and the window since the last one is running |
| TwoFactor.MatchingCounter | internal/totp/totp.go:80-95 | the first step of the window whose code it is; none exactly when the length is wrong or no step matches |
| TwoFactor.CodeIsGoodIff | internal/totp/totp.go:80-95 | with clocks from 30 s on: step c is taken if and only if the code is its own, the clock is between 30 s before the start and 30 s after the end of c's 30 s, and no earlier step of that window has the same code |
| TwoFactor.StepBeforeTheFirst | internal/totp/totp.go:87-91 | in the first 30 s of 1970 the earlier neighbour of step 0 is the last 64-bit step |
| TwoFactor.MatchRecoveryCode | internal/totp/totp.go:160-169 | the first index of the code's hash, or -1 exactly when it is not in the list |
| TwoFactor.UserRepo.SetTOTP | internal/repository/user_repo.go:210-237 | refuses exactly a seed that was not encrypted; otherwise replaces everything, disabled and with no code used |
| TwoFactor.UserRepo.DisableTOTP | internal/repository/user_repo.go:261-268 | leaves nothing behind in any column |
| TwoFactor.AuthService.Setup2FA | internal/service/auth_service.go:264-302 | succeeds exactly without a cipher or with a ciphertext, and then one hash per recovery code is stored, in order, with the seed in the column the cipher decides, disabled and with no code used; otherwise the row is untouched |
| TwoFactor.AuthService.TotpSecret | internal/service/auth_service.go:304-315 | the encrypted column goes first when a cipher is there, and its failure is an error, not a fallback |
| TwoFactor.SeedIs | internal/service/auth_service.go:304-315 | the seed in use, case by case: the plain column without a ciphertext or cipher, otherwise what the ciphertext opens to, or an error |
| TwoFactor.AuthService.Enable2FA | internal/service/auth_service.go:317-344 | enables exactly for a current code of a stored seed, without using up the code or a recovery code; otherwise nothing changes |
| TwoFactor.AuthService.Disable2FA | internal/service/auth_service.go:346-367 | clears every column exactly for an enabled user with a current code or a stored recovery code; otherwise nothing changes |
| TwoFactor.AuthService.Verify2FA | internal/service/auth_service.go:369-422 | the verdict and its whole effect: a code uses up its step, a recovery code leaves the list, a wrong code changes no column but counts one failure and locks from the limit on, a success removes the failures, a lost seed does neither; no other bucket is touched |
| TwoFactor.AuthService.ValidateWithReplay | internal/service/auth_service.go:424-452 | accepts and records exactly a step later than the last one used |
| TwoFactor.UserService.ForceEnable2FA | internal/service/user_service.go:296-334 | fails closed without a cipher or ciphertext; otherwise a new encrypted seed, its hashes in order, enabled |
| TwoFactor.UserService.ForceDisable2FA | internal/service/user_service.go:336-342 | clears the row whatever its state |
| TwoFactor.RowStaysConsistent | internal/repository/user_repo.go:218-276 | after any history, on any mix of instances with and without a cipher: enabled only with a stored seed, never two seeds, and no leftovers without a seed |
| TwoFactor.UpgradeKeepsSeed | internal/repository/user_repo.go:245-252 | moving a plain seed to the encrypted column keeps the seed and clears the plain text |
| TwoFactor.LastAccepted | internal/service/auth_service.go:424-452 | the stored counter is the last accepted step of the period, and accepted steps rise except for repeated zeros |
| TwoFactor.CodeIsAcceptedIff | internal/service/auth_service.go:424-452 | a code logs in if and only if its step is above every step accepted since the last setup, zeros aside |
| TwoFactor.StepsRiseStrictly | internal/service/auth_service.go:373-452 | with clocks after the first minute of 1970 the steps accepted between setups rise strictly: the one-time rule of section 5.2 of RFC 6238 |
| TwoFactor.StepsRiseStrictlyIff | internal/service/auth_service.go:424-452 | whatever the clocks: accepted steps rise strictly if and only if at most one of them is step 0 |
| TwoFactor.StepZeroCanBeRepeated | internal/service/auth_service.go:443 | a concrete history, setup, enable and two logins with one code, in which step 0 is accepted twice |
| TwoFactor.RecoveryIsConserved | internal/service/auth_service.go:464-482 | hashes issued = hashes used up + hashes left, as multisets, after any history |
| TwoFactor.RecoveryWorksOnce | internal/service/auth_service.go:397-406 | a hash stored once is used at most once, and is accepted exactly until it is used |
| YearlySchedule.NextYearAfter | internal/scheduler/yearly_parser.go:69-77 | the first listed year after y, or 0 |
| YearlySchedule.FirstAfterIsLeast | internal/scheduler/yearly_parser.go:69-77 | on an ascending list that is the least such year, and 0 exactly when there is none |
| YearlySchedule.YearlySpecSchedule.Next | internal/scheduler/yearly_parser.go:26-58 | equals the search without a bound on its rounds: len(Years)+2 never ends it |
| YearlySchedule.SearchIsSound | internal/scheduler/yearly_parser.go:33-58 | a result is a base trigger after the argument, in an allowed year |
| YearlySchedule.EarliestIff | internal/scheduler/yearly_parser.go:33-58 | the result is the earliest such trigger (or rightly none) if and only if no New Year trigger of an allowed year is jumped onto |
| YearlySchedule.NewYearScheduleFindsNothing | internal/scheduler/yearly_parser.go:55 | a concrete schedule for which nothing is found although a trigger exists |
| ListRange.InsertionSort | internal/scheduler/yearly_parser.go:125-130 | in place: ordered, and a permutation of what was there |
| ListRange.SortedIsStrict | internal/scheduler/yearly_parser.go:125-131 | an ordered permutation of a duplicate-free list is strictly ascending and has the same members |
| ListRange.ParseYearList | internal/scheduler/yearly_parser.go:79-132 | fails exactly when an item is malformed, reversed or out of range; otherwise strictly ascending and exactly the union of the items |
| ListRange.AddItem | internal/scheduler/lunar_parser.go:218-241 | one item: accepted exactly when well-formed, and then its members are added |
| ListRange.ParseListRange | internal/scheduler/lunar_parser.go:213-257 | the same law as for the year list, for any bounds |
| ListRange.YearFieldFitsSchedule | internal/scheduler/yearly_parser.go:23 | every parsed year list meets what the schedule's search needs |
| ListRange.PrintThenParse | internal/scheduler/lunar_parser.go:213-267 | any list of numbers and ranges, printed with white space around the items and parsed again: it fails if and only if one of them is out of range or reversed, and otherwise gives exactly the numbers they cover, in ascending order |
| ListRange.RangeMeansAllBetween | internal/scheduler/yearly_parser.go:87-109 | one range on its own is accepted exactly in order and within bounds, and stands for all numbers from its first to its last |
| ListRange.JunkIsRejected | internal/scheduler/lunar_parser.go:222-241 | an item with a character other than digits, signs and white space is malformed |
| TaskIndex.Scheduler.RegisterTask | internal/scheduler/scheduler.go:56-64 | adds the registration; the cron list and the index stay paired if and only if the task was not registered or the expression does not parse |
| TaskIndex.Scheduler.UnregisterTask | internal/scheduler/scheduler.go:66-72 | removes the registration and its cron entry together |
| TaskIndex.NoEntryIsLeaked | internal/scheduler/scheduler.go:54 | paired cron list and index have the same size |
| TaskIndex.RegisteredIff | internal/scheduler/scheduler.go:52-72 | while the agreement holds, a task is registered if and only if its row is live, enabled, of kind cron and its expression parses, and then with that expression |
| TaskIndex.RegisterAll | cmd/server/main.go:208-219 | start-up registers exactly the live, enabled, parseable cron tasks |
| TaskIndex.TaskService.Load | cmd/server/main.go:206-219 | index and table agree after start-up |
| TaskIndex.TaskService.Create | internal/service/task_service.go:101-131 | the table gains the row and the agreement holds |
| TaskIndex.TaskService.Update | internal/service/task_service.go:133-194 | any change of kind, flag or expression: agreement holds, found exactly for live tasks |
| TaskIndex.TaskService.Toggle | internal/service/task_service.go:321-345 | only the flag changes and the agreement holds |
| TaskIndex.TaskService.Delete | internal/service/task_service.go:196-205 | the row is soft-deleted and the agreement holds |
| TaskIndex.TaskService.BatchToggle | internal/service/task_service.go:233-260 | one registration change per listed id, repeated ids included, then one UPDATE: every live listed task, of any kind, has the flag, no other column or task changes, and the agreement holds |
| TaskIndex.TaskService.BatchDelete | internal/service/task_service.go:207-231 | the same for deletion: exactly the listed tasks are marked, no other column changes |
| Backup.ExportedTask | internal/service/task_service.go:458-466 | every exported task is the stored one, with its single old channel put into the list when the list is empty |
| Backup.ExportService.Import | internal/service/export_service.go:81-181 | the loops compute the stepwise specification, errors ending the import where they occur |
| Backup.ExportService.EnsureBundleCategories | internal/service/export_service.go:191-219 | the pool gains exactly the names the bundle mentions and the pool lacked, cut to their column |
| Backup.ExportService.ChannelIdsFor | internal/service/export_service.go:147-156 | mapped ids in order, unmapped ones dropped, the single id as a fallback |
| Backup.ExportService.Validate | internal/service/task_service.go:393-429 | accepts exactly a named task with a channel, a template, a trigger that is api, or cron with an expression that parses, and with receivers unless every channel is known and none is an email channel |
| BackupLaws.ImportConserves | internal/service/export_service.go:94-181 | a successful import accounts for every entry: created + skipped = size, for channels, templates and tasks |
| BackupLaws.ImportIsIdempotent | internal/service/export_service.go:94-181 | after a successful import the same bundle imports again without error, creates nothing and changes nothing |
| BackupRoundTrip.RoundTrip | internal/service/export_service.go:44-189 | export then import into an empty store: nothing fails or is skipped, and the store is isomorphic to the old one: channel lists in order, templates, flags, keys and secrets; only template categories are lost |
| BackupValidity.OnlyAcceptableRowsAreAdded | internal/service/export_service.go:81-181 | for any bundle, and also when the import fails half-way: every row it added is one the services accept, column by column, with stored channels and template and an existing category, and no old row is changed or lost |
| BackupValidity.ImportFailsAtTaskIff | internal/service/export_service.go:127-165 | an import that comes to a named, new task with a mapped channel fails there if and only if its template is unmapped, its trigger or expression is invalid, receivers are missing or its category is unknown; then nothing is stored from there on |
| BackupValidity.ImportKeepsNamesUnique | internal/service/export_service.go:94-134 | whatever names the bundle carries, twice or already stored, an import leaves channels unique by name and type, and templates and tasks by name |
| BackupValidity.KeyIsKeptIff | internal/service/export_service.go:166-172 | a new api task keeps the key it had if and only if no task, live or deleted, holds it, and has a new random one otherwise |
| BackupValidity.ImportKeepsKeysUnique | internal/service/export_service.go:81-181 | whatever keys the bundle carries, an import leaves no two tasks with one key, provided random keys do not repeat |
| Categories.CategoryRepo.Rename | internal/repository/category_repo.go:72-95 | table by table, then the pool; refused for "default" and, with everything rolled back, for a taken name |
| Categories.CategoryRepo.Delete | internal/repository/category_repo.go:104-126 | deletes exactly a name that is not "default" and that no live row uses |
| Categories.CategoryRepo.EnsureExists | internal/repository/category_repo.go:177-194 | inserts the missing names one after the other, cut to the column's width |
| Categories.CategoryService.Create | internal/service/category_service.go:39-56 | the exact reply for every input, and a new name only on success |
| Categories.CategoryService.Delete | internal/service/category_service.go:58-91 | finds the name by searching the listing; exact reply, and the name goes only on success |
| Categories.CategoryService.Update | internal/service/category_service.go:93-129 | the exact reply, and the rename in pool and tables only on success |
| Categories.EntityService.Validated | internal/service/helpers.go:14-40 | the normalized name exactly when the pool has it |
| Categories.EntityService.Create | internal/service/channel_service.go:58-72 | a row is stored exactly with an existing category |
| Categories.EntityService.Update | internal/service/template_service.go:55-72 | a live row is rewritten exactly with an existing category |
| Categories.EntityService.BatchSetCategory | internal/service/task_service.go:262-268 | live listed rows get an existing category, or nothing changes |
| Categories.NamesAfterEnsuring | internal/service/export_service.go:191-219 | afterwards the pool has exactly the old names and the requested ones, cut |
| Categories.EnsuredNamesAreAcceptedIff | internal/repository/category_repo.go:177-194 | a requested name is accepted afterwards if and only if it fits the column |
| Categories.IntegrityHolds | internal/repository/category_repo.go:72-126 | after any mix of category, row and import operations every live row names an existing category and "default" exists |
| Categories.DeletionIsSafeIff | internal/repository/category_repo.go:110-124 | removing a name keeps integrity if and only if Delete's guards allow it |
| Categories.RenameKeepsGroups | internal/repository/category_repo.go:84-91 | live rows share a category after a rename exactly when they did before |
| Categories.RenamingBackRestoresIff | internal/repository/category_repo.go:84-91 | renaming there and back restores everything if and only if no row, necessarily a soft-deleted one, carried the new name |
| ListBreaks.NormalizeListBreaks | internal/render/render.go:48-81 | the loop with its fence variables computes the marked output with the markers dropped |
| ListBreaks.BreakAtIff | internal/render/render.go:62-77 | a line gets a break if and only if it is outside fences, opens none, follows a line that is not blank, and begins a list, or is a heading that is no list item, or is a rule right after a list |
| ListBreaks.FenceOpenIff | internal/render/render.go:53-67 | a fence is open before a line exactly when an earlier line outside fences opened it and no line since began with its three characters |
| ListBreaks.OnlyBlankLinesAreAdded | internal/render/render.go:39-81 | dropping the added lines, all of them empty, gives back the lines of the input, from any fence state |
| ListBreaks.InputIsRecovered | internal/render/render.go:48-81 | and joining those gives back the document itself |
| ListBreaks.NormalizeIsIdempotent | internal/render/render.go:48-81 | normalising twice is normalising once, for any document and any line patterns that do not match the empty line |
| ListBreaks.MarkedSplits | internal/render/render.go:52-79 | where every input line ends up, and that an added line stands right before its own |
| ListBreaks.FencedLinesStayTogether | internal/render/render.go:55-67 | neighbouring lines from a fence's opening to its end are unchanged and stay neighbours |

## Left out

- Delivery itself (SMTP, webhooks, PushPlus), HTTP handlers, routing, metrics, configuration clamping, the command line and the web front end.
- Database errors and lost connections: every statement is one atomic step that succeeds. An instance that stops is modelled.
- Text comparison in MySQL: names are compared exactly, not by collation; trailing spaces count.
- Retention jobs (`CleanupDoneOlderThan`, the limiter's `Cleanup`): rows are kept for the length of a run.
- The base cron schedule, time zones, daylight saving and the five-year search limit of the cron library: the base schedule is any function that gives the least later trigger or none.
- Lunar calendar dates, `parseDayField`, `parseHM`, `looksLikeYearSpec`: they classify a spec before the parsers modelled here see it.
- Sub-second parts of retry times: the queue's own times are whole seconds, only `QueueTiming` uses nanoseconds.
- trigger_type, trigger_by and trigger_ip of a job, `last_run_at` on enqueue and `next_run_at`: carried along, never read by the queue.
- `EnqueueLogRetry` and the task checks of `Enqueue` outside a cron firing: other producers appear as insertions of arbitrary jobs without a key.
- A scheduler without a lease, and the fallback to the local clock when the database's clock cannot be read.
- Registrations on other instances: `TaskIndex` is about the instance that makes the change; the others keep their old registrations, as in the service.
- Token issue and expiry, password hashing, the constant-time comparison loop and the bits of the one-time-code function.
- Concurrent two-factor, category and task administration: those operations are modelled one after the other.
- Deleted users: `TwoFactor` follows the row of one live user; the operations answer "no such user" otherwise.
- `RenderVariables`, HTML and plain-text rendering: library calls and per-line substitutions.
- CronFiring.Scheduler.Fire: the read of the clock, the lease, the enqueue and the release happen without a break here; the state machine of the same module interleaves them freely.
- LoginLock.RefusedIff: one clock is assumed; the service compares the database's lock time with its own clock.
- RateLimit.ExactlyTheLimitPasses: a bucket is used with one window and one limit; the service passes both with each call.
- BackupRoundTrip.RoundTrip: the source store has unique names, live references and categories as the service stores them, and no soft-deleted task of the target holds an api key.
