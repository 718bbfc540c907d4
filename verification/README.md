# Verified model of the video CMS's background runtime, playback cache, folder tree and storage plumbing

The repository is a self-hosted video CMS written in Go. This project models the four parts of it whose
correctness rests on invariants that span many functions, and proves what those parts promise.

* **Background runtime** (`background/`). Jobs own tasks, tasks own attempts, live workers hold attempts.
  `BackgroundTypes`, `JobReduction` and `RuntimeSteps` give the records, the job recomputation and one
  state-changing step per transaction; a run is any sequence of such steps, with arbitrary handler results,
  lost workers and process crashes in between. `RuntimeInvariants`, `TableLemmas`, `RowView`, `Preservation`
  and `Runs` prove what every step keeps. `Effects` says what each operation makes of the tables in terms of the
  request, the handler's result and the rows before, without reference to the functions that compute it.
  `RuntimeGuarantees`, `RunLaws`, `RetryBudget`, `Dispatch`, `Capabilities`, `Idempotency`, `Retention`,
  `Schedules` and `ScheduledRuns` draw the conclusions over runs; `Witnesses` holds runs to the states in which
  the runtime does less than its names suggest. `Runtime.dfy` holds the class whose methods
  rewrite the tables with the loops of the source; each method is proved to be the step it stands for.
  `ProgressReports` is its throttle of progress reports.
* **Playback cache** (`mediacache/`). `CacheTable` and `CachePruning` describe the entry table and what
  pruning removes from it; `CacheGenerations` follows file versions through opens, promotions, invalidations
  and storage cutovers; `CacheQuota` interleaves promotions, prunings and deletions statement by statement;
  `MediaCache` holds the service's own methods; `Capture` is the copying reader.
* **Folder tree** (`logic/`). `FolderTree`, `FolderDeletion` and `FolderService`: parent chains, the cycle
  test, multi-item moves checked against the tree before the move, breadth-first deletion, and all runs of
  these operations.
* **Locks and placement** (`app/storage_lifecycle.go`, `logic/StorageMigration.go`). `LockKeys`, `Locks` and
  `StorageLifecycle`: the keyed lock table under any interleaving of callers. `Placement`: the greedy
  placement of a storage migration. `Names` is the string order both use, `Common` what all parts share.

Database transactions are single steps, because the connection pool has one connection
(`inits/Database.go:22`). Row identifiers are row numbers. Times are integers in nanoseconds, supplied by the
environment; timestamps that the code only compares with nil are booleans. What stores, disks, handlers and
clients answer is a parameter of the step or method.

Where the code does less than its comments or names suggest, the model follows the code:

* The overtaking bound of priority aging is off by less than a second, since creation times carry fractions
  and SQLite's `CURRENT_TIMESTAMP` does not (`Dispatch.BoundedOvertaking`); `Dispatch.PlainBoundExact` says
  exactly when the bound without it holds, and `Dispatch.PlainBoundFails` gives the runs that break it.
* A handler that reports an interruption, a pause, a deferral or a transient failure after its commit point
  has its work queued again (`RuntimeGuarantees.CommittedFinish`, `Witnesses.CommittedWorkRequeued`); a
  crash at the same point fails it instead.
* A cancellation need not conclude (`RuntimeGuarantees.CancelRequestedMayWait`, `Witnesses.CancellationUndone`).
* The job detail view offers a pause that `PauseJob` refuses while a task commits
  (`Capabilities.DetailOfferUnsound`, `Witnesses.UnsoundOfferReached`).
* Retention selects finished jobs before the transaction that deletes them, which does not look at them again:
  an accepted retry in between is deleted with its job (`Retention.RetryLost`, `Witnesses.SelectedRetried`).
* The cache drops a broken entry by its row number, which a promotion of the same key in between has reused
  (`CacheGenerations.LateDrop`).
* A storage cutover moves a file's cache version on without deleting its entries, so a live entry can carry an
  old version; it is not served (`CacheGenerations.CutoverFresh`, `CacheGenerations.CutoverLeavesStale`).

## Model

| member | source | states |
|---|---|---|
| JobReduction.ProgressExact | background/runtime.go:968-1056 | A recomputed progress lies in 0..10000 and is 10000 exactly for the two success statuses, given that a job without success has a row whose share is not full. |
| JobReduction.CompletedBounds | background/runtime.go:982-994 | The weighted sum of shares lies between 0 and the full weight, and strictly below it as soon as one row is not full. |
| JobReduction.ProgressIsMean | background/runtime.go:982-994 | Short of success the progress is the mean, rounded down, of the list in which each row's share occurs as often as its weight says, a weight below one counting as one. |
| BackgroundRuntime.CountRows | background/runtime.go:961-1021 | The counting loop's totals and counters are positive exactly when rows of the kind they count exist, and its weights are the sums over the rows. |
| BackgroundRuntime.ReduceRows | background/runtime.go:1022-1056 | Status and progress computed from the counters equal the reduction stated with quantifiers over the rows. |
| BackgroundRuntime.Runtime.RecomputeJob | background/runtime.go:947-1082 | Rewriting one job settles exactly that job: a job with rows gets the reduction of its rows and flags, no other row changes. |
| RuntimeGuarantees.StoredJobIsReduction | background/runtime.go:947-1082 | In every reachable state every job's stored status and progress are the reduction of its tasks and cancel and pause flags, and progress is full exactly for succeeded jobs. |
| RunLaws.StatusMeans | background/runtime.go:1022-1056 | In every reachable state each of the ten job statuses is present exactly under its condition on the job's two flags and the statuses of its tasks, required ones apart. |
| RunLaws.VerdictsMean | background/runtime.go:1177-1493 | In every reachable state the five job commands are accepted exactly under plain conditions: a pause for a pausable job that is open, not asked to stop and not committing; a resume for an open one asked to pause; a cancellation for an open one not committing; a retry for one that has ended with a failed or cancelled task; a start at once for one in the queue with a task scheduled for later. |
| Preservation.RecoverFilterComplete | background/runtime.go:416-478 | The job-status filter of the restart covers every job that has a task in flight. |
| Preservation.RecoverKeeps | background/runtime.go:416-478 | A restart keeps the row invariants and leaves every job's cached status right although it recomputes only the filtered jobs. |
| Preservation.RecoverStaleKeeps | background/runtime.go:483-557 | So does failing or requeueing the tasks whose heartbeat expired. |
| Preservation.ClaimKeeps | background/runtime.go:599-661 | A claim keeps every row invariant, the numbering of attempts and the holder of the running one included, and every cached job. |
| Preservation.FinishKeeps | background/runtime.go:721-893 | Ending a worker with any of the six error classes or a success keeps every row invariant and every cached job. |
| Preservation.EnqueueKeeps | background/store.go:16-87 | Creating a job with its tasks keeps all invariants; a reused, conflicting or refused request changes nothing. |
| Preservation.BeginCommitKeeps | background/runtime.go:1136-1175 | Passing the commit point keeps the fence: the row is running and its job neither cancelled nor paused. |
| Preservation.PauseKeeps | background/runtime.go:1177-1247 | Setting or clearing a pause keeps all invariants, including that no committing job is paused. |
| Preservation.CancelJobKeeps | background/runtime.go:1408-1462 | Cancelling a job keeps all invariants, and the cancelled job keeps an unsucceeded row. |
| Preservation.CancelTaskKeeps | background/runtime.go:1495-1534 | Cancelling one task keeps all invariants. |
| Preservation.RetryJobKeeps | background/runtime.go:1464-1493 | Requeueing the failed and cancelled rows of a job with a fresh budget keeps all invariants. |
| Preservation.RetryTaskKeeps | background/runtime.go:1536-1569 | So does requeueing one row. |
| Preservation.RunNowKeeps | background/runtime.go:1249-1280 | Releasing the delayed rows of a job keeps all invariants. |
| Preservation.HeartbeatKeeps | background/runtime.go:1282-1306 | Writing heartbeats of live workers changes no cached job. |
| Runs.StepInv | background/runtime.go:599-893 | Every step of the runtime, including lost workers, crashes and clock ticks, keeps the whole invariant. |
| Runs.ReachableInv | background/runtime.go:416-1569 | The whole invariant holds in every state any run can reach. |
| Runs.CapacityStep | background/runtime.go:573-597 | No step lets a queue hold more workers than its capacity. |
| RuntimeGuarantees.CapacityRespected | background/runtime.go:1308-1320 | In every reachable state the live workers of a queue are at most its configured limit, if that is positive, and otherwise two for storage and one for any other queue. |
| Effects.ClaimStarts | background/runtime.go:604-661 | A claim on a queue that is not paused, has fewer workers than it may and a claimable task starts the next attempt of one claimable task on a worker of its own, and writes no other row of tasks or attempts. |
| Effects.ClaimIdle | background/runtime.go:573-597 | Otherwise it changes nothing. |
| RunLaws.QueuePauseHolds | background/runtime.go:1385-1406 | Over any run a paused queue stays paused until it is unpaused, and no claim on it does anything. |
| Effects.RequestAccepted | background/store.go:16-87 | A request is accepted exactly if it has a kind and at least one task, its tasks have a kind and a queue and different keys, and its own key, if any, is free; any other writes nothing. |
| Effects.RequestCreated | background/store.go:67-87 | An accepted request adds one queued job and, in order, one queued row for each of its tasks with every column as asked: a weight below one becomes one, an attempt limit below one becomes four. No other row changes. |
| RunLaws.KeysStayApart | background/store.go:144-182 | Over every run no two tasks of one job have the same dedupe key. |
| Effects.WorkerEnds | background/runtime.go:721-893 | The end of a worker writes to its row and its attempt what the handler's result means, the attempt limit and the delay included, leaves every other row and worker alone, and on a success that was not overruled by a cancellation creates a row for the first follow-up of each key that was free in the job, as asked, and no other row. |
| Effects.ChildrenInserted | background/runtime.go:858-869 | Inserting follow-ups leaves the old rows in place, adds one row for the first follow-up of each free key and none for a taken one, and afterwards every key asked for is there. |
| Effects.CommitBegins | background/runtime.go:1136-1175 | The commit flag of one row is set exactly for a live worker of a running task that nobody asked to stop in an open job; otherwise nothing changes. |
| Effects.ProgressReported | background/runtime.go:1084-1127 | A report writes its value in hundredths, between 0 and 9999, and a heartbeat to its row and to no other. |
| Effects.HeartbeatWritten | background/runtime.go:1282-1306 | The heartbeat is written to the rows in flight of live workers and to no other. |
| Effects.RunNowReleases | background/runtime.go:1249-1280 | After an accepted start at once every queued task of the job is claimable. |
| Effects.RunNowElsewhere | background/runtime.go:1249-1280 | And no row changes but those of queued tasks of the job. |
| Effects.CancelReaches | background/runtime.go:1408-1442 | An accepted cancellation sets the job's flag, cancels each of its rows that waited, asks each running one to stop, and changes no other row. |
| RunLaws.CancellationConcludes | background/runtime.go:1408-1462 | Over any run after an accepted cancellation without a retry of the job, in which its workers end with success, a pause, a cancellation or a permanent failure, nothing of the job waits, and it has ended exactly when none of its tasks is in flight: at once, if none was. |
| Effects.CancelTaskReaches | background/runtime.go:1495-1534 | Cancelling one task cancels it if it waits and asks it to stop if it runs; if it has ended or is committing, nothing changes. |
| Effects.RetryReaches | background/runtime.go:1464-1493 | An accepted retry clears the job's flags and queues exactly its failed and cancelled rows again, each with four more attempts than it has had. |
| Effects.RetryTaskReaches | background/runtime.go:1536-1569 | Retrying one task queues it so and clears its job's cancel flag if it has failed or been cancelled, and otherwise changes nothing. |
| Effects.RestartSettles | background/runtime.go:429-466 | A crash and the restart after it leave no worker. Each row that was in flight has failed if it was committed, is cancelled if it was asked to stop, and otherwise waits with one attempt more allowed and its attempt count as it was; its running attempt is interrupted. Every other row is as it was. |
| Effects.RestartRequeues | background/runtime.go:451-463 | After both, a task that was running uncommitted is claimable at once exactly if its job is open. |
| Effects.ExpirySettles | background/runtime.go:483-557 | The stale recovery does the same to exactly the rows in flight that have no live worker and no heartbeat since the given time, and closes the attempt of a cancelled one as cancelled. |
| RunLaws.NoEarlyAttempt | background/runtime.go:604-608 | Over any run a task that waits for its time starts no attempt before it, unless an operator retries it. |
| RunLaws.DelayKept | background/runtime.go:895-910 | So a task that was deferred, or failed transiently with attempts left, is not attempted before the delay its handler asked for, at most a quarter of an hour, or five seconds, half a minute or two minutes by its attempt number. |
| RunLaws.PauseTakes | background/runtime.go:1177-1218 | An accepted pause sets the flag and touches no task. |
| RunLaws.ResumeTakes | background/runtime.go:1220-1247 | An accepted resume clears it and touches no task. |
| RunLaws.ClosedStaysIdle | background/runtime.go:604-613 | Over any run no task of a job that is paused, cancelled or finished starts an attempt until the job is resumed or retried. |
| RuntimeGuarantees.AttemptLedger | background/runtime.go:599-661 | In every reachable state a task's attempts are numbered 1 to its attempt count, a running attempt exists exactly while the row is in flight, is unique, has the last number and is the one any live worker holds. |
| RuntimeGuarantees.SucceededForever | background/runtime.go:1471-1478 | Over any run a succeeded task row never changes again, retries included. |
| RuntimeGuarantees.TerminalForever | background/runtime.go:1536-1569 | Over any run without a manual retry a finished task keeps its row. |
| RuntimeGuarantees.SucceededJobForever | background/runtime.go:1408-1442 | Over any run a succeeded job stays succeeded with the very rows it succeeded with. |
| RuntimeGuarantees.CommitFence | background/runtime.go:1136-1175 | In every reachable state an attempt past its commit point is plainly running, its job is neither cancelled nor paused, and the runtime refuses to cancel the job or the row or to pause the job. |
| RuntimeGuarantees.CommittedSuccessRecorded | background/runtime.go:721-770 | A success reported after the commit point is recorded as succeeded, row and attempt. |
| RuntimeGuarantees.LostCommitFails | background/runtime.go:429-439 | A worker lost after its commit point leaves a failed row, after a restart and after an expired heartbeat alike. |
| RuntimeGuarantees.CommitRun | background/runtime.go:508-512 | Over any run without the handler's own return or a manual retry, a committed attempt stays committed or has failed, and no further attempt is started. |
| RuntimeGuarantees.CommittedFinish | background/runtime.go:772-815 | Committed work returns to waiting if and only if the handler reports interrupted, paused or deferred, or transient with budget left. |
| Witnesses.CommittedWorkRequeued | background/runtime.go:772-781 | A run to a committed attempt whose interrupted handler sends the work back to waiting. |
| RuntimeGuarantees.CancelledStep | background/runtime.go:604-613 | Within a cancelled job one step starts no attempt, creates no row and lets no row succeed, unless it is a retry of that job. |
| RuntimeGuarantees.CancelledForever | background/runtime.go:1408-1442 | The same over any run, from the cancellation until a retry of the job. |
| RuntimeGuarantees.CancelledAttemptForever | background/runtime.go:731-733 | Over any run an attempt whose cancellation was requested while it ran is never recorded as succeeded. |
| RuntimeGuarantees.CancelRequestedMayWait | background/runtime.go:772-809 | A cancel-requested row goes back to waiting if and only if its handler ends interrupted or deferred, or transient with budget left. |
| Witnesses.CancellationUndone | background/runtime.go:772-781 | A run to a cancelled task whose interrupted handler sends it back to waiting. |
| RetryBudget.SpendStep | background/runtime.go:799-815 | Of all steps only a transient failure takes from the attempts left, and it takes exactly one. |
| RetryBudget.GrantKept | background/store.go:150-172 | A new row has the attempts that the request asked for it, or that the first follow-up with its key asked for, and none spent. |
| RetryBudget.BudgetLeft | background/runtime.go:451-463 | After any run an unfinished task has its granted budget minus the transient failures since the grant left, at least one, so every waiting row may still be attempted. The grant is what the request or the follow-up asked for, four if that is below one, and four by a manual retry. |
| RetryBudget.FinalFailure | background/runtime.go:799-815 | After any run a transient failure is final exactly when it is the budget-th since that grant, and otherwise waits for a retry. |
| Dispatch.BoundedOvertaking | background/runtime.go:604-608 | A task claimed while A is claimable is no younger than A or created less than the priority gap in minutes, plus one second, after A. |
| Dispatch.TiesInOrder | background/runtime.go:604-608 | Of tasks created together with one priority the first row is claimed first. |
| Dispatch.PlainOvertaking | background/runtime.go:604-608 | In every reachable state the bound without the extra second holds for rivals not created within the current second. |
| Dispatch.PlainBoundExact | background/runtime.go:604-608 | For every clock reading, rival and priority gap: no older task that the formula lets the rival overtake is older by the gap in minutes or more, if and only if the rival was not created within the current second or has no higher priority. |
| Dispatch.PlainBoundFails | background/runtime.go:604-608 | Whenever a rival of higher priority is created within the current second some run reaches a state where it is claimed before a task older by the whole priority gap in minutes. |
| Dispatch.AgingWins | background/runtime.go:604-608 | A task older than another by the priority gap plus one, in minutes, goes first. |
| Capabilities.ListOfferExact | background/store.go:297-352 | In every reachable state the job list offers a pause or a resume exactly when the runtime accepts it, and a cancellation exactly when it is accepted and none is pending. |
| Capabilities.DetailOfferUnsound | background/store.go:190-223 | In every reachable state the detail view agrees with the list on resume and cancel, and its pause offer equals what the runtime accepts if and only if the job is not both pausable and committing. |
| Witnesses.UnsoundOfferReached | background/store.go:190-223 | A run to a job whose detail view offers a pause that is refused. |
| Idempotency.RepeatedEnqueue | background/store.go:23-37 | A keyed request that created a job finds that job again after any run without retention, and repeating it changes nothing. |
| Idempotency.OtherRequestConflicts | background/store.go:98-127 | After that creation and any run, any valid request with the key is taken for a repetition exactly if it agrees in the job's header and in number, kind, queue and payload of the tasks, and for a conflict otherwise; nothing is written either way. |
| Retention.RepeatedUntilRetained | background/runtime.go:1607-1639 | Over runs that also select and delete finished jobs, a keyed request finds the job it created if and only if that job has not been deleted, and then changes nothing. |
| Retention.StoreRun | background/runtime.go:1607-1639 | Over all such runs, whatever happens between selection and deletion, the whole invariant of the runtime holds for what is left, every deleted job is inert and has freed its key, and no queue has more workers than its limit, those whose row was deleted counted. |
| Retention.SelectionTakes | background/runtime.go:1611-1618 | A selection takes the named jobs that have succeeded, failed or been cancelled, and changes no row. |
| Retention.DeletionTakes | background/runtime.go:1620-1638 | A deletion takes exactly the named jobs that were selected: their keys are free and none of their tasks is left to do; rows and workers of other jobs stay as they were. |
| Retention.DeletedAsSelected | background/runtime.go:1611-1638 | If no retry of a selected job comes before its deletion, then over any run it keeps exactly the rows it was selected with, all finished, so that is what is deleted. |
| Retention.StaysFinished | background/runtime.go:1464-1569 | One action leaves a finished, undeleted job finished if and only if it is not an accepted retry of that job. |
| Retention.RetryLost | background/runtime.go:1620-1638 | A selected job whose retry is accepted before the deletion is deleted all the same, with a task that the retry had queued. |
| Witnesses.SelectedRetried | background/runtime.go:1607-1639 | A run to a failed, selected job whose accepted retry is deleted with it. |
| Retention.GoneForever | background/runtime.go:1607-1639 | Over any run no later step reaches a row of a deleted job: no claim, no worker that still runs, no recovery and no command. |
| BackgroundRuntime.Runtime.Enqueue | background/store.go:16-87 | The method performs exactly the enqueue step and returns its verdict: created, reused, conflicting or invalid. |
| BackgroundRuntime.Runtime.Claim | background/runtime.go:599-661 | The method performs exactly the claim step: the best-ranked claimable row, if any. |
| BackgroundRuntime.Runtime.DispatchQueue | background/runtime.go:573-597 | Filling one queue claims nothing if it is paused, and otherwise exactly as many rows as capacity was free, or until none is claimable. |
| BackgroundRuntime.Runtime.DispatchAvailable | background/runtime.go:573-597 | One pass does so for the five queues in their order, each from the state the one before left. |
| BackgroundRuntime.Runtime.Finish | background/runtime.go:721-893 | The method performs exactly the finish step. |
| BackgroundRuntime.Runtime.BeginCommit | background/runtime.go:1136-1175 | The method performs exactly the commit step and reports whether the commit point was passed. |
| BackgroundRuntime.Runtime.ReportProgress | background/runtime.go:1084-1127 | The method drops a report within half a second of the last one written that rises by less than a percent, and otherwise performs exactly the progress step and remembers the report. |
| ProgressReports.WritesBounded | background/runtime.go:1096-1103 | Writes within half a second of each other rise by a percent each, so an attempt writes at most a hundred times in any half second, however often it reports. |
| ProgressReports.LittleLost | background/runtime.go:1096-1103 | What has been written last is never half a second, and never a percent, behind what was reported last. |
| BackgroundRuntime.Runtime.PauseJob | background/runtime.go:1177-1218 | The method performs exactly the pause step and returns its verdict. |
| BackgroundRuntime.Runtime.ResumeJob | background/runtime.go:1220-1247 | The method performs exactly the resume step and returns its verdict. |
| BackgroundRuntime.Runtime.RunJobNow | background/runtime.go:1249-1280 | The method performs exactly the run-now step and returns its verdict. |
| BackgroundRuntime.Runtime.CancelJob | background/runtime.go:1408-1462 | The method performs exactly the cancel step and returns its verdict. |
| BackgroundRuntime.Runtime.CancelTask | background/runtime.go:1495-1534 | The method performs exactly the single-row cancel step and returns its verdict. |
| BackgroundRuntime.Runtime.RetryJob | background/runtime.go:1464-1493 | The method performs exactly the retry step and returns its verdict. |
| BackgroundRuntime.Runtime.RetryTask | background/runtime.go:1536-1569 | The method performs exactly the single-row retry step and returns its verdict. |
| BackgroundRuntime.Runtime.RecoverStale | background/runtime.go:483-557 | The row-by-row loop over expired heartbeats amounts to the stale-recovery step. |
| BackgroundRuntime.Runtime.Recover | background/runtime.go:416-478 | The loop over tasks, attempts and filtered jobs amounts to the restart step. |
| BackgroundRuntime.Runtime.ListOffers | background/store.go:323-352 | The batch lookup of committing jobs gives every listed job the offer of the list view. |
| Schedules.FiringsSpaced | background/runtime.go:300-311 | Whatever the poll times and however the schedule is switched on and off, two automatic firings are at least one interval apart. |
| Schedules.FiresWhen | background/runtime.go:300-311 | A poll starts a run exactly when the schedule is enabled and a whole interval has passed since its last run, or its first is due. |
| Schedules.RunKeysDistinct | background/runtime.go:312-319 | Distinct firings of one schedule carry distinct idempotency keys with strictly growing counters. |
| Schedules.RunKeyInjective | background/runtime.go:314 | A key determines its schedule and its interval, also across schedules of different intervals and names with colons. |
| ScheduledRuns.DueRunCreated | background/runtime.go:300-319 | Over every run of the runtime, retention and all schedules, in which other requests use other keys, each claimed run that is a valid request becomes a new job: it is never taken for a repetition of, or a conflict with, an older one. |
| Schedules.DecimalInjective | background/runtime.go:314 | Decimal rendering of the counter loses nothing. |
| ScheduledRuns.Scheduler.RunDueSchedules | background/runtime.go:292-330 | One pass claims every due schedule and no other, once, moves it one interval on and enqueues its run with its key on the runtime. |
| FolderTree.FolderContainsFolder | logic/MoveItems.go:97-117 | The walk up the parents ends on every parent graph, answers yes exactly when the one folder is above the other, and otherwise tells a chain that reaches the root from one that runs into a cycle or a missing folder. |
| FolderTree.CycleNotRooted | logic/MoveItems.go:101-104 | A chain that comes back to an earlier folder never reaches the root. |
| FolderTree.MoveKeepsForest | logic/MoveItems.go:39-84 | Moving many folders and links at once, each checked against the old tree only, keeps every chain rooted and every owner equal to its parent's owner, for links as for folders. |
| FolderTree.MoveExact | logic/MoveItems.go:39-84 | For a caller with the rights to the selection and the target, and in a sound store, a move is refused exactly when it would break the forest or leave a link in another owner's folder. |
| FolderDeletion.CollectFolderDeletion | logic/DeleteFolders.go:66-127 | On any parent graph, cycles included, and for any batch size the search ends, succeeds exactly when the roots are valid and everything below belongs to the caller, and returns each live folder below the roots and each link in one of them exactly once. |
| FolderDeletion.DeleteKeepsForest | logic/DeleteFolders.go:27-54 | Deleting everything below the roots leaves a forest, and no link without its folder. |
| FolderDeletion.OwnRootsSuffice | logic/DeleteFolders.go:75-119 | In a sound store whoever owns the roots owns everything below them, so the ownership checks on the way never refuse. |
| FolderService.CreateKeepsForest | logic/CreateFolder.go:21-28 | Inserting a folder at a valid destination keeps the forest. |
| FolderService.ForestForever | logic/CreateFolder.go:12-37 | Over every run of folder and link creations, moves and deletions by any users every live folder hangs under the root or a live folder of its owner and reaches the root, and so does every live link. |
| FolderService.OthersUntouched | logic/MoveItems.go:39-73 | Over every run of requests of other users, none of them an administrator, a user's folders and links stay exactly what and where they were, and none is added. |
| FolderService.FolderService.CreateFolder | logic/CreateFolder.go:12-37 | The method inserts one new folder of the user in the parent exactly when that is the root or a live folder of the user, and changes nothing else. |
| FolderService.FolderService.CreateLink | logic/HashCloneFile.go:78-85 | The transaction that ends an upload or a clone inserts one new link of the user exactly when the destination is the root or a live folder of the user, and changes nothing else. |
| FolderService.FolderService.MoveItems | logic/MoveItems.go:11-91 | The method moves exactly when the move is granted. Then every listed folder and link is in the target with its owner unchanged, the target is above each moved folder, every other row is as it was and none is added or lost; otherwise nothing changes. |
| FolderService.FolderService.ValidateFolders | logic/MoveItems.go:39-63 | The validation loop over folders accepts exactly the lists that may be moved. |
| FolderService.FolderService.ValidateLinks | logic/MoveItems.go:64-73 | The validation loop over links accepts exactly the lists that may be moved. |
| FolderService.FolderService.DeleteFolders | logic/DeleteFolders.go:12-62 | The method deletes the roots, and every folder and link that stood in a deleted folder, and nothing else, exactly when the deletion is granted; otherwise nothing changes. In a sound store it is granted exactly to distinct sibling folders of the caller within the limit. |
| FolderService.DeleteRows | logic/DeleteFiles.go:60-86 | The batched deletion removes exactly the listed rows, or refuses when a batch matches fewer rows than it names. |
| CacheTable.LruExact | mediacache/service.go:979-984 | The eviction list holds exactly the live entries of the mount, in order of last access and row number, and its sizes add up to the bytes used. |
| CacheTable.UpsertShape | mediacache/service.go:1068-1074 | Insert-or-overwrite changes one row at most and keeps the unique key unique. |
| CachePruning.AdmissionExact | mediacache/service.go:948-1005 | Without store failures a promotion is admitted if and only if used plus incoming is within the high watermark or incoming is within the low one, and, if the store reports a disk that incoming bytes would leave with less than a tenth free, evicting everything would leave at least twelve parts in a hundred free. |
| CachePruning.AdmittedFits | mediacache/service.go:959-964 | After an admission, with or without a capacity report, the bytes left plus the incoming ones are within the limit. |
| CachePruning.AdmittedLeavesFree | mediacache/service.go:965-974 | With a capacity report an admission of incoming bytes leaves at least a tenth of the disk free, counting what was evicted, and twelve parts in a hundred if that tenth was about to be used. |
| CachePruning.NothingGoes | mediacache/service.go:975-977 | Nothing is evicted and the promotion is admitted while neither the high watermark nor that tenth is passed. |
| CachePruning.UsedEvicted | mediacache/service.go:985-1000 | Evicting a prefix of the list frees exactly the sizes on it. |
| CachePruning.NoneToSpare | mediacache/service.go:996-999 | Had one entry fewer been evicted, too little would have been freed: the low watermark would still be passed after the high one was, or the disk still short of the twelve parts in a hundred after its tenth was. |
| CachePruning.OldestGo | mediacache/service.go:982 | Every evicted entry was used less recently than every entry of the mount that stays. |
| MediaCache.Service.PruneMembership | mediacache/service.go:948-1005 | The method deletes the rows and returns the verdict that pruning prescribes; it fails only at an entry the store refuses to delete, and skips without touching a row if the limit is zero or smaller than the incoming bytes. |
| MediaCache.Service.Evict | mediacache/service.go:985-1000 | The eviction loop stops where enough is freed, the list ends or the store refuses, having evicted exactly the entries before that point. |
| MediaCache.Service.InvalidateFile | mediacache/service.go:628-649 | The method moves the file's version on by one, marks exactly its entries deleted, leaves the rows and versions of other files alone and returns the entries that were live; file 0 is ignored. |
| MediaCache.Service.CommitPromotion | mediacache/service.go:1054-1076 | Exactly when the file is live with the version carried along, the method writes the entry to the row of its key, or to a new one if the key has none, and touches no other row; otherwise it reports it stale and changes nothing. |
| MediaCache.Service.OpenCached | mediacache/service.go:393-439 | With nothing in between, the method serves exactly an entry a lookup may serve whose mount still caches for the pool, can be read and holds an object of the recorded size; it drops one whose object is gone, misnamed or of another size, and nothing else. |
| MediaCache.Service.FindEntry | mediacache/service.go:394-403 | The lookup statement finds exactly the live entry of the key whose file is live and whose version is the file's. |
| MediaCache.Service.ServeEntry | mediacache/service.go:404-438 | What follows decides by the entry as it was looked up, and drops the row of its number as the table is by then. |
| CacheGenerations.DropsWhatWasFound | mediacache/service.go:1021-1022 | Over any run without a promotion of its key, the row that a late drop deletes is the entry that was looked up. |
| CacheGenerations.LateDrop | mediacache/service.go:1021-1022 | A promotion of the key in between is what the drop deletes: a current entry that a lookup had found is found no more. |
| CacheQuota.QuotaKept | mediacache/service.go:887-898 | Over every interleaving of promotions, prunings, deletions, accesses and raised limits, the live entries of a pool's cache mount never exceed its limit. |
| CacheQuota.ReadyHasRoom | mediacache/service.go:526-563 | Between pruning and commit, whatever others do, the room for the incoming bytes stays. |
| CacheQuota.ForeignKeeps | mediacache/service.go:506-569 | What other workers and deletions do never invalidates what a worker has measured, listed or freed. |
| CacheQuota.CommitFits | mediacache/service.go:563-566 | A commit, also one that overwrites or moves an entry of the same key, stays within the limit read under the lock. |
| CacheQuota.AlonePrunes | mediacache/service.go:948-1005 | A worker that is not disturbed deletes exactly what pruning deletes and may commit exactly when pruning admits. |
| CacheQuota.AlonePromotes | mediacache/service.go:506-569 | From the free lock to the commit, such a worker stores an entry of exactly its bytes in the row of its key if pruning admits them, and otherwise only prunes. |
| CacheGenerations.StalePromotion | mediacache/service.go:1054-1067 | A promotion that read its version before the file's version moved on never changes the table afterwards, however often it is tried. |
| CacheGenerations.ServedSince | mediacache/service.go:393-400 | Whatever is served after the version moved on was promoted with a version read since. |
| CacheGenerations.FreshSinceInvalidation | mediacache/service.go:628-649 | After an invalidation every live entry of the file carries its current version, over any run until a cutover of that file. |
| CacheGenerations.FreshRun | mediacache/service.go:1054-1076 | The same from any state in which it holds, so from the empty table. |
| CacheGenerations.CutoverFresh | services/StorageMigration.go:355-366 | The version step of a cutover keeps live entries current if and only if the file has no live entry. |
| CacheGenerations.CutoverLeavesStale | services/StorageMigration.go:355-366 | A reachable state with a live entry of an old version, which is not served. |
| CacheGenerations.LookupExact | mediacache/service.go:396-400 | A lookup finds exactly the live entry of its key whose file is live and whose version is the file's. |
| CacheGenerations.PromotionServed | mediacache/service.go:1054-1076 | A promotion whose version is still the file's is what a lookup of its key finds next, with the contents promoted, and writes no other row. |
| CacheGenerations.ServedUntil | mediacache/service.go:393-403 | Over any run an entry in service stays in service, unchanged, unless its own file is invalidated, cut over or deleted, it is dropped itself, or its key is promoted again. |
| CacheGenerations.ReachableInv | mediacache/service.go:628-649 | In every reachable state no entry or ticket carries a version its file has not had, and keys are unique. |
| Capture.CompleteIsCopy | mediacache/capture.go:35-79 | For every sequence of reads, seeks, short and failing writes the file is a prefix of the source, and success means an exact copy of the expected length. |
| Capture.CompleteExact | mediacache/capture.go:70-79 | Success is reported if and only if the closes succeed and the client read exactly the expected bytes in sequence, each stored in full, never seeking away once it had started. |
| Capture.PlainReadCompletes | mediacache/capture.go:35-79 | A client that only reads, to the end, with successful writes and closes, gets success and a full copy. |
| Capture.CaptureBody.Read | mediacache/capture.go:35-56 | The method hands on the source's bytes unchanged and performs exactly the read step. |
| Capture.CaptureBody.Seek | mediacache/capture.go:58-68 | The method performs exactly the seek step; a failed seek changes nothing. |
| Capture.CaptureBody.Close | mediacache/capture.go:70-79 | The first close reports once, later closes report nothing and repeat its error. |
| LockKeys.UniqueLifecycleIDs | app/storage_lifecycle.go:89-101 | The loop with a set, sorted at the end, yields the ascending list of the distinct non-empty values. |
| LockKeys.UniqueKeysExact | app/storage_lifecycle.go:89-101 | That list is strictly ascending and holds exactly the non-empty values. |
| Names.BelowExact | app/storage_lifecycle.go:99 | The string order is the lexicographic one: after a common beginning the first string ends or has the smaller character. |
| Locks.ReachableInv | app/storage_lifecycle.go:22-51 | Under every interleaving the table, the counts and the callers agree and writers are alone. |
| Locks.SharedEntry | app/storage_lifecycle.go:103-116 | All holders and waiters of a key are on the one entry the map has for it. |
| Locks.TableExact | app/storage_lifecycle.go:103-125 | The map has a key exactly while a caller is at it, and its count is the number of callers at it. |
| Locks.WriterAlone | app/storage_lifecycle.go:31-38 | Two callers that have the same key are both readers. |
| Locks.EntryExact | app/storage_lifecycle.go:22-38 | A waiting caller may go in exactly when nobody has its key, or it reads and so does everybody who has the key. |
| Locks.LockedAsAsked | app/storage_lifecycle.go:22-51 | Whatever others do meanwhile, once a call has got through, its caller has every key it asked for: alone if it asked to write, and otherwise together with readers only. |
| Locks.NoDeadlock | app/storage_lifecycle.go:40-51 | Callers that make one call at a time always leave somebody able to go on, even if waiting writers keep new readers out. |
| Locks.StepShrinks | app/storage_lifecycle.go:22-51 | Every step that is not a new call reduces the work outstanding. |
| Locks.Drains | app/storage_lifecycle.go:22-51 | From every such state the calls in progress can be brought to their end, and the map is then empty. |
| StorageLifecycle.Lifecycle.RetainLock | app/storage_lifecycle.go:103-116 | The method returns the shared entry of the key, counted once more, creating it if the map has none, and touches no other entry. |
| StorageLifecycle.Lifecycle.ReleaseLock | app/storage_lifecycle.go:118-125 | The method counts the entry down and removes it from the map exactly at zero. |
| Placement.PlaceFiles | logic/StorageMigration.go:525-536 | The loop sends every file to the mount least used so far, the smaller id on a tie, and its usage, counts and bytes are those of the resulting assignment. |
| Placement.ChosenUnique | logic/StorageMigration.go:526-531 | The mount chosen does not depend on the order in which mounts are tried. |
| Placement.LeastUsed | logic/StorageMigration.go:526-531 | It is the mount with the least usage and, among those that have it, the smallest identifier. |
| Placement.Conservation | logic/StorageMigration.go:533-535 | Counts and bytes over all mounts account for every file and every byte. |
| Placement.LastPlaced | logic/StorageMigration.go:525-536 | A mount that received a file ends at most that last file's size above every other mount. |
| Placement.AnyOrderBound | logic/StorageMigration.go:525-536 | With m mounts and files in any order, no mount ends above 2 - 1/m times the maximum of any other assignment onto the same initial usage. |
| Placement.DescendingBound | logic/StorageMigration.go:468-473 | With files in descending size, as the plan queries them, no mount ends above 3/2 - 1/(2m) times that maximum. |

## Left out

- Handlers, stores, files, the network and the database engine: a handler ends with any result, a store or disk answers anything.
- Failing database statements and the retries around them (`finishWithRetry`), health reporting, loop supervision and logging.
- Events, phases, messages, error texts, summaries, the manual `RunSchedule`, whose requests count among the others, and `CancelKinds`, which cancels jobs one by one.
- RuntimeGuarantees.SucceededForever: speaks of a row until retention deletes it.
- RuntimeGuarantees.TerminalForever: speaks of a row until retention deletes it.
- RuntimeGuarantees.SucceededJobForever: speaks of a job until retention deletes it.
- Idempotency.RepeatedEnqueue: speaks of runs without retention; `Retention.RepeatedUntilRetained` is the statement with it.
- Retention.StoreRun: takes any set of finished jobs as old enough, since finishing times are not modelled; a deleted job leaves an inert row, its unfinished tasks counted as cancelled, so that row numbers stay identifiers.
- ScheduledRuns.DueRunCreated: takes a schedule's interval as fixed for good and its keys as short enough to be stored unhashed.
- The legacy import of `background/migration.go`, which records an interrupted attempt without extending the budget.
- The moments between a claim and its launch, and between a finish and the removal of the worker from the active map: each pair is one step; a worker lost in between is the lost-worker step.
- UUID tie-breaks between rows created at the same instant: the model orders rows by number.
- Normalisation and truncation of strings, and the default dedupe key of a task: given in normalised form.
- BackgroundRuntime.CountRows: does not model overflow of 64-bit weight sums.
- Dispatch.BoundedOvertaking: computes `julianday` differences exactly, where SQLite rounds floating-point days.
- Schedules.FiringsSpaced: speaks of automatic firings; a schedule row that an operator deletes by hand is not modelled.
- RuntimeGuarantees.CancelledForever: states safety only, since a cancellation need not conclude.
- RunLaws.CancellationConcludes: excludes workers that end interrupted, deferred or with a transient failure, whose rows can wait again (`RuntimeGuarantees.CancelRequestedMayWait`).
- RunLaws.NoEarlyAttempt: takes a clock that never goes back.
- Capabilities.ListOfferExact: covers the flags a listing computes, not the moment that passes before an operator acts on them.
- FolderService.FolderService.DeleteFolders: does not model the one-request-at-a-time gate in front of it.
- The files and sessions created together with links, and the folder and file updates that load and save outside a transaction.
- MediaCache.Service.OpenCached: claims the generation of entries, not of bytes: the file's version is read after the origin is opened.
- CacheQuota.QuotaKept: covers limits that are not lowered while entries exist, and takes the watermarks as integers between 0 and the limit instead of rounding floating-point products.
- CachePruning.AdmissionExact: leaves out overflow of 64-bit byte counts.
- CacheGenerations.StalePromotion: uses unbounded versions; the source's are 64-bit.
- The in-memory set of running promotions, workspace reservations, access-time batching and the choice among target mounts.
- Objects in cache stores, and deletions of objects outside the membership lock.
- Locks.NoDeadlock: covers callers that make one call at a time; callers that nest calls order their keys themselves.
- Placement.DescendingBound: leaves out overflow of 64-bit sizes; files and usage are non-negative.
- Copying, cutover and cleanup of a storage migration beyond the cutover's effect on cache versions.
- Accounts, uploads, HTTP, configuration and traffic statistics.
