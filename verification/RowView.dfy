/** What one step does to one task row and to one job's flags. */
module RowView {
  import opened Common
  import opened BackgroundTypes
  import opened JobReduction
  import opened RuntimeSteps
  import opened TableLemmas

  /** A row createTask has just written. */
  predicate FreshRow(r: Task, j: nat) {
    && r.jobId == j && r.status.TaskQueued? && r.progress == 0 && r.attemptCount == 0
    && r.maxAttempts >= 1 && !r.commitStarted && !r.cancelRequested
  }

  lemma {:induction false} InsertShape(tasks: seq<Task>, j: nat, parent: nat, specs: seq<TaskSpec>, now: int)
    ensures var rows := InsertChildren(tasks, j, parent, specs, now);
      && |tasks| <= |rows| && rows[..|tasks|] == tasks
      && (forall t | 0 <= t < |tasks| :: rows[t] == tasks[t])
      && forall t | |tasks| <= t < |rows| :: 
           FreshRow(rows[t], j) && rows[t].header.parent == Some(parent) && rows[t].header.createdAt == now
  {
    if specs == [] {
    } else {
      InsertShape(tasks, j, parent, specs[..|specs| - 1], now);
      hide Taken;
    }
  }

  predicate Completes(db: Db, t: nat) {
    t in db.active && t < |db.tasks| && InFlight(db.tasks[t].status)
  }

  predicate Accepted(db: Db, action: Action, t: nat) {
    match action
    case CancelTask(u) => u == t && CancelTaskVerdict(db, t).Ok?
    case RetryTask(u) => u == t && RetryTaskVerdict(db, t).Ok?
    case BeginCommit(u) => u == t && CanCommit(db, t)
    case ReportProgress(u, _) => u == t && Completes(db, t)
    case Finish(u, _) => u == t && Completes(db, t)
    case Claim(queue) => MayClaim(db, queue) && Best(db, queue, |db.tasks|) == Some(t)
    case _ => false
  }

  /** The row t becomes. */
  ghost function NextRow(db: Db, action: Action, t: nat): Task
    requires t < |db.tasks|
  {
    var r := db.tasks[t];
    match action
    case Claim(_) => if Accepted(db, action, t) then ClaimedTask(r, db.now) else r
    case Finish(_, outcome) => if Accepted(db, action, t) then FinishedTask(r, Effective(r, outcome), db.now) else r
    case BeginCommit(_) => if Accepted(db, action, t) then r.(commitStarted := true) else r
    case ReportProgress(_, fraction) =>
      if Accepted(db, action, t) then r.(progress := ReportedValue(fraction), heartbeatAt := Some(db.now)) else r
    case RunJobNow(j) => if RunNowVerdict(db, j).Ok? then ReleasedTask(r, j, db.now) else r
    case CancelJob(j) => if CancelJobVerdict(db, j).Ok? then CanceledRow(r, j) else r
    case CancelTask(_) => if Accepted(db, action, t) then CanceledTask(r) else r
    case RetryJob(j) => if RetryJobVerdict(db, j).Ok? then RetriedRow(r, j) else r
    case RetryTask(_) => if Accepted(db, action, t) then RetriedTask(r) else r
    case RecoverStale(before) => if StaleTask(db, t, before) then StaleRow(r) else r
    case Heartbeat => if Completes(db, t) then r.(heartbeatAt := Some(db.now)) else r
    case Recover => if db.active == map[] then RecoveredRow(r) else r
    case Enqueue(_) | PauseJob(_) | ResumeJob(_) | LoseWorker(_) | Crash | SetQueuePaused(_, _) | Tick(_) => r
  }

  /** Tasks a step may create: root tasks of the new job, or follow-ups of the task that succeeded. */
  predicate CreatedRow(db: Db, action: Action, r: Task) {
    match action
    case Enqueue(_) => FreshRow(r, |db.jobs|) && r.header.parent.None? && r.header.createdAt == db.now
    case Finish(t, outcome) =>
      && Completes(db, t) && Effective(db.tasks[t], outcome).Success?
      && FreshRow(r, db.tasks[t].jobId) && r.header.parent == Some(t) && r.header.createdAt == db.now
    case _ => false
  }

  lemma FinishRows(db: Db, t: nat, effective: Outcome)
    requires t in db.active && t < |db.tasks|
    ensures var rows := Finished(db, t, effective).tasks;
      && |db.tasks| <= |rows|
      && (forall u | 0 <= u < |db.tasks| ::
            rows[u] == if u == t then FinishedTask(db.tasks[t], effective, db.now) else db.tasks[u])
      && (forall u | |db.tasks| <= u < |rows| ::
            effective.Success? && FreshRow(rows[u], db.tasks[t].jobId) && rows[u].header.parent == Some(t)
            && rows[u].header.createdAt == db.now)
  {
    hide InsertChildren, FinishedTask;
    var r := db.tasks[t];
    InsertShape(db.tasks[t := FinishedTask(r, effective, db.now)], r.jobId, t, ChildrenOf(effective), db.now);
    if !effective.Success? { NoChildren(db.tasks[t := FinishedTask(r, effective, db.now)], r.jobId, t, db.now); }
  }

  lemma NoChildren(tasks: seq<Task>, j: nat, parent: nat, now: int)
    ensures InsertChildren(tasks, j, parent, [], now) == tasks
  {
  }

  /** The task table after a step, row by row. */
  lemma RowStep(db: Db, action: Action)
    ensures var rows := Apply(db, action).tasks;
      && |db.tasks| <= |rows|
      && (forall t | 0 <= t < |db.tasks| :: rows[t] == NextRow(db, action, t))
      && (forall t | |db.tasks| <= t < |rows| :: CreatedRow(db, action, rows[t]))
  {
    hide Reduced, Rows, FinishedTask, ClaimedTask, InsertChildren, Claimable, Precedes, Close, Taken, Roots, KeyHolder,
         Committing, Workers, StaleRow, RecoveredRow, RetriedTask, CanceledTask, Score, ReleasedTask, CanceledRow,
         RetriedRow, ReportedValue, Scheduled, Blank, FinishedAttempt, SetAttempt, InterruptRunning;
    if action.Finish? && Completes(db, action.t) {
      FinishRows(db, action.t, Effective(db.tasks[action.t], action.outcome));
    }
  }

  /** A job's cancel flag after a step. */
  ghost function NextCancel(db: Db, action: Action, j: nat): bool
    requires j < |db.jobs|
  {
    match action
    case CancelJob(i) => db.jobs[j].cancelRequested || (i == j && CancelJobVerdict(db, j).Ok?)
    case RetryJob(i) => db.jobs[j].cancelRequested && !(i == j && RetryJobVerdict(db, j).Ok?)
    case RetryTask(t) => db.jobs[j].cancelRequested && !(RetryTaskVerdict(db, t).Ok? && db.tasks[t].jobId == j)
    case _ => db.jobs[j].cancelRequested
  }

  lemma CancelFlagStep(db: Db, action: Action, j: nat)
    requires j < |db.jobs|
    ensures |db.jobs| <= |Apply(db, action).jobs|
    ensures Apply(db, action).jobs[j].cancelRequested == NextCancel(db, action, j)
  {
    SettleKeeps();
    hide Settle, Rows, ClaimedTask, InsertChildren, Claimable, Precedes, Close, Taken, Roots, KeyHolder,
         Committing, Workers, Score, Scheduled, Blank, SetAttempt, InterruptRunning, FinishedTask, StaleTask,
         ReleasedTask, CanceledRow, RetriedRow, RecoveredRow, StaleRow, RetriedTask, CanceledTask, Effective;
  }

  lemma HeaderStep(db: Db, action: Action, j: nat)
    requires j < |db.jobs|
    ensures |db.jobs| <= |Apply(db, action).jobs|
    ensures Apply(db, action).jobs[j].header == db.jobs[j].header
    ensures Apply(db, action).jobs[j].idempotencyKey == db.jobs[j].idempotencyKey
  {
    SettleKeeps();
    hide Settle, Rows, ClaimedTask, InsertChildren, Claimable, Precedes, Close, Taken, Roots, KeyHolder,
         Committing, Workers, Score, Scheduled, Blank, SetAttempt, InterruptRunning, FinishedTask, StaleTask,
         ReleasedTask, CanceledRow, RetriedRow, RecoveredRow, StaleRow, RetriedTask, CanceledTask, Effective,
         MayClaim, PausableStatus, ReportedValue, NewTasks;
  }

  /** Only a request adds a job, with the request's key. */
  lemma JobsStep(db: Db, action: Action)
    ensures |Apply(db, action).jobs| == |db.jobs|
         || (&& action.Enqueue? && |Apply(db, action).jobs| == |db.jobs| + 1
             && Apply(db, action).jobs[|db.jobs|].idempotencyKey == action.spec.idempotencyKey)
  {
    SettleKeeps();
    hide Settle, Rows, ClaimedTask, InsertChildren, Claimable, Precedes, Close, Taken, Roots, KeyHolder,
         Committing, Workers, Score, Scheduled, Blank, SetAttempt, InterruptRunning, FinishedTask, StaleTask,
         ReleasedTask, CanceledRow, RetriedRow, RecoveredRow, StaleRow, RetriedTask, CanceledTask, Effective;
  }

  /** The job table after a step: nothing but flags, status and progress ever changes. */
  lemma FlagStep(db: Db, action: Action, j: nat)
    requires j < |db.jobs|
    ensures var jobs := Apply(db, action).jobs;
      && |db.jobs| <= |jobs|
      && jobs[j].cancelRequested == NextCancel(db, action, j)
      && jobs[j].header == db.jobs[j].header && jobs[j].idempotencyKey == db.jobs[j].idempotencyKey
  {
    CancelFlagStep(db, action, j);
    HeaderStep(db, action, j);
    hide Apply, NextCancel;
  }

  /** No step changes the columns fixed at creation. */
  lemma IdentityStep(db: Db, action: Action, t: nat)
    requires t < |db.tasks|
    ensures NextRow(db, action, t).jobId == db.tasks[t].jobId
    ensures NextRow(db, action, t).header == db.tasks[t].header
  {
    hide Accepted, StaleTask, Completes, RunNowVerdict, CancelJobVerdict, RetryJobVerdict;
  }
}
