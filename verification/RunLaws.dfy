/** What delays, pauses and cancellations mean over whole runs, and what a job's status says about its tasks. */
module RunLaws {
  import opened Common
  import opened BackgroundTypes
  import opened JobReduction
  import opened RuntimeSteps
  import opened RuntimeInvariants
  import opened TableLemmas
  import opened RowView
  import opened Runs
  import opened RuntimeGuarantees
  import opened Effects
  import Dispatch
  import Retention

  // ---------------------------------------------------------------- statuses

  /** The job has a task with one of these statuses. */
  ghost predicate HasTask(db: Db, j: nat, statuses: set<TaskStatus>) {
    exists t :: 0 <= t < |db.tasks| && db.tasks[t].jobId == j && db.tasks[t].status in statuses
  }

  /** The job has a required task with this status. */
  ghost predicate HasRequired(db: Db, j: nat, status: TaskStatus) {
    exists t ::
      0 <= t < |db.tasks| && db.tasks[t].jobId == j && db.tasks[t].header.required && db.tasks[t].status == status
  }

  const RUNNING := {TaskRunning, TaskCancelRequested}
  const OPEN := {TaskQueued, TaskRetryWait, TaskRunning, TaskCancelRequested}

  /** In every reachable state a job's status tells its flags and the statuses of its tasks, and the other way
      round. */
  lemma StatusMeans(db: Db, j: nat)
    requires Reachable(db) && j < |db.jobs|
    ensures var (job, open, running) := (db.jobs[j], HasTask(db, j, OPEN), HasTask(db, j, RUNNING));
      var failed, canceled := HasRequired(db, j, TaskFailed), HasRequired(db, j, TaskCanceled);
      && (job.status == JobFailed <==> !open && failed)
      && (job.status == JobCanceled <==> !open && !failed && (job.cancelRequested || canceled))
      && (job.status == JobSucceeded
          <==> !job.cancelRequested && !HasTask(db, j, OPEN + {TaskFailed, TaskCanceled}))
      && (job.status == JobSucceededWithWarnings
          <==> !open && !failed && !canceled && !job.cancelRequested && HasTask(db, j, {TaskFailed, TaskCanceled}))
      && (job.status == JobCancelRequested <==> open && job.cancelRequested)
      && (job.status == JobPauseRequested <==> running && !job.cancelRequested && job.pauseRequested)
      && (job.status == JobPaused <==> open && !running && !job.cancelRequested && job.pauseRequested)
      && (job.status == JobRunning <==> running && !job.cancelRequested && !job.pauseRequested)
      && (job.status == JobRetryWait
          <==> !running && HasTask(db, j, {TaskRetryWait}) && !job.cancelRequested && !job.pauseRequested)
      && (job.status == JobQueued
          <==> open && !running && !HasTask(db, j, {TaskRetryWait}) && !job.cancelRequested && !job.pauseRequested)
  {
    StoredJobIsReduction(db, j);
    RowsTell(db, j);
    hide Reachable, Rows, ProgressOf, HasTask, HasRequired, AnyInFlight, AnyRetryWait, AnyOpen, AnyFailed, AnyCanceled;
  }

  /** And so which commands are accepted: to pause, what is open and not asked to stop or committing; to resume, what
      is asked to pause; to start at once, what waits in the queue with a task scheduled for later; to cancel,
      what is open and not committing; to retry, what has ended with a task to retry. */
  lemma VerdictsMean(db: Db, j: nat)
    requires Reachable(db) && j < |db.jobs|
    ensures var (job, open, running) := (db.jobs[j], HasTask(db, j, OPEN), HasTask(db, j, RUNNING));
      && (PauseVerdict(db, j).Ok?
          <==> job.header.pausable && open && !job.pauseRequested && !job.cancelRequested && !Committing(db.tasks, j))
      && (ResumeVerdict(db, j).Ok? <==> open && job.pauseRequested && !job.cancelRequested)
      && (CancelJobVerdict(db, j).Ok? <==> open && !Committing(db.tasks, j))
      && (RetryJobVerdict(db, j).Ok? <==> !open && HasTask(db, j, {TaskFailed, TaskCanceled}))
      && (RunNowVerdict(db, j).Ok?
          <==> open && !running && !HasTask(db, j, {TaskRetryWait}) && !job.pauseRequested && !job.cancelRequested
               && exists t :: 0 <= t < |db.tasks| && HasStart(db, j, t))
  {
    hide Reachable, Committing, HasTask, HasRequired, HasStart;
    hide PauseVerdict, ResumeVerdict, CancelJobVerdict, RetryJobVerdict, RunNowVerdict;
    OpenVerdicts(db, j);
    RetryMeans(db, j);
    RunNowMeans(db, j);
  }

  lemma OpenVerdicts(db: Db, j: nat)
    requires Reachable(db) && j < |db.jobs|
    ensures var (job, open) := (db.jobs[j], HasTask(db, j, OPEN));
      && (PauseVerdict(db, j).Ok?
          <==> job.header.pausable && open && !job.pauseRequested && !job.cancelRequested && !Committing(db.tasks, j))
      && (ResumeVerdict(db, j).Ok? <==> open && job.pauseRequested && !job.cancelRequested)
      && (CancelJobVerdict(db, j).Ok? <==> open && !Committing(db.tasks, j))
  {
    hide Reachable, Committing, HasTask, HasRequired;
    StatusMeans(db, j);
    TasksTell(db, j);
  }

  lemma RetryMeans(db: Db, j: nat)
    requires Reachable(db) && j < |db.jobs|
    ensures RetryJobVerdict(db, j).Ok? <==> !HasTask(db, j, OPEN) && HasTask(db, j, {TaskFailed, TaskCanceled})
  {
    hide Reachable, HasTask, HasRequired;
    StatusMeans(db, j);
    TasksTell(db, j);
  }

  lemma RunNowMeans(db: Db, j: nat)
    requires Reachable(db) && j < |db.jobs|
    ensures RunNowVerdict(db, j).Ok? <==>
              && HasTask(db, j, OPEN) && !HasTask(db, j, RUNNING) && !HasTask(db, j, {TaskRetryWait})
              && !db.jobs[j].pauseRequested && !db.jobs[j].cancelRequested
              && exists t :: 0 <= t < |db.tasks| && HasStart(db, j, t)
  {
    hide Reachable, HasTask, HasRequired, HasStart, Scheduled;
    StatusMeans(db, j);
    StartsTell(db, j);
  }

  lemma StartsTell(db: Db, j: nat)
    ensures (exists t :: 0 <= t < |db.tasks| && HasStart(db, j, t))
       <==> !(forall t | 0 <= t < |db.tasks| :: !Scheduled(db.tasks[t], j, db.now))
  {
    assert forall t | 0 <= t < |db.tasks| :: HasStart(db, j, t) <==> Scheduled(db.tasks[t], j, db.now);
  }

  lemma TasksTell(db: Db, j: nat)
    ensures HasTask(db, j, OPEN + {TaskFailed, TaskCanceled})
       <==> HasTask(db, j, OPEN) || HasTask(db, j, {TaskFailed, TaskCanceled})
    ensures HasRequired(db, j, TaskFailed) || HasRequired(db, j, TaskCanceled)
        ==> HasTask(db, j, {TaskFailed, TaskCanceled})
    ensures HasTask(db, j, RUNNING) || HasTask(db, j, {TaskRetryWait}) ==> HasTask(db, j, OPEN)
    ensures HasTask(db, j, {TaskFailed, TaskCanceled})
       <==> exists t :: 0 <= t < |db.tasks| && db.tasks[t].jobId == j && Retryable(db.tasks[t].status)
  {
  }

  /** A queued task of the job that may not start before a time to come. */
  predicate HasStart(db: Db, j: nat, t: nat)
    requires t < |db.tasks|
  {
    && db.tasks[t].jobId == j && db.tasks[t].status.TaskQueued?
    && db.tasks[t].runAfter.Some? && db.tasks[t].runAfter.value > db.now
  }

  lemma RowsTell(db: Db, j: nat)
    ensures var rows := Rows(db.tasks, j);
      && (AnyOpen(rows) <==> HasTask(db, j, OPEN)) && (AnyInFlight(rows) <==> HasTask(db, j, RUNNING))
      && (AnyRetryWait(rows) <==> HasTask(db, j, {TaskRetryWait}))
      && (AnyFailed(rows, true) <==> HasRequired(db, j, TaskFailed))
      && (AnyCanceled(rows, true) <==> HasRequired(db, j, TaskCanceled))
      && (AnyFailed(rows, true) || AnyFailed(rows, false) || AnyCanceled(rows, true) || AnyCanceled(rows, false)
          <==> HasTask(db, j, {TaskFailed, TaskCanceled}))
      && (AnyOpen(rows) || HasTask(db, j, {TaskFailed, TaskCanceled})
          <==> HasTask(db, j, OPEN + {TaskFailed, TaskCanceled}))
  {
    hide Rows;
    RowsMembers(db.tasks, j);
  }

  // ---------------------------------------------------------------- no attempt before its time

  /** Row t has not been attempted since its n-th attempt and is ended or waits for its time. */
  predicate Held(db: Db, t: nat, n: nat, at: int) {
    && t < |db.tasks| && db.tasks[t].attemptCount == n
    && (TerminalTask(db.tasks[t].status) || (db.tasks[t].status.TaskRetryWait? && db.tasks[t].runAfter == Some(at)))
  }

  lemma HeldStep(db: Db, action: Action, t: nat, n: nat, at: int)
    requires Inv(db) && Held(db, t, n, at) && Apply(db, action).now < at && !RetriesTask(db, action, t)
    ensures Held(Apply(db, action), t, n, at)
  {
    hide Apply, Cache, Ledger, WithinCapacity, Fence, Quiet;
    ClockGrows(db, action);
    RowStep(db, action);
    if TerminalTask(db.tasks[t].status) { TerminalStep(db, action, t); }
  }

  lemma ClockGrows(db: Db, action: Action)
    ensures Apply(db, action).now >= db.now
  {
    Dispatch.ClockStep(db, action);
  }

  /** Over any run, a task that waits for its time starts no attempt before it, unless an operator retries it. */
  lemma {:induction false} NoEarlyAttempt(db: Db, actions: seq<Action>, t: nat, n: nat, at: int)
    requires Inv(db) && Held(db, t, n, at) && Run(db, actions).now < at
    requires forall i | 0 <= i < |actions| :: !RetriesTask(db, actions[i], t)
    ensures Held(Run(db, actions), t, n, at) && Run(db, actions).tasks[t].jobId == db.tasks[t].jobId
  {
    hide Inv, Apply, Held;
    if actions == [] {
      HeldRow(db, t, n, at);
    } else {
      var front, last := actions[..|actions| - 1], actions[|actions| - 1];
      HeldRow(db, t, n, at);
      ClockGrows(Run(db, front), last);
      NoEarlyAttempt(db, front, t, n, at);
      RunInv(db, front);
      HeldRow(Run(db, front), t, n, at);
      HeldStep(Run(db, front), last, t, n, at);
      HeldRow(Run(db, actions), t, n, at);
      SameJob(Run(db, front), last, t);
    }
  }

  lemma HeldRow(db: Db, t: nat, n: nat, at: int)
    requires Held(db, t, n, at)
    ensures t < |db.tasks|
  {
  }

  lemma SameJob(db: Db, action: Action, t: nat)
    requires t < |db.tasks|
    ensures t < |Apply(db, action).tasks| && Apply(db, action).tasks[t].jobId == db.tasks[t].jobId
  {
    hide Apply;
    RowStep(db, action);
    IdentityStep(db, action, t);
  }

  /** The handler asked for a delay, or failed transiently with attempts left. */
  predicate Delays(r: Task, outcome: Outcome) {
    && outcome.Failure?
    && (outcome.err.Deferred? || (outcome.err.Transient? && r.attemptCount < r.maxAttempts))
  }

  /** In particular a deferred task, and one that failed transiently with attempts left, is left alone for the
      delay that was asked for or that its attempt number gives. */
  lemma DelayKept(db: Db, t: nat, outcome: Outcome, actions: seq<Action>, ended: Db)
    requires Inv(db) && Completes(db, t) && Delays(db.tasks[t], outcome)
    requires ended == Apply(db, Finish(t, outcome))
    requires forall i | 0 <= i < |actions| :: !RetriesTask(db, actions[i], t)
    requires Run(ended, actions).now < db.now + Delay(db.tasks[t].attemptCount, outcome.retryAfter)
    ensures t < |Run(ended, actions).tasks|
    ensures Run(ended, actions).tasks[t].attemptCount == db.tasks[t].attemptCount
  {
    hide Apply, Run, Inv, Delay;
    DelayStarts(db, t, outcome);
    SameJob(db, Finish(t, outcome), t);
    NoEarlyAttempt(ended, actions, t, db.tasks[t].attemptCount,
                   db.now + Delay(db.tasks[t].attemptCount, outcome.retryAfter));
  }

  lemma DelayStarts(db: Db, t: nat, outcome: Outcome)
    requires Inv(db) && Completes(db, t) && Delays(db.tasks[t], outcome)
    ensures Inv(Apply(db, Finish(t, outcome)))
    ensures Held(Apply(db, Finish(t, outcome)), t, db.tasks[t].attemptCount,
                 db.now + Delay(db.tasks[t].attemptCount, outcome.retryAfter))
  {
    hide Apply, Delay, EndsAs, Inv, Held;
    StepInv(db, Finish(t, outcome));
    EndedRow(db, t, outcome);
    EndsDelayed(db.tasks[t], Apply(db, Finish(t, outcome)), t, outcome, db.now);
  }

  lemma EndedRow(db: Db, t: nat, outcome: Outcome)
    requires Inv(db) && Completes(db, t)
    ensures t < |Apply(db, Finish(t, outcome)).tasks|
    ensures EndsAs(db.tasks[t], Apply(db, Finish(t, outcome)).tasks[t], outcome, db.now)
  {
    assert db.active[t] < |db.attempts| by { Pieces(db); }
    hide Apply, Delay, FollowedUp, EndsAs, EndOfAttempt, Inv;
    WorkerEnds(db, t, outcome);
  }

  lemma EndsDelayed(r: Task, ended: Db, t: nat, outcome: Outcome, now: int)
    requires t < |ended.tasks| && EndsAs(r, ended.tasks[t], outcome, now) && Delays(r, outcome)
    ensures Held(ended, t, r.attemptCount, now + Delay(r.attemptCount, outcome.retryAfter))
  {
  }

  // ---------------------------------------------------------------- pausing

  /** Pausing sets the flag, resuming clears it, and neither touches a task. */
  lemma PauseTakes(db: Db, j: nat)
    requires Inv(db) && PauseVerdict(db, j).Ok?
    ensures var post := Apply(db, PauseJob(j));
      && j < |post.jobs| && post.jobs[j].pauseRequested && !post.jobs[j].cancelRequested
      && post == db.(jobs := post.jobs)
  {
    assert Cached(db.jobs[j], Rows(db.tasks, j)) by { hide Rows, Core, WithinCapacity; }
    SettleKeeps();
    SettlePauses();
    hide Inv, Settle, Rows, ProgressOf, Committing;
  }

  lemma ResumeTakes(db: Db, j: nat)
    requires ResumeVerdict(db, j).Ok?
    ensures var post := Apply(db, ResumeJob(j));
      && j < |post.jobs| && !post.jobs[j].pauseRequested && post.jobs[j].cancelRequested == db.jobs[j].cancelRequested
      && post == db.(jobs := post.jobs)
  {
    SettleKeeps();
    hide Settle;
  }

  /** No task of the job can be claimed: its flags keep it closed, or all of them have ended. */
  predicate Closed(db: Db, j: nat) { j < |db.jobs| && (!OpenJob(db, j) || Retention.Finished(db, j)) }

  /** A recomputation drops a pause only when the job has ended. */
  lemma SettlePauses()
    ensures forall mid: Db, touched, j {:trigger Settle(mid, touched).jobs[j]} :: 0 <= j < |mid.jobs| ==>
              (mid.jobs[j].pauseRequested ==>
                 Settle(mid, touched).jobs[j].pauseRequested || TerminalJob(Settle(mid, touched).jobs[j].status))
  {
    hide Rows, StatusOf, ProgressOf;
  }

  lemma PauseFlagStep(db: Db, action: Action, j: nat)
    requires j < |db.jobs| && db.jobs[j].pauseRequested && action != ResumeJob(j) && action != RetryJob(j)
    ensures j < |Apply(db, action).jobs|
    ensures var job := Apply(db, action).jobs[j];
      job.pauseRequested || job.cancelRequested || TerminalJob(job.status)
  {
    SettleKeeps();
    SettlePauses();
    hide Settle, Rows, ClaimedTask, InsertChildren, Claimable, Precedes, Close, Taken, Roots, KeyHolder,
         Committing, Workers, Score, Scheduled, Blank, SetAttempt, InterruptRunning, FinishedTask, StaleTask,
         ReleasedTask, CanceledRow, RetriedRow, RecoveredRow, StaleRow, RetriedTask, CanceledTask, Effective;
  }

  lemma ClosedStep(db: Db, action: Action, j: nat)
    requires Inv(db) && Closed(db, j) && action != ResumeJob(j) && !RetriesJob(db, action, j)
    ensures Closed(Apply(db, action), j)
  {
    hide Inv, Apply;
    StepInv(db, action);
    FlagStep(db, action, j);
    if Retention.Finished(db, j) {
      Retention.FinishedStep(db, action, j);
    } else if !db.jobs[j].cancelRequested {
      hide NextCancel;
      PauseFlagStep(db, action, j);
      if TerminalJob(Apply(db, action).jobs[j].status) { EndedJob(Apply(db, action), j); }
    }
  }

  lemma ClosedRow(db: Db, action: Action, j: nat, t: nat)
    requires Closed(db, j) && t < |db.tasks| && db.tasks[t].jobId == j
    ensures t < |Apply(db, action).tasks| && Apply(db, action).tasks[t].jobId == j
    ensures Apply(db, action).tasks[t].attemptCount == db.tasks[t].attemptCount
  {
    hide Apply;
    RowStep(db, action);
    SameJob(db, action, t);
    NotClaimed(db, action, t);
  }

  lemma NotClaimed(db: Db, action: Action, t: nat)
    requires t < |db.tasks| && (!OpenJob(db, db.tasks[t].jobId) || TerminalTask(db.tasks[t].status))
    ensures NextRow(db, action, t).attemptCount == db.tasks[t].attemptCount
  {
    hide Precedes, Workers;
  }

  lemma EndedJob(db: Db, j: nat)
    requires Inv(db) && j < |db.jobs| && TerminalJob(db.jobs[j].status)
    ensures Retention.Finished(db, j)
  {
    assert Cache(db);
    hide Inv;
    Retention.FinishedRows(db, j);
  }

  /** Over any run, a job that is paused or cancelled starts no attempt until it is resumed or retried. */
  lemma {:induction false} ClosedStaysIdle(db: Db, actions: seq<Action>, j: nat)
    requires Inv(db) && Closed(db, j)
    requires forall i | 0 <= i < |actions| ::
               actions[i] != ResumeJob(j) && !RetriesJob(Run(db, actions[..i]), actions[i], j)
    ensures var later := Run(db, actions);
      && Closed(later, j)
      && forall t | 0 <= t < |db.tasks| && db.tasks[t].jobId == j ::
           && t < |later.tasks| && later.tasks[t].jobId == j
           && later.tasks[t].attemptCount == db.tasks[t].attemptCount
  {
    hide Inv, Apply, Closed, RetriesJob;
    if actions == [] {
    } else {
      var front, last := actions[..|actions| - 1], actions[|actions| - 1];
      forall i | 0 <= i < |front| ensures front[i] != ResumeJob(j) && !RetriesJob(Run(db, front[..i]), front[i], j) {
        assert front[..i] == actions[..i];
      }
      ClosedStaysIdle(db, front, j);
      RunInv(db, front);
      assert actions[..|front|] == front;
      ClosedStep(Run(db, front), last, j);
      forall t | 0 <= t < |db.tasks| && db.tasks[t].jobId == j
        ensures t < |Run(db, actions).tasks| && Run(db, actions).tasks[t].jobId == j
        ensures Run(db, actions).tasks[t].attemptCount == db.tasks[t].attemptCount
      {
        ClosedRow(Run(db, front), last, j, t);
      }
    }
  }

  // ---------------------------------------------------------------- a paused queue

  lemma QueueStep(db: Db, action: Action, queue: string)
    ensures action != SetQueuePaused(queue, false) && queue in db.pausedQueues ==>
              queue in Apply(db, action).pausedQueues
    ensures action != SetQueuePaused(queue, true) && queue !in db.pausedQueues ==>
              queue !in Apply(db, action).pausedQueues
  {
    SettleKeeps();
    hide Settle, InsertChildren, Precedes, Workers, Committing;
  }

  /** Over any run, a queue that has been paused stays paused until it is unpaused, and no claim on it does
      anything. */
  lemma {:induction false} QueuePauseHolds(db: Db, actions: seq<Action>, queue: string)
    requires SetQueuePaused(queue, false) !in actions
    ensures var later := Run(Apply(db, SetQueuePaused(queue, true)), actions);
      queue in later.pausedQueues && Apply(later, Claim(queue)) == later
  {
    var paused := Apply(db, SetQueuePaused(queue, true));
    assert queue in paused.pausedQueues;
    hide Apply;
    if actions == [] {
    } else {
      var front, last := actions[..|actions| - 1], actions[|actions| - 1];
      assert last in actions;
      QueuePauseHolds(db, front, queue);
      QueueStep(Run(paused, front), last, queue);
    }
    ClaimIdle(Run(paused, actions), queue);
  }

  // ---------------------------------------------------------------- keys within a job

  /** No two tasks of a job have the same key. */
  ghost predicate KeysApart(tasks: seq<Task>) {
    forall t, u | 0 <= t < u < |tasks| && tasks[t].jobId == tasks[u].jobId ::
      tasks[t].header.dedupeKey != tasks[u].header.dedupeKey
  }

  /** Every run keeps them apart. */
  lemma {:induction false} KeysStayApart(db: Db, actions: seq<Action>)
    requires Inv(db) && KeysApart(db.tasks)
    ensures KeysApart(Run(db, actions).tasks)
  {
    hide Apply, Inv, KeysApart;
    if actions == [] {
    } else {
      var front, last := actions[..|actions| - 1], actions[|actions| - 1];
      KeysStayApart(db, front);
      RunInv(db, front);
      KeysStep(Run(db, front), last);
    }
  }

  lemma KeysStep(db: Db, action: Action)
    requires Inv(db) && KeysApart(db.tasks)
    ensures KeysApart(Apply(db, action).tasks)
  {
    hide Apply, Inv;
    RowStep(db, action);
    forall t | 0 <= t < |db.tasks|
      ensures Apply(db, action).tasks[t].jobId == db.tasks[t].jobId
      ensures Apply(db, action).tasks[t].header == db.tasks[t].header
    {
      IdentityStep(db, action, t);
    }
    hide NextRow;
    if |Apply(db, action).tasks| > |db.tasks| {
      assert CreatedRow(db, action, Apply(db, action).tasks[|db.tasks|]);
      match action
      case Enqueue(spec) => RequestKeys(db, spec);
      case Finish(t, outcome) => FollowUpKeys(db, t, outcome);
      case _ =>
    }
  }

  lemma RequestKeys(db: Db, spec: JobSpec)
    requires Inv(db) && KeysApart(db.tasks)
    ensures KeysApart(Apply(db, Enqueue(spec)).tasks)
  {
    Pieces(db);
    RequestAccepted(db, spec);
    if EnqueueVerdict(db, spec).Created? {
      RequestCreated(db, spec);
      hide Inv, Apply, EnqueueVerdict, Grant;
      var post := Apply(db, Enqueue(spec));
      forall t | |db.tasks| <= t < |post.tasks|
        ensures Fulfils(post.tasks[t], spec.tasks[t - |db.tasks|], |db.jobs|, None, db.now)
      {
        var i := t - |db.tasks|;
        assert Fulfils(post.tasks[|db.tasks| + i], spec.tasks[i], |db.jobs|, None, db.now);
      }
      assert forall t | 0 <= t < |db.tasks| :: post.tasks[..|db.tasks|][t] == post.tasks[t];
    }
  }

  lemma FollowUpKeys(db: Db, t: nat, outcome: Outcome)
    requires Inv(db) && KeysApart(db.tasks) && Completes(db, t)
    ensures KeysApart(Apply(db, Finish(t, outcome)).tasks)
  {
    assert db.active[t] < |db.attempts| by { Pieces(db); }
    hide Inv, Apply, EndsAs, EndOfAttempt, FollowedUp, KeysApart;
    WorkerEnds(db, t, outcome);
    var (r, after) := (db.tasks[t], Apply(db, Finish(t, outcome)).tasks);
    EndsInPlace(r, after[t], outcome, db.now);
    StillApart(db.tasks, t, after[t]);
    FollowedApart(db.tasks[t := after[t]], after,
                  if outcome.Success? && !Overruled(r, outcome) then outcome.children else [], r.jobId, t, db.now);
  }

  lemma EndsInPlace(r: Task, s: Task, outcome: Outcome, now: int)
    requires EndsAs(r, s, outcome, now)
    ensures s.header == r.header && s.jobId == r.jobId
  {
  }

  lemma StillApart(tasks: seq<Task>, t: nat, r: Task)
    requires t < |tasks| && KeysApart(tasks) && r.header == tasks[t].header && r.jobId == tasks[t].jobId
    ensures KeysApart(tasks[t := r])
  {
  }

  lemma FollowedApart(before: seq<Task>, after: seq<Task>, specs: seq<TaskSpec>, j: nat, parent: nat, now: int)
    requires FollowedUp(before, after, specs, j, parent, now) && KeysApart(before)
    ensures KeysApart(after)
  {
    hide FirstWith, Grant;
    assert forall t | 0 <= t < |before| :: after[..|before|][t] == after[t];
  }

  // ---------------------------------------------------------------- cancellation concludes

  /** The job is cancelled and nothing of it waits any more. */
  ghost predicate Ending(db: Db, j: nat) {
    j < |db.jobs| && db.jobs[j].cancelRequested
    && forall t | 0 <= t < |db.tasks| && db.tasks[t].jobId == j :: !Waiting(db.tasks[t].status)
  }

  /** If the action ends a worker of the job, it ends with a result that does not ask to run again. */
  predicate Concluding(db: Db, action: Action, j: nat) {
    action.Finish? && action.t < |db.tasks| && db.tasks[action.t].jobId == j ==>
      action.outcome.Success? || action.outcome.err.Paused? || action.outcome.err.Canceled?
      || action.outcome.err.Permanent?
  }

  lemma EndingStep(db: Db, action: Action, j: nat)
    requires Inv(db) && Ending(db, j) && !RetriesJob(db, action, j) && Concluding(db, action, j)
    ensures Ending(Apply(db, action), j)
  {
    CancelledStep(db, action, j);
    RowStep(db, action);
    hide Apply, Cache, Ledger, WithinCapacity, Live, RowsOk;
    Pieces(db);
    var post := Apply(db, action);
    forall t | 0 <= t < |post.tasks| && post.tasks[t].jobId == j ensures !Waiting(post.tasks[t].status) {
      EndingRow(db, action, t);
    }
  }

  lemma EndingRow(db: Db, action: Action, t: nat)
    requires Fence(db) && Quiet(db) && t < |db.tasks| && db.tasks[t].jobId < |db.jobs|
    requires db.jobs[db.tasks[t].jobId].cancelRequested && !Waiting(db.tasks[t].status)
    requires !RetriesJob(db, action, db.tasks[t].jobId) && Concluding(db, action, db.tasks[t].jobId)
    ensures !Waiting(NextRow(db, action, t).status)
  {
    hide Unsucceeded, Precedes, Workers, Committing;
  }

  /** Over any run after an accepted cancellation in which nobody retries the job and its workers end with
      success, a pause, a cancellation or a permanent failure, nothing of the job waits, and the job has ended
      as soon as none of its tasks is in flight: at once, if none was. */
  lemma {:induction false} CancellationConcludes(db: Db, actions: seq<Action>, j: nat)
    requires Inv(db) && CancelJobVerdict(db, j).Ok?
    requires forall i | 0 <= i < |actions| ::
               var now := Run(Apply(db, CancelJob(j)), actions[..i]);
               !RetriesJob(now, actions[i], j) && Concluding(now, actions[i], j)
    ensures var later := Run(Apply(db, CancelJob(j)), actions);
      && Inv(later) && Ending(later, j)
      && (TerminalJob(later.jobs[j].status) <==> !HasTask(later, j, RUNNING))
  {
    hide Inv, Apply, RetriesJob, Concluding, Ending, HasTask;
    var cancelled := Apply(db, CancelJob(j));
    if actions == [] {
      StepInv(db, CancelJob(j));
      EndingStarts(db, j);
    } else {
      var front, last := actions[..|actions| - 1], actions[|actions| - 1];
      forall i | 0 <= i < |front|
        ensures !RetriesJob(Run(cancelled, front[..i]), front[i], j)
        ensures Concluding(Run(cancelled, front[..i]), front[i], j)
      {
        assert front[..i] == actions[..i];
      }
      CancellationConcludes(db, front, j);
      assert actions[..|front|] == front;
      StepInv(Run(cancelled, front), last);
      EndingStep(Run(cancelled, front), last, j);
    }
    EndsWhenIdle(Run(cancelled, actions), j);
  }

  lemma EndingStarts(db: Db, j: nat)
    requires CancelJobVerdict(db, j).Ok?
    ensures Ending(Apply(db, CancelJob(j)), j)
  {
    FlagStep(db, CancelJob(j), j);
    CancelReaches(db, j);
    hide Apply;
  }

  lemma EndsWhenIdle(db: Db, j: nat)
    requires Inv(db) && Ending(db, j)
    ensures j < |db.jobs| && (TerminalJob(db.jobs[j].status) <==> !HasTask(db, j, RUNNING))
  {
    RowsTell(db, j);
    assert Cached(db.jobs[j], Rows(db.tasks, j));
    hide Inv, Rows, ProgressOf, AnyInFlight, AnyRetryWait, AnyOpen, AnyFailed, AnyCanceled;
  }
}
