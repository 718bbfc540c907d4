/** What the background runtime promises its operators, over every reachable state and every run. */
module RuntimeGuarantees {
  import opened BackgroundTypes
  import opened JobReduction
  import opened RuntimeSteps
  import opened RuntimeInvariants
  import opened TableLemmas
  import opened RowView
  import opened Runs

  // ---------------------------------------------------------------- the invariant, piecewise

  lemma Pieces(db: Db)
    requires Inv(db)
    ensures Refs(db) && RowsOk(db) && Fence(db) && Quiet(db) && Ledger(db) && Live(db) && Cache(db)
    ensures WithinCapacity(db)
  {
  }

  // ---------------------------------------------------------------- stored status and progress

  /** Every stored status is the reduction of the job's tasks and flags; every stored progress is a
      percentage in hundredths that is full exactly when the job succeeded. */
  lemma StoredJobIsReduction(db: Db, j: nat)
    requires Reachable(db) && j < |db.jobs|
    ensures var job, rows := db.jobs[j], Rows(db.tasks, j);
      && job.status == StatusOf(job.cancelRequested, job.pauseRequested, rows)
      && job.progress == ProgressOf(job.status, rows)
      && 0 <= job.progress <= 10000
      && (job.progress == 10000 <==> SuccessStatus(job.status))
  {
    hide Reachable, Apply, Run;
    ReachableInv(db);
    Pieces(db);
    hide Inv, WithinCapacity, Ledger, Live, Fence, Rows;
    var job, rows := db.jobs[j], Rows(db.tasks, j);
    assert Cached(job, rows);
    RowsMembers(db.tasks, j);
    if !SuccessStatus(job.status) {
      UnsucceededShare(db, j);
    }
    ProgressExact(job.status, rows);
  }

  lemma UnsucceededShare(db: Db, j: nat)
    requires j < |db.jobs| && RowsOk(db) && Quiet(db) && Cached(db.jobs[j], Rows(db.tasks, j))
    requires !SuccessStatus(db.jobs[j].status)
    ensures exists r :: r in Rows(db.tasks, j) && ShareOf(r) < 10000
  {
    hide Rows, ProgressOf;
    RowsMembers(db.tasks, j);
    assert exists r :: r in Rows(db.tasks, j) && !r.status.TaskSucceeded?;
    var r :| r in Rows(db.tasks, j) && !r.status.TaskSucceeded?;
    var t :| 0 <= t < |db.tasks| && db.tasks[t] == r;
    assert RowOk(db.tasks[t]);
  }

  // ---------------------------------------------------------------- attempts and workers

  /** The attempt table of every task, and who holds its running attempt. */
  lemma AttemptLedger(db: Db, t: nat)
    requires Reachable(db) && t < |db.tasks|
    ensures |AttemptsOf(db.attempts, t)| == db.tasks[t].attemptCount
    ensures forall i | 0 <= i < |AttemptsOf(db.attempts, t)| :: AttemptsOf(db.attempts, t)[i].number == i + 1
    ensures InFlight(db.tasks[t].status) <==>
              exists a :: 0 <= a < |db.attempts| && db.attempts[a].taskId == t && db.attempts[a].status.AttemptRunning?
    ensures forall a, b | 0 <= a < |db.attempts| && 0 <= b < |db.attempts|
                && db.attempts[a].taskId == t == db.attempts[b].taskId
                && db.attempts[a].status.AttemptRunning? && db.attempts[b].status.AttemptRunning? :: a == b
    ensures forall a | 0 <= a < |db.attempts| && db.attempts[a].taskId == t && db.attempts[a].status.AttemptRunning? ::
              db.attempts[a].number == db.tasks[t].attemptCount
    ensures t in db.active ==>
      && db.active[t] < |db.attempts|
      && db.attempts[db.active[t]] == Attempt(t, db.tasks[t].attemptCount, AttemptRunning)
  {
    hide Reachable, Apply, Run;
    ReachableInv(db);
    Pieces(db);
    hide Inv, Cache, WithinCapacity, Fence, Quiet;
    assert LedgerOf(db.attempts, t, db.tasks[t]) && RowOk(db.tasks[t]);
    hide Ledger;
    var rows := AttemptsOf(db.attempts, t);
    AttemptsMembers(db.attempts, t);
    forall a, b | 0 <= a < |db.attempts| && 0 <= b < |db.attempts|
        && db.attempts[a].taskId == t == db.attempts[b].taskId
        && db.attempts[a].status.AttemptRunning? && db.attempts[b].status.AttemptRunning?
      ensures a == b
    {
      assert db.attempts[a] in rows && db.attempts[b] in rows;
      if a < b { NumbersIncrease(db.attempts, t, a, b); }
      if b < a { NumbersIncrease(db.attempts, t, b, a); }
    }
    forall a | 0 <= a < |db.attempts| && db.attempts[a].taskId == t && db.attempts[a].status.AttemptRunning?
      ensures db.attempts[a].number == db.tasks[t].attemptCount
    {
      assert db.attempts[a] in rows;
    }
    if InFlight(db.tasks[t].status) {
      assert rows[|rows| - 1] in rows;
    } else {
      forall a | 0 <= a < |db.attempts| && db.attempts[a].taskId == t ensures !db.attempts[a].status.AttemptRunning? {
        assert db.attempts[a] in rows;
      }
    }
  }

  /** The workers a queue may have: its configured limit, if that is positive, or else two for storage work and
      one for any other. */
  function Slots(limits: map<string, int>, queue: string): int {
    if queue in limits && limits[queue] >= 1 then limits[queue] else if queue == "storage" then 2 else 1
  }

  /** Live workers of a queue never exceed it. */
  lemma CapacityRespected(db: Db, queue: string)
    requires Reachable(db)
    ensures |Workers(db, queue)| <= Slots(db.limits, queue)
  {
    hide Reachable, Apply, Run;
    ReachableInv(db);
  }

  // ---------------------------------------------------------------- finality

  predicate RetriesTask(db: Db, action: Action, t: nat)
    requires t < |db.tasks|
  {
    action == RetryTask(t) || action == RetryJob(db.tasks[t].jobId)
  }

  lemma SucceededStep(db: Db, action: Action, t: nat)
    requires Inv(db) && t < |db.tasks| && db.tasks[t].status.TaskSucceeded?
    ensures |db.tasks| <= |Apply(db, action).tasks|
    ensures Apply(db, action).tasks[t] == db.tasks[t]
  {
    hide Cache, Ledger, WithinCapacity, Apply;
    RowStep(db, action);
  }

  /** A terminal task is not rewritten, unless an operator retries it. */
  lemma TerminalStep(db: Db, action: Action, t: nat)
    requires Inv(db) && t < |db.tasks| && TerminalTask(db.tasks[t].status)
    requires !RetriesTask(db, action, t)
    ensures |db.tasks| <= |Apply(db, action).tasks|
    ensures Apply(db, action).tasks[t] == db.tasks[t]
  {
    hide Cache, Ledger, WithinCapacity, Apply;
    RowStep(db, action);
  }

  /** Over any run: a succeeded task row never changes again. */
  lemma {:induction false} SucceededForever(db: Db, actions: seq<Action>, t: nat)
    requires Inv(db) && t < |db.tasks| && db.tasks[t].status.TaskSucceeded?
    ensures t < |Run(db, actions).tasks| && Run(db, actions).tasks[t] == db.tasks[t]
  {
    hide Inv, Apply;
    if actions == [] {
    } else {
      var front := actions[..|actions| - 1];
      SucceededForever(db, front, t);
      RunInv(db, front);
      SucceededStep(Run(db, front), actions[|actions| - 1], t);
    }
  }

  /** Over any run without a manual retry of it: a terminal task keeps its row, so it never runs again. */
  lemma {:induction false} TerminalForever(db: Db, actions: seq<Action>, t: nat)
    requires Inv(db) && t < |db.tasks| && TerminalTask(db.tasks[t].status)
    requires forall i | 0 <= i < |actions| :: !RetriesTask(db, actions[i], t)
    ensures t < |Run(db, actions).tasks| && Run(db, actions).tasks[t] == db.tasks[t]
  {
    hide Inv, Apply;
    if actions == [] {
    } else {
      var front := actions[..|actions| - 1];
      TerminalForever(db, front, t);
      RunInv(db, front);
      TerminalStep(Run(db, front), actions[|actions| - 1], t);
    }
  }

  /** A job all of whose tasks succeeded. */
  ghost predicate AllSucceeded(db: Db, j: nat) {
    && j < |db.jobs|
    && forall t | 0 <= t < |db.tasks| && db.tasks[t].jobId == j :: db.tasks[t].status.TaskSucceeded?
  }

  lemma SucceededMeansAll(db: Db, j: nat)
    requires Cache(db) && j < |db.jobs| && db.jobs[j].status.JobSucceeded?
    ensures AllSucceeded(db, j)
  {
    hide Rows, ProgressOf;
    RowsMembers(db.tasks, j);
    var rows := Rows(db.tasks, j);
    assert Cached(db.jobs[j], rows);
    forall t | 0 <= t < |db.tasks| && db.tasks[t].jobId == j ensures db.tasks[t].status.TaskSucceeded? {
      var r := db.tasks[t];
      assert r in rows;
      assert !AnyFailed(rows, r.header.required) && !AnyCanceled(rows, r.header.required);
    }
  }

  lemma AllSucceededRows(db: Db, action: Action, j: nat)
    requires Inv(db) && AllSucceeded(db, j)
    ensures AllSucceeded(Apply(db, action), j)
    ensures Rows(Apply(db, action).tasks, j) == Rows(db.tasks, j)
  {
    hide Cache, Ledger, WithinCapacity, Apply, Rows, Fence;
    var post := Apply(db, action);
    RowStep(db, action);
    FlagStep(db, action, j);
    forall t | 0 <= t < |db.tasks|
      ensures post.tasks[t].jobId == db.tasks[t].jobId && (db.tasks[t].jobId == j ==> post.tasks[t] == db.tasks[t])
    {
      IdentityStep(db, action, t);
      if db.tasks[t].jobId == j { SucceededStep(db, action, t); }
    }
    forall t | |db.tasks| <= t < |post.tasks| ensures post.tasks[t].jobId != j {
      assert CreatedRow(db, action, post.tasks[t]);
    }
    hide NextRow;
    ElsewhereRows(db.tasks, post.tasks,
                  set t | 0 <= t < |post.tasks| && post.tasks[t].jobId != j :: post.tasks[t].jobId, j);
  }

  lemma SucceededJobStep(db: Db, action: Action, j: nat)
    requires Inv(db) && j < |db.jobs| && db.jobs[j].status.JobSucceeded?
    ensures j < |Apply(db, action).jobs|
    ensures Apply(db, action).jobs[j].status.JobSucceeded?
    ensures Apply(db, action).jobs[j].progress == 10000
    ensures Rows(Apply(db, action).tasks, j) == Rows(db.tasks, j)
  {
    hide Apply, Rows, ProgressOf;
    Pieces(db);
    SucceededMeansAll(db, j);
    AllSucceededRows(db, action, j);
    StepInv(db, action);
    Pieces(Apply(db, action));
    FlagStep(db, action, j);
    hide Inv, WithinCapacity, Ledger, Live, Fence, Quiet, RowsOk;
    assert Cached(db.jobs[j], Rows(db.tasks, j));
    SucceededFlag(db, action, j);
    SucceededStays(db.jobs[j], Apply(db, action).jobs[j], Rows(db.tasks, j));
  }

  lemma SucceededStays(job: Job, later: Job, rows: seq<Task>)
    requires Cached(job, rows) && Cached(later, rows)
    requires job.status.JobSucceeded? && !later.cancelRequested
    ensures later.status.JobSucceeded? && later.progress == 10000
  {
  }

  /** A succeeded job was not cancelled and no step can cancel it. */
  lemma SucceededFlag(db: Db, action: Action, j: nat)
    requires j < |db.jobs| && db.jobs[j].status.JobSucceeded? && Cached(db.jobs[j], Rows(db.tasks, j))
    ensures !NextCancel(db, action, j)
  {
    hide Rows, ProgressOf;
  }

  /** Over any run: a succeeded job stays succeeded, with the very tasks it succeeded with. */
  lemma {:induction false} SucceededJobForever(db: Db, actions: seq<Action>, j: nat)
    requires Inv(db) && j < |db.jobs| && db.jobs[j].status.JobSucceeded?
    ensures var post := Run(db, actions);
      && j < |post.jobs| && post.jobs[j].status.JobSucceeded?
      && Rows(post.tasks, j) == Rows(db.tasks, j)
  {
    hide Inv, Apply, Rows;
    if actions == [] {
    } else {
      var front := actions[..|actions| - 1];
      SucceededJobForever(db, front, j);
      RunInv(db, front);
      SucceededJobStep(Run(db, front), actions[|actions| - 1], j);
    }
  }

  // ---------------------------------------------------------------- the commit fence

  /** An attempt past its commit point, still recorded as running. */
  predicate PastCommit(db: Db, t: nat) {
    t < |db.tasks| && InFlight(db.tasks[t].status) && db.tasks[t].commitStarted
  }

  /** Past the commit point nobody has cancelled the task, and neither its job nor itself can be
      cancelled, nor the job paused. */
  lemma CommitFence(db: Db, t: nat)
    requires Reachable(db) && PastCommit(db, t)
    ensures db.tasks[t].status.TaskRunning? && OpenJob(db, db.tasks[t].jobId)
    ensures !CancelJobVerdict(db, db.tasks[t].jobId).Ok?
    ensures !PauseVerdict(db, db.tasks[t].jobId).Ok?
    ensures CancelTaskVerdict(db, t) == CommitStarted
  {
    hide Reachable, Apply, Run;
    ReachableInv(db);
    Pieces(db);
    assert db.tasks[t] in db.tasks;
  }

  /** A handler that succeeds after its commit point is recorded as succeeded, and so is its attempt. */
  lemma CommittedSuccessRecorded(db: Db, t: nat, children: seq<TaskSpec>)
    requires Reachable(db) && PastCommit(db, t) && t in db.active
    ensures var post := Apply(db, Finish(t, Success(children)));
      && t < |post.tasks| && post.tasks[t].status.TaskSucceeded? && post.tasks[t].progress == 10000
      && db.active[t] < |post.attempts| && post.attempts[db.active[t]].status.AttemptSucceeded?
  {
    hide Reachable, Run, Reduced, Rows;
    CommitFence(db, t);
    hide Apply;
    ReachableInv(db);
    Pieces(db);
    RowStep(db, Finish(t, Success(children)));
    AttemptRow(db, Finish(t, Success(children)), db.active[t]);
  }

  /** What a step does to one attempt row. */
  function NextAttempt(db: Db, action: Action, a: nat): Attempt
    requires a < |db.attempts|
  {
    var r := db.attempts[a];
    match action
    case Finish(t, outcome) =>
      if Completes(db, t) && db.active[t] == a then r.(status := FinishedAttempt(Effective(db.tasks[t], outcome)))
      else r
    case RecoverStale(before) =>
      if r.status.AttemptRunning? && StaleTask(db, r.taskId, before)
      then r.(status := StaleAttempt(db.tasks[r.taskId])) else r
    case Recover => if db.active == map[] && r.status.AttemptRunning? then r.(status := AttemptInterrupted) else r
    case _ => r
  }

  lemma AttemptRow(db: Db, action: Action, a: nat)
    requires a < |db.attempts|
    ensures a < |Apply(db, action).attempts| && Apply(db, action).attempts[a] == NextAttempt(db, action, a)
  {
    SettleKeeps();
    hide Settle, Rows, ClaimedTask, InsertChildren, Claimable, Precedes, Taken, Roots, KeyHolder,
         Committing, Workers, Score, Scheduled, Blank, FinishedTask,
         ReleasedTask, CanceledRow, RetriedRow, RecoveredRow, StaleRow, RetriedTask, CanceledTask, Effective,
         FinishedAttempt;
  }

  /** A worker lost after its commit point leaves a failed task, after a restart and after the
      heartbeat expires alike. */
  lemma LostCommitFails(db: Db, t: nat, before: int)
    requires PastCommit(db, t)
    ensures var post := Apply(Apply(db, Crash), Recover);
      t < |post.tasks| && post.tasks[t].status.TaskFailed?
    ensures StaleTask(db, t, before) ==>
      var post := Apply(db, RecoverStale(before));
      t < |post.tasks| && post.tasks[t].status.TaskFailed?
  {
    hide Apply;
    RowStep(db, Crash);
    RowStep(Apply(db, Crash), Recover);
    RowStep(db, RecoverStale(before));
    CrashEmpties(db);
  }

  lemma CrashEmpties(db: Db)
    ensures Apply(db, Crash).active == map[]
  {
  }

  predicate FinishesTask(action: Action, t: nat) { action.Finish? && action.t == t }

  lemma CommitStep(db: Db, action: Action, t: nat)
    requires Inv(db) && PastCommit(db, t) && !FinishesTask(action, t)
    ensures var post := Apply(db, action);
      && t < |post.tasks| && post.tasks[t].attemptCount == db.tasks[t].attemptCount
      && post.tasks[t].jobId == db.tasks[t].jobId
      && (PastCommit(post, t) || post.tasks[t].status.TaskFailed?)
  {
    hide Cache, Ledger, WithinCapacity, Apply;
    Pieces(db);
    RowStep(db, action);
    var r := db.tasks[t];
    assert r in db.tasks && r.status.TaskRunning?;
    assert Committing(db.tasks, r.jobId);
    hide Quiet, Live, RowsOk;
  }

  /** Over any run that does not contain the handler's own return or a manual retry: a committed
      attempt stays committed until a restart or an expired heartbeat fails it, and the task never
      starts another attempt. */
  lemma {:induction false} CommitRun(db: Db, actions: seq<Action>, t: nat)
    requires Inv(db) && PastCommit(db, t)
    requires forall i | 0 <= i < |actions| :: !FinishesTask(actions[i], t) && !RetriesTask(db, actions[i], t)
    ensures var post := Run(db, actions);
      && t < |post.tasks| && post.tasks[t].attemptCount == db.tasks[t].attemptCount
      && post.tasks[t].jobId == db.tasks[t].jobId
      && (PastCommit(post, t) || post.tasks[t].status.TaskFailed?)
  {
    hide Inv, Apply;
    if actions == [] {
    } else {
      var front, last := actions[..|actions| - 1], actions[|actions| - 1];
      CommitRun(db, front, t);
      RunInv(db, front);
      var mid := Run(db, front);
      if PastCommit(mid, t) { CommitStep(mid, last, t); } else { TerminalStep(mid, last, t); }
    }
  }

  /** The one way irreversible work is repeated without a manual retry: the handler itself reports
      an interruption, a pause, a deferral, or a transient failure with budget left. */
  lemma CommittedFinish(db: Db, t: nat, outcome: Outcome)
    requires Live(db) && Fence(db) && PastCommit(db, t) && t in db.active
    ensures t < |Apply(db, Finish(t, outcome)).tasks|
    ensures Waiting(Apply(db, Finish(t, outcome)).tasks[t].status) <==>
              && outcome.Failure?
              && (outcome.err.Interrupted? || outcome.err.Paused? || outcome.err.Deferred?
                  || (outcome.err.Transient? && db.tasks[t].attemptCount < db.tasks[t].maxAttempts))
  {
    hide Apply;
    RowStep(db, Finish(t, outcome));
  }

  // ---------------------------------------------------------------- cancellation

  predicate RetriesJob(db: Db, action: Action, j: nat) {
    action == RetryJob(j) || (action.RetryTask? && action.t < |db.tasks| && db.tasks[action.t].jobId == j)
  }

  /** Within a cancelled job one step starts nothing, creates nothing and lets nothing succeed. */
  lemma CancelledStep(db: Db, action: Action, j: nat)
    requires Inv(db) && j < |db.jobs| && db.jobs[j].cancelRequested && !RetriesJob(db, action, j)
    ensures var post := Apply(db, action);
      && j < |post.jobs| && post.jobs[j].cancelRequested
      && |db.tasks| <= |post.tasks|
      && (forall t | 0 <= t < |db.tasks| :: post.tasks[t].jobId == db.tasks[t].jobId)
      && (forall t | 0 <= t < |db.tasks| && db.tasks[t].jobId == j ::
            && post.tasks[t].attemptCount == db.tasks[t].attemptCount
            && !post.tasks[t].status.TaskRunning?
            && (post.tasks[t].status.TaskSucceeded? ==> db.tasks[t].status.TaskSucceeded?))
      && (forall t | |db.tasks| <= t < |post.tasks| :: post.tasks[t].jobId != j)
  {
    hide Cache, Ledger, WithinCapacity, Apply, Live, RowsOk;
    var post := Apply(db, action);
    Pieces(db);
    FlagStep(db, action, j);
    RowStep(db, action);
    hide Inv;
    forall t | 0 <= t < |db.tasks|
      ensures post.tasks[t].jobId == db.tasks[t].jobId
      ensures db.tasks[t].jobId == j ==>
        && post.tasks[t].attemptCount == db.tasks[t].attemptCount
        && !post.tasks[t].status.TaskRunning?
        && (post.tasks[t].status.TaskSucceeded? ==> db.tasks[t].status.TaskSucceeded?)
    {
      IdentityStep(db, action, t);
      if db.tasks[t].jobId == j { CancelledRow(db, action, t); }
    }
    forall t | |db.tasks| <= t < |post.tasks| ensures post.tasks[t].jobId != j {
      assert CreatedRow(db, action, post.tasks[t]);
    }
  }

  lemma CancelledRow(db: Db, action: Action, t: nat)
    requires Fence(db) && Quiet(db) && t < |db.tasks| && db.tasks[t].jobId < |db.jobs|
    requires db.jobs[db.tasks[t].jobId].cancelRequested && !RetriesJob(db, action, db.tasks[t].jobId)
    ensures var s := NextRow(db, action, t);
      && s.attemptCount == db.tasks[t].attemptCount
      && !s.status.TaskRunning?
      && (s.status.TaskSucceeded? ==> db.tasks[t].status.TaskSucceeded?)
  {
    hide Unsucceeded, Precedes, Workers, Committing;
  }

  /** Over any run in which nobody retries the job: a cancelled job stays cancelled, never has a
      plainly running task, starts no attempt, gains no task, and no further task of it succeeds. */
  lemma {:induction false} CancelledForever(db: Db, actions: seq<Action>, j: nat)
    requires Inv(db) && j < |db.jobs| && db.jobs[j].cancelRequested
    requires forall i | 0 <= i < |actions| :: !RetriesJob(Run(db, actions[..i]), actions[i], j)
    ensures var post := Run(db, actions);
      && j < |post.jobs| && post.jobs[j].cancelRequested
      && |db.tasks| <= |post.tasks|
      && (forall t | 0 <= t < |db.tasks| && db.tasks[t].jobId == j ::
            && post.tasks[t].jobId == j
            && post.tasks[t].attemptCount == db.tasks[t].attemptCount
            && !post.tasks[t].status.TaskRunning?
            && (post.tasks[t].status.TaskSucceeded? ==> db.tasks[t].status.TaskSucceeded?))
      && (forall t | |db.tasks| <= t < |post.tasks| :: post.tasks[t].jobId != j)
  {
    hide Apply;
    if actions == [] {
      hide Cache, Ledger, WithinCapacity, Live, RowsOk, Fence;
    } else {
      hide Inv;
      var front, last := actions[..|actions| - 1], actions[|actions| - 1];
      forall i | 0 <= i < |front| ensures !RetriesJob(Run(db, front[..i]), front[i], j) {
        assert front[..i] == actions[..i];
      }
      CancelledForever(db, front, j);
      RunInv(db, front);
      assert actions[..|front|] == front;
      CancelledStep(Run(db, front), last, j);
    }
  }

  /** An attempt that was running when its task's cancellation was requested. */
  ghost predicate CancelledAttempt(db: Db, a: nat) {
    && a < |db.attempts|
    && !db.attempts[a].status.AttemptSucceeded?
    && (db.attempts[a].status.AttemptRunning? ==>
          && db.attempts[a].taskId < |db.tasks|
          && db.tasks[db.attempts[a].taskId].status.TaskCancelRequested?)
  }

  /** What the step makes of the attempt and of its row. */
  lemma CancelledAttemptRow(db: Db, action: Action, a: nat)
    requires Fence(db) && Live(db) && CancelledAttempt(db, a)
    ensures !NextAttempt(db, action, a).status.AttemptSucceeded?
    ensures NextAttempt(db, action, a).status.AttemptRunning? ==>
              var t := db.attempts[a].taskId;
              && db.attempts[a].status.AttemptRunning?
              && NextAttempt(db, action, a).taskId == t
              && (InFlight(NextRow(db, action, t).status) ==> NextRow(db, action, t).status.TaskCancelRequested?)
  {
    hide Precedes, Workers, Committing, Score;
  }

  lemma CancelledAttemptStep(db: Db, action: Action, a: nat)
    requires Inv(db) && CancelledAttempt(db, a)
    ensures CancelledAttempt(Apply(db, action), a)
  {
    hide Apply, NextRow, NextAttempt;
    Pieces(db);
    CancelledAttemptRow(db, action, a);
    AttemptRow(db, action, a);
    RowStep(db, action);
    StepLedger(db, action);
    hide Inv, Fence, Live, Cache, WithinCapacity, RowsOk, Quiet;
    if Apply(db, action).attempts[a].status.AttemptRunning? {
      RunningMeansFlight(Apply(db, action), a);
    }
  }

  lemma StepLedger(db: Db, action: Action)
    requires Inv(db)
    ensures Refs(Apply(db, action)) && Ledger(Apply(db, action))
  {
    hide Apply, Inv;
    StepInv(db, action);
    Pieces(Apply(db, action));
  }

  lemma RunningMeansFlight(db: Db, a: nat)
    requires Refs(db) && Ledger(db) && a < |db.attempts| && db.attempts[a].status.AttemptRunning?
    ensures InFlight(db.tasks[db.attempts[a].taskId].status)
  {
    var t := db.attempts[a].taskId;
    AttemptsMembers(db.attempts, t);
    assert db.attempts[a] in AttemptsOf(db.attempts, t);
    assert LedgerOf(db.attempts, t, db.tasks[t]);
  }

  /** Over any run: an attempt whose cancellation was requested is never recorded as succeeded. */
  lemma {:induction false} CancelledAttemptForever(db: Db, actions: seq<Action>, a: nat)
    requires Inv(db) && CancelledAttempt(db, a)
    ensures CancelledAttempt(Run(db, actions), a)
  {
    hide Inv, Apply, CancelledAttempt;
    if actions == [] {
    } else {
      var front := actions[..|actions| - 1];
      CancelledAttemptForever(db, front, a);
      RunInv(db, front);
      CancelledAttemptStep(Run(db, front), actions[|actions| - 1], a);
    }
  }

  /** Cancellation need not conclude: a cancel-requested task goes back to waiting exactly when its
      handler ends interrupted or deferred, or transiently with budget left. */
  lemma CancelRequestedMayWait(db: Db, t: nat, outcome: Outcome)
    requires Live(db) && Fence(db) && t in db.active && db.tasks[t].status.TaskCancelRequested?
    ensures t < |Apply(db, Finish(t, outcome)).tasks|
    ensures Waiting(Apply(db, Finish(t, outcome)).tasks[t].status) <==>
              && outcome.Failure?
              && (outcome.err.Interrupted? || outcome.err.Deferred?
                  || (outcome.err.Transient? && db.tasks[t].attemptCount < db.tasks[t].maxAttempts))
  {
    hide Apply;
    RowStep(db, Finish(t, outcome));
  }
}
