/** Every step of the runtime keeps the invariant, so every run does. */
module Preservation {
  import opened Common
  import opened BackgroundTypes
  import opened JobReduction
  import opened RuntimeSteps
  import opened RuntimeInvariants
  import opened TableLemmas
  import opened RowView

  // ---------------------------------------------------------------- row updates in place

  /** A row rewritten without entering or leaving flight and without succeeding. */
  predicate InPlace(r: Task, s: Task) {
    && s.jobId == r.jobId && s.attemptCount == r.attemptCount && RowOk(s)
    && InFlight(s.status) == InFlight(r.status)
    && (s.status.TaskSucceeded? ==> r.status.TaskSucceeded?)
  }

  /** Rows rewritten in place keep everything that does not mention job flags. */
  lemma InPlaceTables(db: Db, mid: Db)
    requires Core(db)
    requires mid == db.(jobs := mid.jobs, tasks := mid.tasks)
    requires |mid.jobs| == |db.jobs| && |mid.tasks| == |db.tasks|
    requires forall t | 0 <= t < |db.tasks| :: InPlace(db.tasks[t], mid.tasks[t])
    ensures Refs(mid) && RowsOk(mid) && Ledger(mid) && Live(mid)
    ensures forall j: nat :: Unsucceeded(db.tasks, j) ==> Unsucceeded(mid.tasks, j)
  {
    hide AttemptsOf, RowOk, Numbered;
    UnsucceededFrame(db.tasks, mid.tasks);
  }

  /** What a committing or cancelled row owes its job. */
  predicate FlagsOk(jobs: seq<Job>, r: Task) {
    && r.jobId < |jobs|
    && (InFlight(r.status) && r.commitStarted ==>
          r.status.TaskRunning? && !jobs[r.jobId].pauseRequested && !jobs[r.jobId].cancelRequested)
    && (jobs[r.jobId].cancelRequested ==> !r.status.TaskRunning?)
  }

  lemma CoreFlags(db: Db, t: nat)
    requires Core(db) && t < |db.tasks|
    ensures FlagsOk(db.jobs, db.tasks[t]) && RowOk(db.tasks[t])
  {
    hide LedgerOf, RowOk, Unsucceeded;
  }

  lemma FlagsCore(mid: Db)
    requires Refs(mid) && RowsOk(mid) && Ledger(mid) && Live(mid)
    requires forall t | 0 <= t < |mid.tasks| :: FlagsOk(mid.jobs, mid.tasks[t])
    requires forall j | 0 <= j < |mid.jobs| && mid.jobs[j].cancelRequested :: Unsucceeded(mid.tasks, j)
    ensures Core(mid)
  {
    hide LedgerOf, RowOk, Unsucceeded;
  }

  /** A bulk rewrite of one job's rows, in place, together with its flags. */
  lemma BulkKeeps(db: Db, mid: Db, j: nat)
    requires Core(db) && Cache(db) && j < |db.jobs|
    requires mid == db.(jobs := mid.jobs, tasks := mid.tasks)
    requires |mid.jobs| == |db.jobs| && |mid.tasks| == |db.tasks|
    requires forall i | 0 <= i < |db.jobs| && i != j :: mid.jobs[i] == db.jobs[i]
    requires forall t | 0 <= t < |db.tasks| :: InPlace(db.tasks[t], mid.tasks[t])
    requires forall t | 0 <= t < |db.tasks| && db.tasks[t].jobId != j :: mid.tasks[t] == db.tasks[t]
    requires forall t | 0 <= t < |db.tasks| && db.tasks[t].jobId == j :: FlagsOk(mid.jobs, mid.tasks[t])
    requires mid.jobs[j].cancelRequested ==> Unsucceeded(db.tasks, j)
    ensures Core(Settle(mid, {j})) && Cache(Settle(mid, {j}))
  {
    hide Cache, Settle, RowOk;
    assert Core(mid) by {
      InPlaceTables(db, mid);
      forall t | 0 <= t < |mid.tasks| ensures FlagsOk(mid.jobs, mid.tasks[t]) { CoreFlags(db, t); }
      forall i | 0 <= i < |mid.jobs| && mid.jobs[i].cancelRequested ensures Unsucceeded(mid.tasks, i) {
        hide LedgerOf, Unsucceeded;
      }
      FlagsCore(mid);
    }
    hide Core, FlagsOk;
    StepKeeps(db, mid, {j});
  }

  lemma SameInPlace(db: Db)
    requires Core(db)
    ensures forall t | 0 <= t < |db.tasks| :: InPlace(db.tasks[t], db.tasks[t])
  {
    hide LedgerOf, RowOk, Unsucceeded;
  }

  lemma WriteKeeps(db: Db, t: nat, r: Task)
    requires Core(db) && Cache(db) && t < |db.tasks|
    requires InPlace(db.tasks[t], r)
    requires FlagsOk(db.jobs, r)
    requires r.jobId < |db.jobs|
    ensures Core(WriteTask(db, t, r)) && Cache(WriteTask(db, t, r))
  {
    hide Cache, Settle, FlagsOk;
    SameInPlace(db);
    forall u | 0 <= u < |db.tasks| ensures FlagsOk(db.jobs, db.tasks[u]) { CoreFlags(db, u); }
    var mid := WithRow(db, t, r);
    BulkKeeps(db, mid, r.jobId);
  }

  // ---------------------------------------------------------------- operator commands

  lemma PauseKeeps(db: Db, j: nat, pause: bool)
    requires Core(db) && Cache(db) && j < |db.jobs|
    requires pause ==> !Committing(db.tasks, j)
    ensures Core(Settle(WithPause(db, j, pause), {j})) && Cache(Settle(WithPause(db, j, pause), {j}))
  {
    hide Cache, Settle, RowOk;
    SameInPlace(db);
    var mid := WithPause(db, j, pause);
    forall t | 0 <= t < |db.tasks| && db.tasks[t].jobId == j ensures FlagsOk(mid.jobs, db.tasks[t]) {
      CoreFlags(db, t);
      assert db.tasks[t] in db.tasks;
    }
    BulkKeeps(db, mid, j);
  }

  lemma RunNowKeeps(db: Db, j: nat)
    requires Core(db) && Cache(db) && j < |db.jobs|
    ensures Core(Settle(Released(db, j), {j})) && Cache(Settle(Released(db, j), {j}))
  {
    hide Cache, Settle;
    var mid := Released(db, j);
    forall t | 0 <= t < |db.tasks|
      ensures InPlace(db.tasks[t], mid.tasks[t]) && FlagsOk(mid.jobs, mid.tasks[t])
    {
      CoreFlags(db, t);
    }
    hide Core, InPlace, FlagsOk;
    BulkKeeps(db, mid, j);
  }

  /** A job whose stored status is not terminal has a row that is not. */
  lemma OpenStatusHasOpenRow(db: Db, j: nat)
    requires Cache(db) && j < |db.jobs| && !TerminalJob(db.jobs[j].status)
    ensures Unsucceeded(db.tasks, j)
  {
    hide Rows, ProgressOf;
    RowsMembers(db.tasks, j);
    assert Cached(db.jobs[j], Rows(db.tasks, j));
  }

  lemma CancelJobKeeps(db: Db, j: nat)
    requires Core(db) && Cache(db) && CancelJobVerdict(db, j).Ok?
    ensures Core(CancelJobStep(db, j)) && Cache(CancelJobStep(db, j))
  {
    hide Cache, Settle;
    var mid := CanceledJob(db, j);
    OpenStatusHasOpenRow(db, j);
    forall t | 0 <= t < |db.tasks|
      ensures InPlace(db.tasks[t], mid.tasks[t])
      ensures db.tasks[t].jobId == j ==> FlagsOk(mid.jobs, mid.tasks[t])
    {
      CoreFlags(db, t);
      assert db.tasks[t] in db.tasks;
    }
    hide Core, InPlace, FlagsOk;
    BulkKeeps(db, mid, j);
  }

  lemma RetryJobKeeps(db: Db, j: nat)
    requires Core(db) && Cache(db) && j < |db.jobs|
    ensures Core(Settle(RetriedJob(db, j), {j})) && Cache(Settle(RetriedJob(db, j), {j}))
  {
    hide Cache, Settle;
    var mid := RetriedJob(db, j);
    forall t | 0 <= t < |db.tasks|
      ensures InPlace(db.tasks[t], mid.tasks[t])
      ensures db.tasks[t].jobId == j ==> FlagsOk(mid.jobs, mid.tasks[t])
    {
      CoreFlags(db, t);
    }
    hide Core, InPlace, FlagsOk;
    BulkKeeps(db, mid, j);
  }

  lemma RetryTaskKeeps(db: Db, t: nat)
    requires Core(db) && Cache(db) && RetryTaskVerdict(db, t).Ok?
    ensures Core(RetryTaskStep(db, t)) && Cache(RetryTaskStep(db, t))
  {
    hide Cache, Settle;
    var j := db.tasks[t].jobId;
    var mid := Requeued(db, t);
    forall u | 0 <= u < |db.tasks|
      ensures InPlace(db.tasks[u], mid.tasks[u])
      ensures db.tasks[u].jobId == j ==> FlagsOk(mid.jobs, mid.tasks[u])
    {
      CoreFlags(db, u);
    }
    hide Core, InPlace, FlagsOk;
    BulkKeeps(db, mid, j);
  }

  lemma CancelTaskKeeps(db: Db, t: nat)
    requires Core(db) && Cache(db) && CancelTaskVerdict(db, t).Ok?
    ensures Core(CancelTaskStep(db, t)) && Cache(CancelTaskStep(db, t))
  {
    hide Cache, Settle, Core;
    CoreFlags(db, t);
    WriteKeeps(db, t, CanceledTask(db.tasks[t]));
  }

  lemma BeginCommitKeeps(db: Db, t: nat)
    requires Core(db) && Cache(db) && CanCommit(db, t)
    ensures Core(BeginCommitStep(db, t)) && Cache(BeginCommitStep(db, t))
  {
    hide Cache, Settle, Core;
    CoreFlags(db, t);
    WriteKeeps(db, t, db.tasks[t].(commitStarted := true));
  }

  lemma ReportProgressKeeps(db: Db, t: nat, fraction: real)
    requires Core(db) && Cache(db)
    ensures Core(ReportProgressStep(db, t, fraction)) && Cache(ReportProgressStep(db, t, fraction))
  {
    hide Cache, Settle, Core;
    if t in db.active && t < |db.tasks| && InFlight(db.tasks[t].status) {
      CoreFlags(db, t);
      WriteKeeps(db, t, db.tasks[t].(progress := ReportedValue(fraction), heartbeatAt := Some(db.now)));
    }
  }

  // ---------------------------------------------------------------- recovery

  /** A row that leaves flight. */
  predicate Leaves(r: Task, s: Task) {
    && s.jobId == r.jobId && s.attemptCount == r.attemptCount && RowOk(s)
    && !InFlight(s.status)
    && (s.status.TaskSucceeded? ==> r.status.TaskSucceeded?)
  }

  /** Some tasks no worker holds leave flight and their running attempts are closed. */
  lemma RecoveryCore(db: Db, mid: Db, how: map<nat, AttemptStatus>)
    requires Core(db)
    requires mid == db.(tasks := mid.tasks, attempts := Close(db.attempts, how))
    requires |mid.tasks| == |db.tasks|
    requires forall u | u in how :: !how[u].AttemptRunning? && u !in db.active
    requires forall t | 0 <= t < |db.tasks| ::
               if t in how then Leaves(db.tasks[t], mid.tasks[t]) else mid.tasks[t] == db.tasks[t]
    ensures Core(mid)
  {
    hide Rows;
    forall t | 0 <= t < |db.tasks| ensures LedgerOf(mid.attempts, t, mid.tasks[t]) {
      hide Unsucceeded, RowOk;
      CloseLedger(db.attempts, how, t, db.tasks[t], mid.tasks[t]);
    }
    hide LedgerOf, RowOk;
    UnsucceededFrame(db.tasks, mid.tasks);
    forall t | 0 <= t < |mid.tasks| ensures FlagsOk(mid.jobs, mid.tasks[t]) { CoreFlags(db, t); }
    FlagsCore(mid);
  }

  lemma RecoveredRowLeaves(r: Task)
    requires RowOk(r) && InFlight(r.status)
    ensures Leaves(r, StaleRow(r)) && Leaves(r, RecoveredRow(r))
  {
  }

  lemma RecoverStaleKeeps(db: Db, before: int)
    requires Core(db) && Cache(db)
    ensures Core(RecoverStaleStep(db, before)) && Cache(RecoverStaleStep(db, before))
  {
    hide Core, Cache, Settle, Close, RowOk, Leaves, FlagsOk, StaleRow;
    var mid := Reclaimed(db, before);
    var touched := set t | t in StaleTasks(db, before) :: db.tasks[t].jobId;
    forall t | 0 <= t < |db.tasks|
      ensures if t in StaleMap(db, before) then Leaves(db.tasks[t], mid.tasks[t]) else mid.tasks[t] == db.tasks[t]
      ensures mid.tasks[t].jobId == db.tasks[t].jobId
    {
      CoreFlags(db, t);
      if InFlight(db.tasks[t].status) { RecoveredRowLeaves(db.tasks[t]); LeavesJob(db.tasks[t]); }
    }
    RecoveryCore(db, mid, StaleMap(db, before));
    forall t | t in StaleTasks(db, before) ensures db.tasks[t].jobId in touched { }
    StepKeeps(db, mid, touched);
  }

  lemma LeavesJob(r: Task)
    ensures StaleRow(r).jobId == r.jobId
  {
  }

  /** A restart recomputes every job that has a task in flight: the stored status says so. */
  lemma RecoverFilterComplete(db: Db, t: nat)
    requires Cache(db)
    requires t < |db.tasks| && db.tasks[t].jobId < |db.jobs| && InFlight(db.tasks[t].status)
    ensures RecoverableStatus(db.jobs[db.tasks[t].jobId].status)
  {
    hide Rows, ProgressOf;
    var j := db.tasks[t].jobId;
    RowsMembers(db.tasks, j);
    assert Cached(db.jobs[j], Rows(db.tasks, j));
    assert db.tasks[t] in Rows(db.tasks, j);
  }

  lemma RecoverKeeps(db: Db)
    requires Core(db) && Cache(db)
    ensures Core(RecoverStep(db)) && Cache(RecoverStep(db))
  {
    hide Cache, Settle, Close;
    if db.active == map[] {
      var mid := Recovered(db);
      var touched := set j | 0 <= j < |db.jobs| && RecoverableStatus(db.jobs[j].status);
      forall t | 0 <= t < |db.tasks|
        ensures if t in FlightMap(db) then Leaves(db.tasks[t], mid.tasks[t]) else mid.tasks[t] == db.tasks[t]
        ensures InFlight(db.tasks[t].status) ==> db.tasks[t].jobId in touched
      {
        CoreFlags(db, t);
        if InFlight(db.tasks[t].status) { RecoverFilterComplete(db, t); }
      }
      InterruptIsClose(db);
      RecoveryCore(db, mid, FlightMap(db));
      hide Core;
      StepKeeps(db, mid, touched);
    }
  }

  // ---------------------------------------------------------------- claim and finish

  lemma ClaimedLedger(db: Db, t: nat)
    requires Core(db) && t < |db.tasks| && !InFlight(db.tasks[t].status)
    ensures Ledger(Claimed(db, t))
  {
    hide Rows, Numbered, LedgerOf, Unsucceeded, RowOk;
    var mid := Claimed(db, t);
    forall u | 0 <= u < |mid.tasks| ensures LedgerOf(mid.attempts, u, mid.tasks[u]) {
      LedgerAppend(db.attempts, u, db.tasks[u], t, mid.tasks[u]);
    }
  }

  lemma ClaimedCore(db: Db, queue: string, t: nat)
    requires Core(db) && Claimable(db, queue, t)
    ensures Core(Claimed(db, t))
  {
    hide LedgerOf;
    var mid := Claimed(db, t);
    CoreFlags(db, t);
    ClaimedLedger(db, t);
    UnsucceededFrame(db.tasks, mid.tasks);
    hide Unsucceeded;
    forall u | 0 <= u < |mid.tasks| ensures FlagsOk(mid.jobs, mid.tasks[u]) { CoreFlags(db, u); }
    FlagsCore(mid);
  }

  /** Opening the next attempt of task t. */
  lemma LedgerAppend(attempts: seq<Attempt>, u: nat, r: Task, t: nat, s: Task)
    requires LedgerOf(attempts, u, r)
    requires if u == t then s.attemptCount == r.attemptCount + 1 && InFlight(s.status) && !InFlight(r.status)
             else s == r
    ensures forall n: nat :: (u == t ==> n == s.attemptCount) ==>
              LedgerOf(attempts + [Attempt(t, n, AttemptRunning)], u, s)
  {
    forall n: nat | u == t ==> n == s.attemptCount
      ensures LedgerOf(attempts + [Attempt(t, n, AttemptRunning)], u, s)
    {
      AttemptsAppend(attempts, Attempt(t, n, AttemptRunning), u);
      hide AttemptsOf;
    }
  }

  lemma ClaimKeeps(db: Db, queue: string)
    requires Core(db) && Cache(db)
    ensures Core(ClaimStep(db, queue)) && Cache(ClaimStep(db, queue))
  {
    hide Cache, Settle, Core, Precedes, Workers;
    var best := Best(db, queue, |db.tasks|);
    if MayClaim(db, queue) && best.Some? {
      ClaimedCore(db, queue, best.value);
      StepKeeps(db, Claimed(db, best.value), {db.tasks[best.value].jobId});
    }
  }

  /** A success is only ever recorded for a plainly running task. */
  lemma SuccessMeansRunning(db: Db, t: nat, outcome: Outcome)
    requires Fence(db) && t < |db.tasks| && InFlight(db.tasks[t].status)
    requires Effective(db.tasks[t], outcome).Success?
    ensures db.tasks[t].status.TaskRunning?
  {
  }

  lemma FinishedRow(r: Task, effective: Outcome, now: int)
    requires RowOk(r) && InFlight(r.status)
    ensures var s := FinishedTask(r, effective, now);
      && RowOk(s) && !InFlight(s.status) && s.attemptCount == r.attemptCount && s.jobId == r.jobId
      && (s.status.TaskSucceeded? ==> effective.Success?)
  {
  }

  lemma FinishedLedger(db: Db, t: nat, effective: Outcome)
    requires Core(db) && t in db.active
    ensures Ledger(Finished(db, t, effective))
  {
    hide Rows, RowOk, Unsucceeded, FinishedTask, InsertChildren, AttemptsOf, Numbered;
    var r, mid := db.tasks[t], Finished(db, t, effective);
    var status := FinishedAttempt(effective);
    CoreFlags(db, t);
    FinishedRow(r, effective, db.now);
    InsertShape(db.tasks[t := FinishedTask(r, effective, db.now)], r.jobId, t, ChildrenOf(effective), db.now);
    assert LedgerOf(db.attempts, t, r);
    SetIsClose(db.attempts, t, db.active[t], r, status);
    forall u | 0 <= u < |mid.tasks| ensures LedgerOf(mid.attempts, u, mid.tasks[u]) {
      if u < |db.tasks| {
        assert LedgerOf(db.attempts, u, db.tasks[u]);
        hide LedgerOf;
        CloseLedger(db.attempts, map[t := status], u, db.tasks[u], mid.tasks[u]);
      } else {
        EmptyLedger(mid.attempts, u);
      }
    }
  }

  lemma FinishedCore(db: Db, t: nat, outcome: Outcome)
    requires Core(db) && t in db.active
    ensures Core(Finished(db, t, Effective(db.tasks[t], outcome)))
  {
    hide Rows, FinishedTask, InsertChildren, LedgerOf;
    var r, effective := db.tasks[t], Effective(db.tasks[t], outcome);
    var mid := Finished(db, t, effective);
    CoreFlags(db, t);
    FinishedRow(r, effective, db.now);
    InsertShape(db.tasks[t := FinishedTask(r, effective, db.now)], r.jobId, t, ChildrenOf(effective), db.now);
    FinishedLedger(db, t, effective);
    if effective.Success? { SuccessMeansRunning(db, t, outcome); }
    forall j | 0 <= j < |db.jobs| && db.jobs[j].cancelRequested ensures Unsucceeded(mid.tasks, j) {
      KeepsUnsucceeded(db.tasks, mid.tasks, j);
    }
    hide Unsucceeded;
    forall u | 0 <= u < |mid.tasks| ensures FlagsOk(mid.jobs, mid.tasks[u]) {
      if u < |db.tasks| { CoreFlags(db, u); }
    }
    FlagsCore(mid);
  }

  lemma FinishKeeps(db: Db, t: nat, outcome: Outcome)
    requires Core(db) && Cache(db)
    ensures Core(FinishStep(db, t, outcome)) && Cache(FinishStep(db, t, outcome))
  {
    hide Cache, Settle, FinishedTask, InsertChildren, LedgerOf, RowOk;
    if t in db.active {
      var r, effective := db.tasks[t], Effective(db.tasks[t], outcome);
      CoreFlags(db, t);
      FinishedRow(r, effective, db.now);
      InsertShape(db.tasks[t := FinishedTask(r, effective, db.now)], r.jobId, t, ChildrenOf(effective), db.now);
      FinishedCore(db, t, outcome);
      hide Core;
      StepKeeps(db, Finished(db, t, effective), {r.jobId});
    }
  }

  // ---------------------------------------------------------------- creation

  lemma {:induction false} FreshWeights(rows: seq<Task>, j: nat)
    requires forall i | 0 <= i < |rows| :: FreshRow(rows[i], j)
    ensures CompletedWeight(rows) == 0 && Rows(rows, j) == rows
    ensures forall k: nat | k != j :: Rows(rows, k) == []
  {
    if rows == [] {
    } else {
      FreshWeights(rows[..|rows| - 1], j);
    }
  }

  /** A new job is stored already reduced, without a recomputation. */
  lemma FreshJobCached(rows: seq<Task>, j: nat, header: JobHeader, key: string)
    requires rows != [] && forall i | 0 <= i < |rows| :: FreshRow(rows[i], j)
    ensures Cached(Job(header, key, JobQueued, 0, false, false), rows)
  {
    hide Rows, TotalWeight, CompletedWeight;
    FreshWeights(rows, j);
    WeightPositive(rows);
    assert rows[0] in rows;
    assert forall r :: r in rows ==> FreshRow(r, j);
    assert AnyOpen(rows) && !AnyInFlight(rows) && !AnyRetryWait(rows);
  }

  lemma EnqueuedRows(db: Db, spec: JobSpec)
    requires Refs(db)
    ensures var rows := NewTasks(|db.jobs|, spec.tasks, db.now);
      forall j: nat :: Rows(db.tasks + rows, j) == if j == |db.jobs| then rows else Rows(db.tasks, j)
  {
    hide Rows;
    var n := |db.jobs|;
    var rows := NewTasks(n, spec.tasks, db.now);
    FreshWeights(rows, n);
    NoRows(db.tasks, n);
    forall j: nat ensures Rows(db.tasks + rows, j) == if j == n then rows else Rows(db.tasks, j) {
      RowsAppend(db.tasks, rows, j);
    }
  }

  lemma EnqueuedCore(db: Db, spec: JobSpec)
    requires Core(db) && EnqueueVerdict(db, spec).Created?
    ensures Core(EnqueueStep(db, spec))
  {
    hide Rows, KeyHolder, Roots, LedgerOf;
    var post := EnqueueStep(db, spec);
    forall t | 0 <= t < |post.tasks| ensures LedgerOf(post.attempts, t, post.tasks[t]) {
      hide Unsucceeded, RowOk;
      EmptyLedger(db.attempts, t);
    }
    forall t | 0 <= t < |post.tasks| ensures FlagsOk(post.jobs, post.tasks[t]) {
      if t < |db.tasks| { CoreFlags(db, t); }
    }
    UnsucceededFrame(db.tasks, post.tasks);
    hide Unsucceeded;
    FlagsCore(post);
  }

  lemma EmptyLedger(attempts: seq<Attempt>, t: nat)
    ensures (forall a | 0 <= a < |attempts| :: attempts[a].taskId != t)
            ==> forall r: Task :: r.attemptCount == 0 ==> LedgerOf(attempts, t, r)
  {
    if forall a | 0 <= a < |attempts| :: attempts[a].taskId != t { NoAttempts(attempts, t); }
  }

  lemma EnqueueKeeps(db: Db, spec: JobSpec)
    requires Core(db) && Cache(db)
    ensures Core(EnqueueStep(db, spec)) && Cache(EnqueueStep(db, spec))
    ensures EnqueueVerdict(db, spec).Created? || EnqueueStep(db, spec) == db
  {
    hide Core, Rows, KeyHolder, Roots, Cached;
    if EnqueueVerdict(db, spec).Created? {
      EnqueuedCore(db, spec);
      assert Refs(db) by { CoreRefs(db); }
      EnqueuedRows(db, spec);
      FreshJobCached(NewTasks(|db.jobs|, spec.tasks, db.now), |db.jobs|, spec.header, spec.idempotencyKey);
      var post := EnqueueStep(db, spec);
      forall j | 0 <= j < |post.jobs| ensures Rows(post.tasks, j) != [] && Cached(post.jobs[j], Rows(post.tasks, j)) {
        assert j < |db.jobs| ==> post.jobs[j] == db.jobs[j] && Cached(db.jobs[j], Rows(db.tasks, j));
      }
    }
  }

  lemma CoreRefs(db: Db)
    requires Core(db)
    ensures Refs(db)
  {
  }

  // ---------------------------------------------------------------- heartbeat

  /** Two row lists that differ in heartbeats only: the reduction cannot tell them apart. */
  ghost predicate Alike(a: seq<Task>, b: seq<Task>) {
    |a| == |b| && forall i | 0 <= i < |a| :: b[i] == a[i].(heartbeatAt := b[i].heartbeatAt)
  }

  lemma {:induction false} AlikeRows(a: seq<Task>, b: seq<Task>, j: nat)
    requires Alike(a, b)
    ensures Alike(Rows(a, j), Rows(b, j))
  {
    if a == [] {
    } else {
      AlikeRows(a[..|a| - 1], b[..|b| - 1], j);
    }
  }

  lemma {:induction false} AlikeWeights(a: seq<Task>, b: seq<Task>)
    requires Alike(a, b)
    ensures TotalWeight(a) == TotalWeight(b) && CompletedWeight(a) == CompletedWeight(b)
  {
    if a == [] {
    } else {
      AlikeWeights(a[..|a| - 1], b[..|b| - 1]);
    }
  }

  lemma AlikeHas(a: seq<Task>, b: seq<Task>)
    requires Alike(a, b)
    ensures AnyOpen(a) ==> AnyOpen(b)
    ensures AnyInFlight(a) ==> AnyInFlight(b)
    ensures AnyRetryWait(a) ==> AnyRetryWait(b)
    ensures forall q :: AnyFailed(a, q) ==> AnyFailed(b, q)
    ensures forall q :: AnyCanceled(a, q) ==> AnyCanceled(b, q)
  {
    forall r | r in a ensures exists s :: s in b && s == r.(heartbeatAt := s.heartbeatAt) {
      var i :| 0 <= i < |a| && a[i] == r;
      assert b[i] in b;
    }
  }

  lemma AlikeCached(a: seq<Task>, b: seq<Task>, job: Job)
    requires Alike(a, b) && Cached(job, a)
    ensures Cached(job, b)
  {
    AlikeWeights(a, b);
    assert AnyOpen(a) == AnyOpen(b) && AnyInFlight(a) == AnyInFlight(b) && AnyRetryWait(a) == AnyRetryWait(b)
      && (forall q :: AnyFailed(a, q) == AnyFailed(b, q)) && (forall q :: AnyCanceled(a, q) == AnyCanceled(b, q)) by {
      hide AnyOpen, AnyInFlight, AnyRetryWait, AnyFailed, AnyCanceled;
      AlikeHas(a, b);
      AlikeBack(a, b);
      AlikeHas(b, a);
    }
    hide AnyOpen, AnyInFlight, AnyRetryWait, AnyFailed, AnyCanceled, TotalWeight, CompletedWeight;
  }

  lemma AlikeBack(a: seq<Task>, b: seq<Task>)
    requires Alike(a, b)
    ensures Alike(b, a)
  {
  }

  lemma HeartbeatRow(db: Db, t: nat)
    requires t < |db.tasks| && FlagsOk(db.jobs, db.tasks[t]) && RowOk(db.tasks[t])
    ensures InPlace(db.tasks[t], HeartbeatStep(db).tasks[t]) && FlagsOk(db.jobs, HeartbeatStep(db).tasks[t])
  {
  }

  lemma HeartbeatKeeps(db: Db)
    requires Core(db) && Cache(db)
    ensures Core(HeartbeatStep(db)) && Cache(HeartbeatStep(db))
  {
    var post := HeartbeatStep(db);
    forall t | 0 <= t < |db.tasks|
      ensures InPlace(db.tasks[t], post.tasks[t]) && FlagsOk(post.jobs, post.tasks[t])
    {
      CoreFlags(db, t);
      HeartbeatRow(db, t);
    }
    hide InPlace, FlagsOk, RowOk, LedgerOf, Rows, Cached;
    InPlaceTables(db, post);
    FlagsCore(post);
    hide Core;
    forall j | 0 <= j < |db.jobs| ensures Rows(post.tasks, j) != [] && Cached(post.jobs[j], Rows(post.tasks, j)) {
      AlikeRows(db.tasks, post.tasks, j);
      AlikeCached(Rows(db.tasks, j), Rows(post.tasks, j), db.jobs[j]);
    }
  }

  // ---------------------------------------------------------------- any step

  lemma CoreStep(db: Db, action: Action)
    requires Core(db) && Cache(db)
    ensures Core(Apply(db, action)) && Cache(Apply(db, action))
  {
    hide Core, Cache, Settle, Claimed, Finished, WithRow, CanceledTask, Released, CanceledJob, RetriedJob, Requeued,
         Reclaimed, Recovered, StaleTasks, StaleTask, HeartbeatStep, EnqueueStep, ClaimStep, FinishStep,
         RecoverStaleStep, RecoverStep, Committing, EnqueueVerdict, Taken, InsertChildren;
    match action
    case Enqueue(spec) => EnqueueKeeps(db, spec);
    case Claim(queue) => ClaimKeeps(db, queue);
    case Finish(t, outcome) => FinishKeeps(db, t, outcome);
    case BeginCommit(t) => if CanCommit(db, t) { BeginCommitKeeps(db, t); }
    case ReportProgress(t, fraction) => ReportProgressKeeps(db, t, fraction);
    case PauseJob(j) => if PauseVerdict(db, j).Ok? { PauseKeeps(db, j, true); }
    case ResumeJob(j) => if ResumeVerdict(db, j).Ok? { PauseKeeps(db, j, false); }
    case RunJobNow(j) => if RunNowVerdict(db, j).Ok? { RunNowKeeps(db, j); }
    case CancelJob(j) => if CancelJobVerdict(db, j).Ok? { CancelJobKeeps(db, j); }
    case CancelTask(t) => if CancelTaskVerdict(db, t).Ok? { CancelTaskKeeps(db, t); }
    case RetryJob(j) => if RetryJobVerdict(db, j).Ok? { RetryJobKeeps(db, j); }
    case RetryTask(t) => if RetryTaskVerdict(db, t).Ok? { RetryTaskKeeps(db, t); }
    case RecoverStale(before) => RecoverStaleKeeps(db, before);
    case Heartbeat => HeartbeatKeeps(db);
    case LoseWorker(t) => QuietChange(db, db.(active := db.active - {t}));
    case Crash => QuietChange(db, db.(active := map[]));
    case Recover => RecoverKeeps(db);
    case SetQueuePaused(queue, paused) => QuietChange(db, Apply(db, action));
    case Tick(elapsed) => QuietChange(db, db.(now := db.now + elapsed));
  }

  /** Nothing in the tables changes; workers may be lost. */
  lemma QuietChange(db: Db, post: Db)
    requires Core(db) && Cache(db)
    requires post == db.(active := post.active, pausedQueues := post.pausedQueues, now := post.now)
    requires forall t | t in post.active :: t in db.active && post.active[t] == db.active[t]
    ensures Core(post) && Cache(post)
  {
    hide Rows, Cached, LedgerOf, RowOk, Unsucceeded;
  }
}
