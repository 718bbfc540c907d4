/** The invariant every step of the background runtime keeps. */
module RuntimeInvariants {
  import opened BackgroundTypes
  import opened JobReduction
  import opened RuntimeSteps

  // ---------------------------------------------------------------- the invariant

  ghost predicate Refs(db: Db) {
    && (forall t | 0 <= t < |db.tasks| :: db.tasks[t].jobId < |db.jobs|)
    && (forall a | 0 <= a < |db.attempts| :: db.attempts[a].taskId < |db.tasks|)
  }

  /** Automatic attempts the task has left, the one in flight included. */
  function Remaining(r: Task): int {
    r.maxAttempts - r.attemptCount + if InFlight(r.status) then 1 else 0
  }

  predicate RowOk(r: Task) {
    && (if r.status.TaskSucceeded? then r.progress == 10000 else 0 <= r.progress <= 9999)
    && (InFlight(r.status) ==> r.attemptCount >= 1)
    && (!TerminalTask(r.status) ==> Remaining(r) >= 1)
  }

  /** Stored status and progress are the reduction of the job's rows. */
  ghost predicate Cache(db: Db) {
    forall j | 0 <= j < |db.jobs| :: Rows(db.tasks, j) != [] && Cached(db.jobs[j], Rows(db.tasks, j))
  }

  /** A committing attempt is plainly running and nobody has asked its job to stop. */
  ghost predicate Fence(db: Db) {
    forall t | 0 <= t < |db.tasks| && InFlight(db.tasks[t].status) && db.tasks[t].commitStarted ::
      db.tasks[t].status.TaskRunning? && OpenJob(db, db.tasks[t].jobId)
  }

  ghost predicate Unsucceeded(tasks: seq<Task>, j: nat) {
    exists r :: r in tasks && r.jobId == j && !r.status.TaskSucceeded?
  }

  /** Once cancelled, a job has no plainly running task and keeps one that did not succeed. */
  ghost predicate Quiet(db: Db) {
    && (forall t | 0 <= t < |db.tasks| && db.tasks[t].jobId < |db.jobs| && db.jobs[db.tasks[t].jobId].cancelRequested ::
          !db.tasks[t].status.TaskRunning?)
    && (forall j | 0 <= j < |db.jobs| && db.jobs[j].cancelRequested :: Unsucceeded(db.tasks, j))
  }

  /** The attempts of one task, oldest first. */
  function AttemptsOf(attempts: seq<Attempt>, t: nat): seq<Attempt> {
    if attempts == [] then []
    else
      var last := attempts[|attempts| - 1];
      AttemptsOf(attempts[..|attempts| - 1], t) + if last.taskId == t then [last] else []
  }

  predicate Numbered(rows: seq<Attempt>) {
    forall i | 0 <= i < |rows| :: rows[i].number == i + 1
  }

  /** Numbered 1..attemptCount; the last one runs exactly while the task is in flight, no other ever does. */
  predicate LedgerOf(attempts: seq<Attempt>, t: nat, r: Task) {
    var rows := AttemptsOf(attempts, t);
    && |rows| == r.attemptCount
    && Numbered(rows)
    && forall i | 0 <= i < |rows| ::
         rows[i].status.AttemptRunning? <==> i == |rows| - 1 && InFlight(r.status)
  }

  ghost predicate Ledger(db: Db) {
    forall t | 0 <= t < |db.tasks| :: LedgerOf(db.attempts, t, db.tasks[t])
  }

  /** A live worker holds the running attempt of a task in flight. */
  ghost predicate Live(db: Db) {
    forall t | t in db.active ::
      && t < |db.tasks| && InFlight(db.tasks[t].status)
      && db.active[t] < |db.attempts|
      && db.attempts[db.active[t]] == Attempt(t, db.tasks[t].attemptCount, AttemptRunning)
  }

  ghost predicate WithinCapacity(db: Db) {
    forall queue :: |Workers(db, queue)| <= Capacity(db.limits, queue)
  }

  ghost predicate RowsOk(db: Db) {
    forall t | 0 <= t < |db.tasks| :: RowOk(db.tasks[t])
  }

  ghost predicate Core(db: Db) {
    Refs(db) && RowsOk(db) && Fence(db) && Quiet(db) && Ledger(db) && Live(db)
  }

  ghost predicate Inv(db: Db) {
    Core(db) && Cache(db) && WithinCapacity(db)
  }
}
