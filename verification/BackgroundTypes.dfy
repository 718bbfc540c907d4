/** Records, status constants and terminal predicates of the background runtime. */
module BackgroundTypes {
  import opened Common

  datatype JobStatus =
    | JobQueued | JobRunning | JobRetryWait | JobPauseRequested | JobPaused | JobCancelRequested
    | JobSucceeded | JobSucceededWithWarnings | JobFailed | JobCanceled

  datatype TaskStatus =
    | TaskQueued | TaskRunning | TaskRetryWait | TaskCancelRequested
    | TaskSucceeded | TaskFailed | TaskCanceled

  datatype AttemptStatus =
    | AttemptRunning | AttemptSucceeded | AttemptFailed | AttemptCanceled | AttemptInterrupted

  datatype ErrorClass = Transient | Permanent | Canceled | Interrupted | Paused | Deferred

  /** What a handler hands back: follow-up tasks, or an error class with a requested delay. */
  datatype Outcome =
    | Success(children: seq<TaskSpec>)
    | Failure(err: ErrorClass, retryAfter: int)

  /** The part of a job that identifies the request and never changes. */
  datatype JobHeader = JobHeader(
    kind: string,
    visibility: string,
    owner: Option<nat>,
    subjectType: string,
    subjectId: string,
    pausable: bool)

  /** A job row. Timestamps that are only compared with nil are booleans here. */
  datatype Job = Job(
    header: JobHeader,
    idempotencyKey: string,
    status: JobStatus,
    progress: int,
    pauseRequested: bool,
    cancelRequested: bool)

  /** The part of a task fixed at creation. */
  datatype TaskHeader = TaskHeader(
    parent: Option<nat>,
    kind: string,
    queue: string,
    payload: string,
    dedupeKey: string,
    priority: int,
    required: bool,
    weight: int,
    createdAt: int)

  datatype Task = Task(
    jobId: nat,
    header: TaskHeader,
    status: TaskStatus,
    progress: int,
    attemptCount: nat,
    maxAttempts: int,
    runAfter: Option<int>,
    heartbeatAt: Option<int>,
    cancelRequested: bool,
    commitStarted: bool)

  datatype Attempt = Attempt(taskId: nat, number: nat, status: AttemptStatus)

  datatype TaskSpec = TaskSpec(
    kind: string,
    queue: string,
    payload: string,
    dedupeKey: string,
    priority: int,
    required: bool,
    weight: int,
    maxAttempts: int,
    runAfter: Option<int>)

  datatype JobSpec = JobSpec(header: JobHeader, idempotencyKey: string, tasks: seq<TaskSpec>)

  predicate TerminalJob(status: JobStatus) {
    status.JobSucceeded? || status.JobSucceededWithWarnings? || status.JobFailed? || status.JobCanceled?
  }

  predicate TerminalTask(status: TaskStatus) {
    status.TaskSucceeded? || status.TaskFailed? || status.TaskCanceled?
  }

  /** A task some worker is (or was, before a crash) executing. */
  predicate InFlight(status: TaskStatus) {
    status.TaskRunning? || status.TaskCancelRequested?
  }

  predicate Waiting(status: TaskStatus) {
    status.TaskQueued? || status.TaskRetryWait?
  }

  predicate Retryable(status: TaskStatus) {
    status.TaskFailed? || status.TaskCanceled?
  }
}
