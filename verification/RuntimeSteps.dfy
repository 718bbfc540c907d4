/** The database of the background runtime and every transaction on it, one atomic step each.
    Row identifiers are row numbers: jobs, tasks and attempts are only ever appended. */
module RuntimeSteps {
  import opened Common
  import opened BackgroundTypes
  import opened JobReduction

  const SECOND: int := 1_000_000_000
  const MINUTE: int := 60 * SECOND

  /** `active` is the in-memory registry of live workers: task to the attempt it executes. */
  datatype Db = Db(
    jobs: seq<Job>,
    tasks: seq<Task>,
    attempts: seq<Attempt>,
    active: map<nat, nat>,
    limits: map<string, int>,
    pausedQueues: set<string>,
    now: int)

  datatype Verdict = Ok | NotFound | Conflict | CommitStarted

  datatype Action =
    | Enqueue(spec: JobSpec)
    | Claim(queue: string)
    | Finish(t: nat, outcome: Outcome)
    | BeginCommit(t: nat)
    | ReportProgress(t: nat, fraction: real)
    | PauseJob(j: nat)
    | ResumeJob(j: nat)
    | RunJobNow(j: nat)
    | CancelJob(j: nat)
    | CancelTask(t: nat)
    | RetryJob(j: nat)
    | RetryTask(t: nat)
    | RecoverStale(before: int)
    | Heartbeat
    | LoseWorker(t: nat)
    | Crash
    | Recover
    | SetQueuePaused(queue: string, paused: bool)
    | Tick(elapsed: nat)

  /** Recompute every job in `touched` from the current task rows. */
  ghost function Settle(db: Db, touched: set<nat>): Db {
    db.(jobs := seq(|db.jobs|, j requires 0 <= j < |db.jobs| =>
      if j in touched then Reduced(db.jobs[j], Rows(db.tasks, j)) else db.jobs[j]))
  }

  predicate OpenJob(db: Db, j: nat) {
    j < |db.jobs| && !db.jobs[j].pauseRequested && !db.jobs[j].cancelRequested
  }

  ghost predicate Committing(tasks: seq<Task>, j: nat) {
    exists r :: r in tasks && r.jobId == j && r.commitStarted && InFlight(r.status)
  }

  // ---------------------------------------------------------------- creation

  predicate Space(c: char) {
    || c == ' ' || '\t' <= c <= '\r' || c == '\U{85}' || c == '\U{a0}' || c == '\U{1680}'
    || '\U{2000}' <= c <= '\U{200a}' || c == '\U{2028}' || c == '\U{2029}' || c == '\U{202f}'
    || c == '\U{205f}' || c == '\U{3000}'
  }

  predicate Blank(s: string) { forall i | 0 <= i < |s| :: Space(s[i]) }

  predicate ValidSpec(spec: JobSpec) {
    && !Blank(spec.header.kind)
    && spec.tasks != []
    && forall i | 0 <= i < |spec.tasks| :: !Blank(spec.tasks[i].kind) && !Blank(spec.tasks[i].queue)
  }

  function NewTask(j: nat, parent: Option<nat>, spec: TaskSpec, now: int): Task {
    Task(j,
         TaskHeader(parent, spec.kind, spec.queue, spec.payload, spec.dedupeKey, spec.priority, spec.required,
                    if spec.weight < 1 then 1 else spec.weight, now),
         TaskQueued, 0, 0,
         if spec.maxAttempts < 1 then 4 else spec.maxAttempts,
         spec.runAfter, None, false, false)
  }

  function NewTasks(j: nat, specs: seq<TaskSpec>, now: int): (rows: seq<Task>)
    ensures |rows| == |specs|
    ensures forall i | 0 <= i < |specs| :: rows[i] == NewTask(j, None, specs[i], now)
  {
    if specs == [] then []
    else NewTasks(j, specs[..|specs| - 1], now) + [NewTask(j, None, specs[|specs| - 1], now)]
  }

  /** The unique index on (job, dedupe key) already holds this key. */
  predicate Taken(tasks: seq<Task>, j: nat, key: string) {
    exists i | 0 <= i < |tasks| :: tasks[i].jobId == j && tasks[i].header.dedupeKey == key
  }

  /** Follow-up tasks; one whose key is taken is skipped without failing the transaction. */
  function InsertChildren(tasks: seq<Task>, j: nat, parent: nat, specs: seq<TaskSpec>, now: int): seq<Task> {
    if specs == [] then tasks
    else
      var rows := InsertChildren(tasks, j, parent, specs[..|specs| - 1], now);
      var spec := specs[|specs| - 1];
      if Taken(rows, j, spec.dedupeKey) then rows else rows + [NewTask(j, Some(parent), spec, now)]
  }

  predicate DistinctKeys(specs: seq<TaskSpec>) {
    forall i, k | 0 <= i < k < |specs| :: specs[i].dedupeKey != specs[k].dedupeKey
  }

  /** The job holding an idempotency key. */
  function KeyHolder(jobs: seq<Job>, key: string): (r: Option<nat>)
    ensures r.None? ==> forall j | 0 <= j < |jobs| :: jobs[j].idempotencyKey != key
    ensures r.Some? ==> r.value < |jobs| && jobs[r.value].idempotencyKey == key
                        && forall j | 0 <= j < r.value :: jobs[j].idempotencyKey != key
  {
    if jobs == [] then None
    else
      var front := jobs[..|jobs| - 1];
      match KeyHolder(front, key)
      case Some(j) => Some(j)
      case None => if jobs[|jobs| - 1].idempotencyKey == key then Some(|jobs| - 1) else None
  }

  /** The root tasks of a job: those a request created, not a handler. */
  function Roots(rows: seq<Task>): seq<Task> {
    if rows == [] then []
    else Roots(rows[..|rows| - 1]) + if rows[|rows| - 1].header.parent.None? then [rows[|rows| - 1]] else []
  }

  /** A repeated key must come with the request the stored job was created from. */
  predicate SameRequest(job: Job, roots: seq<Task>, spec: JobSpec) {
    && job.header == spec.header
    && |roots| == |spec.tasks|
    && forall i | 0 <= i < |roots| ::
         && roots[i].header.kind == spec.tasks[i].kind
         && roots[i].header.queue == spec.tasks[i].queue
         && roots[i].header.payload == spec.tasks[i].payload
  }

  datatype EnqueueResult = Created(j: nat) | Reused(j: nat) | KeyConflict | InvalidSpec | DuplicateTask

  function EnqueueVerdict(db: Db, spec: JobSpec): EnqueueResult {
    if !ValidSpec(spec) then InvalidSpec
    else if spec.idempotencyKey != "" && KeyHolder(db.jobs, spec.idempotencyKey).Some? then
      var j := KeyHolder(db.jobs, spec.idempotencyKey).value;
      if SameRequest(db.jobs[j], Roots(Rows(db.tasks, j)), spec) then Reused(j) else KeyConflict
    else if !DistinctKeys(spec.tasks) then DuplicateTask
    else Created(|db.jobs|)
  }

  function EnqueueStep(db: Db, spec: JobSpec): Db {
    if EnqueueVerdict(db, spec).Created? then
      db.(jobs := db.jobs + [Job(spec.header, spec.idempotencyKey, JobQueued, 0, false, false)],
          tasks := db.tasks + NewTasks(|db.jobs|, spec.tasks, db.now))
    else db
  }

  // ---------------------------------------------------------------- dispatch

  /** Integer division that drops the fraction, as SQL's CAST AS INTEGER does. */
  function Truncate(x: int, unit: int): int
    requires unit > 0
  {
    if x >= 0 then x / unit else -((-x) / unit)
  }

  /** CURRENT_TIMESTAMP: the clock with whole seconds. */
  function WholeSecond(now: int): int { now / SECOND * SECOND }

  function Score(db: Db, t: nat): int
    requires t < |db.tasks|
  {
    db.tasks[t].header.priority + Truncate(WholeSecond(db.now) - db.tasks[t].header.createdAt, MINUTE)
  }

  predicate Claimable(db: Db, queue: string, t: nat) {
    && t < |db.tasks|
    && db.tasks[t].header.queue == queue
    && Waiting(db.tasks[t].status)
    && (db.tasks[t].runAfter.None? || db.tasks[t].runAfter.value <= db.now)
    && OpenJob(db, db.tasks[t].jobId)
  }

  /** Claim order: aged priority, then age, then row number. */
  predicate Precedes(db: Db, a: nat, b: nat)
    requires a < |db.tasks| && b < |db.tasks|
  {
    var sa, sb, ca, cb := Score(db, a), Score(db, b), db.tasks[a].header.createdAt, db.tasks[b].header.createdAt;
    sa > sb || (sa == sb && (ca < cb || (ca == cb && a < b)))
  }

  /** The task the next claim on the queue takes, among the first n rows. */
  function Best(db: Db, queue: string, n: nat): (r: Option<nat>)
    requires n <= |db.tasks|
    ensures r.Some? ==> r.value < n && Claimable(db, queue, r.value)
    ensures r.Some? ==> forall t: nat | t < n && t != r.value && Claimable(db, queue, t) :: Precedes(db, r.value, t)
    ensures r.None? ==> forall t: nat | t < n :: !Claimable(db, queue, t)
  {
    if n == 0 then None
    else
      var best := Best(db, queue, n - 1);
      if !Claimable(db, queue, n - 1) then best
      else if best.Some? && Precedes(db, best.value, n - 1) then best
      else Some(n - 1)
  }

  function Capacity(limits: map<string, int>, queue: string): (c: int)
    ensures c >= 1
  {
    if queue in limits && limits[queue] > 0 then limits[queue]
    else if queue == "storage" then 2
    else 1
  }

  function Workers(db: Db, queue: string): set<nat> {
    set t | t in db.active && t < |db.tasks| && db.tasks[t].header.queue == queue
  }

  function ClaimedTask(r: Task, now: int): Task {
    r.(status := TaskRunning, attemptCount := r.attemptCount + 1, heartbeatAt := Some(now),
       runAfter := None, commitStarted := false)
  }

  predicate MayClaim(db: Db, queue: string) {
    queue !in db.pausedQueues && |Workers(db, queue)| < Capacity(db.limits, queue)
  }

  /** A claimed task gets a numbered attempt and a live worker. */
  function Claimed(db: Db, t: nat): Db
    requires t < |db.tasks|
  {
    var r := ClaimedTask(db.tasks[t], db.now);
    db.(tasks := db.tasks[t := r],
        attempts := db.attempts + [Attempt(t, r.attemptCount, AttemptRunning)],
        active := db.active[t := |db.attempts|])
  }

  /** Claim and launch the best claimable task. */
  ghost function ClaimStep(db: Db, queue: string): Db {
    var best := Best(db, queue, |db.tasks|);
    if MayClaim(db, queue) && best.Some?
    then Settle(Claimed(db, best.value), {db.tasks[best.value].jobId})
    else db
  }

  // ---------------------------------------------------------------- completion

  function RetryDelay(attempt: int, requested: int): (d: int)
    ensures 0 < d <= 15 * MINUTE
  {
    if requested > 0 then if requested > 15 * MINUTE then 15 * MINUTE else requested
    else if attempt == 1 then 5 * SECOND
    else if attempt == 2 then 30 * SECOND
    else 2 * MINUTE
  }

  /** A cancellation that came before the commit overrides success and pause. */
  function Effective(r: Task, outcome: Outcome): Outcome {
    if (outcome.Success? || outcome.err.Paused?) && r.status.TaskCancelRequested? && !r.commitStarted
    then Failure(Canceled, 0)
    else outcome
  }

  function FinishedTask(r: Task, outcome: Outcome, now: int): Task {
    var s := r.(heartbeatAt := None);
    match outcome
    case Success(_) => s.(status := TaskSucceeded, progress := 10000)
    case Failure(err, retryAfter) =>
      match err
      case Paused | Interrupted =>
        s.(status := TaskQueued, runAfter := None, cancelRequested := false, maxAttempts := r.maxAttempts + 1)
      case Deferred =>
        s.(status := TaskRetryWait, runAfter := Some(now + RetryDelay(r.attemptCount, retryAfter)),
           maxAttempts := r.maxAttempts + 1)
      case Canceled => s.(status := TaskCanceled)
      case Transient =>
        if r.attemptCount < r.maxAttempts
        then s.(status := TaskRetryWait, runAfter := Some(now + RetryDelay(r.attemptCount, retryAfter)))
        else s.(status := TaskFailed)
      case Permanent => s.(status := TaskFailed)
  }

  function FinishedAttempt(outcome: Outcome): AttemptStatus {
    match outcome
    case Success(_) => AttemptSucceeded
    case Failure(err, _) =>
      match err
      case Paused | Interrupted | Deferred => AttemptInterrupted
      case Canceled => AttemptCanceled
      case Transient | Permanent => AttemptFailed
  }

  function SetAttempt(attempts: seq<Attempt>, a: nat, status: AttemptStatus): seq<Attempt> {
    if a < |attempts| then attempts[a := attempts[a].(status := status)] else attempts
  }

  function ChildrenOf(outcome: Outcome): seq<TaskSpec> {
    if outcome.Success? then outcome.children else []
  }

  /** The effective outcome is written to the task and its attempt, follow-up tasks are created
      and the worker leaves the registry. */
  function Finished(db: Db, t: nat, effective: Outcome): Db
    requires t in db.active && t < |db.tasks|
  {
    var r := db.tasks[t];
    db.(tasks := InsertChildren(db.tasks[t := FinishedTask(r, effective, db.now)], r.jobId, t,
                                ChildrenOf(effective), db.now),
        attempts := SetAttempt(db.attempts, db.active[t], FinishedAttempt(effective)),
        active := db.active - {t})
  }

  /** Record a handler's outcome and drop its worker from the registry. */
  ghost function FinishStep(db: Db, t: nat, outcome: Outcome): Db {
    if t !in db.active then db
    else if t >= |db.tasks| || !InFlight(db.tasks[t].status) then db.(active := db.active - {t})
    else Settle(Finished(db, t, Effective(db.tasks[t], outcome)), {db.tasks[t].jobId})
  }

  /** Rewrite one task row and recompute its job. */
  ghost function WriteTask(db: Db, t: nat, r: Task): Db
    requires t < |db.tasks|
  {
    Settle(WithRow(db, t, r), {r.jobId})
  }

  function WithRow(db: Db, t: nat, r: Task): Db
    requires t < |db.tasks|
  {
    db.(tasks := db.tasks[t := r])
  }

  predicate CanCommit(db: Db, t: nat) {
    && t in db.active && t < |db.tasks|
    && db.tasks[t].status.TaskRunning? && !db.tasks[t].cancelRequested
    && OpenJob(db, db.tasks[t].jobId)
  }

  ghost function BeginCommitStep(db: Db, t: nat): Db {
    if CanCommit(db, t) then WriteTask(db, t, db.tasks[t].(commitStarted := true)) else db
  }

  function ReportedValue(fraction: real): (v: int)
    ensures 0 <= v <= 9999
  {
    var value := (fraction * 10000.0).Floor;
    if value < 0 then 0 else if value > 9999 then 9999 else value
  }

  ghost function ReportProgressStep(db: Db, t: nat, fraction: real): Db {
    if t in db.active && t < |db.tasks| && InFlight(db.tasks[t].status)
    then WriteTask(db, t, db.tasks[t].(progress := ReportedValue(fraction), heartbeatAt := Some(db.now)))
    else db
  }

  // ---------------------------------------------------------------- operator commands

  predicate PausableStatus(status: JobStatus) {
    status.JobQueued? || status.JobRunning? || status.JobRetryWait?
  }

  predicate CancellableStatus(status: JobStatus) {
    PausableStatus(status) || status.JobPauseRequested? || status.JobPaused?
  }

  ghost function PauseVerdict(db: Db, j: nat): Verdict {
    if j >= |db.jobs| then NotFound
    else if !db.jobs[j].header.pausable || !PausableStatus(db.jobs[j].status)
         || db.jobs[j].pauseRequested || db.jobs[j].cancelRequested then Conflict
    else if Committing(db.tasks, j) then CommitStarted
    else Ok
  }

  function WithPause(db: Db, j: nat, pause: bool): Db
    requires j < |db.jobs|
  {
    db.(jobs := db.jobs[j := db.jobs[j].(pauseRequested := pause)])
  }

  ghost function PauseStep(db: Db, j: nat): Db {
    if PauseVerdict(db, j).Ok? then Settle(WithPause(db, j, true), {j}) else db
  }

  function ResumeVerdict(db: Db, j: nat): Verdict {
    if j >= |db.jobs| then NotFound
    else if !db.jobs[j].status.JobPauseRequested? && !db.jobs[j].status.JobPaused? then Conflict
    else Ok
  }

  ghost function ResumeStep(db: Db, j: nat): Db {
    if ResumeVerdict(db, j).Ok? then Settle(WithPause(db, j, false), {j}) else db
  }

  predicate Scheduled(r: Task, j: nat, now: int) {
    r.jobId == j && r.status.TaskQueued? && r.runAfter.Some? && r.runAfter.value > now
  }

  function RunNowVerdict(db: Db, j: nat): Verdict {
    if j >= |db.jobs| then NotFound
    else if !db.jobs[j].status.JobQueued? || !OpenJob(db, j) then Conflict
    else if forall t | 0 <= t < |db.tasks| :: !Scheduled(db.tasks[t], j, db.now) then Conflict
    else Ok
  }

  function ReleasedTask(r: Task, j: nat, now: int): Task {
    if Scheduled(r, j, now) then r.(runAfter := None) else r
  }

  function Released(db: Db, j: nat): Db {
    db.(tasks := seq(|db.tasks|, t requires 0 <= t < |db.tasks| => ReleasedTask(db.tasks[t], j, db.now)))
  }

  ghost function RunNowStep(db: Db, j: nat): Db {
    if RunNowVerdict(db, j).Ok? then Settle(Released(db, j), {j}) else db
  }

  ghost function CancelJobVerdict(db: Db, j: nat): Verdict {
    if j >= |db.jobs| then NotFound
    else if TerminalJob(db.jobs[j].status) then Conflict
    else if Committing(db.tasks, j) then CommitStarted
    else Ok
  }

  function CanceledRow(r: Task, j: nat): Task {
    if r.jobId != j then r
    else if Waiting(r.status) then r.(status := TaskCanceled)
    else if r.status.TaskRunning? then r.(status := TaskCancelRequested, cancelRequested := true)
    else r
  }

  function CanceledJob(db: Db, j: nat): Db
    requires j < |db.jobs|
  {
    db.(jobs := db.jobs[j := db.jobs[j].(status := JobCancelRequested, cancelRequested := true,
                                         pauseRequested := false)],
        tasks := seq(|db.tasks|, t requires 0 <= t < |db.tasks| => CanceledRow(db.tasks[t], j)))
  }

  ghost function CancelJobStep(db: Db, j: nat): Db {
    if CancelJobVerdict(db, j).Ok? then Settle(CanceledJob(db, j), {j}) else db
  }

  function CancelTaskVerdict(db: Db, t: nat): Verdict {
    if t >= |db.tasks| then NotFound
    else if TerminalTask(db.tasks[t].status) then Conflict
    else if db.tasks[t].commitStarted then CommitStarted
    else Ok
  }

  function CanceledTask(r: Task): Task {
    if InFlight(r.status) then r.(status := TaskCancelRequested, cancelRequested := true)
    else r.(status := TaskCanceled)
  }

  ghost function CancelTaskStep(db: Db, t: nat): Db {
    if CancelTaskVerdict(db, t).Ok? then WriteTask(db, t, CanceledTask(db.tasks[t])) else db
  }

  function RetriedTask(r: Task): Task {
    r.(status := TaskQueued, runAfter := None, cancelRequested := false, commitStarted := false,
       progress := 0, maxAttempts := r.attemptCount + 4)
  }

  function RetriedRow(r: Task, j: nat): Task {
    if r.jobId == j && Retryable(r.status) then RetriedTask(r) else r
  }

  function RetryJobVerdict(db: Db, j: nat): Verdict {
    if j >= |db.jobs| then NotFound
    else if !db.jobs[j].status.JobFailed? && !db.jobs[j].status.JobCanceled?
         && !db.jobs[j].status.JobSucceededWithWarnings? then Conflict
    else if forall t | 0 <= t < |db.tasks| :: !(db.tasks[t].jobId == j && Retryable(db.tasks[t].status))
         then Conflict
    else Ok
  }

  function RetriedJob(db: Db, j: nat): Db
    requires j < |db.jobs|
  {
    db.(jobs := db.jobs[j := db.jobs[j].(status := JobQueued, cancelRequested := false, pauseRequested := false)],
        tasks := seq(|db.tasks|, t requires 0 <= t < |db.tasks| => RetriedRow(db.tasks[t], j)))
  }

  ghost function RetryJobStep(db: Db, j: nat): Db {
    if RetryJobVerdict(db, j).Ok? then Settle(RetriedJob(db, j), {j}) else db
  }

  function RetryTaskVerdict(db: Db, t: nat): Verdict {
    if t >= |db.tasks| then NotFound
    else if !Retryable(db.tasks[t].status) then Conflict
    else if db.tasks[t].jobId >= |db.jobs| then NotFound
    else Ok
  }

  function Requeued(db: Db, t: nat): Db
    requires t < |db.tasks| && db.tasks[t].jobId < |db.jobs|
  {
    var j := db.tasks[t].jobId;
    db.(jobs := db.jobs[j := db.jobs[j].(cancelRequested := false)],
        tasks := db.tasks[t := RetriedTask(db.tasks[t])])
  }

  ghost function RetryTaskStep(db: Db, t: nat): Db {
    if RetryTaskVerdict(db, t).Ok? then Settle(Requeued(db, t), {db.tasks[t].jobId}) else db
  }

  // ---------------------------------------------------------------- recovery

  predicate StaleTask(db: Db, t: nat, before: int) {
    && t < |db.tasks| && t !in db.active
    && InFlight(db.tasks[t].status)
    && (db.tasks[t].heartbeatAt.None? || db.tasks[t].heartbeatAt.value < before)
  }

  function StaleRow(r: Task): Task {
    var s := r.(runAfter := None, heartbeatAt := None, cancelRequested := false);
    if r.commitStarted then s.(status := TaskFailed)
    else if r.status.TaskCancelRequested? then s.(status := TaskCanceled)
    else s.(status := TaskQueued, maxAttempts := r.maxAttempts + 1)
  }

  function StaleAttempt(r: Task): AttemptStatus {
    if !r.commitStarted && r.status.TaskCancelRequested? then AttemptCanceled else AttemptInterrupted
  }

  /** Close the running attempt of every task in `how` with the given status. */
  function Close(attempts: seq<Attempt>, how: map<nat, AttemptStatus>): (closed: seq<Attempt>)
    ensures |closed| == |attempts|
  {
    seq(|attempts|, a requires 0 <= a < |attempts| =>
      if attempts[a].status.AttemptRunning? && attempts[a].taskId in how
      then attempts[a].(status := how[attempts[a].taskId]) else attempts[a])
  }

  function StaleTasks(db: Db, before: int): set<nat> {
    set t: nat | t < |db.tasks| && StaleTask(db, t, before)
  }

  function StaleMap(db: Db, before: int): map<nat, AttemptStatus> {
    map t | t in StaleTasks(db, before) :: StaleAttempt(db.tasks[t])
  }

  function Reclaimed(db: Db, before: int): Db {
    db.(tasks := seq(|db.tasks|, t requires 0 <= t < |db.tasks| =>
          if StaleTask(db, t, before) then StaleRow(db.tasks[t]) else db.tasks[t]),
        attempts := Close(db.attempts, StaleMap(db, before)))
  }

  ghost function RecoverStaleStep(db: Db, before: int): Db {
    Settle(Reclaimed(db, before), set t | t in StaleTasks(db, before) :: db.tasks[t].jobId)
  }

  function HeartbeatStep(db: Db): Db {
    db.(tasks := seq(|db.tasks|, t requires 0 <= t < |db.tasks| =>
      if t in db.active && InFlight(db.tasks[t].status) then db.tasks[t].(heartbeatAt := Some(db.now))
      else db.tasks[t]))
  }

  function RecoveredRow(r: Task): Task {
    if !InFlight(r.status) then r
    else if r.commitStarted then r.(status := TaskFailed, heartbeatAt := None)
    else if r.status.TaskCancelRequested? then r.(status := TaskCanceled, heartbeatAt := None)
    else r.(status := TaskQueued, maxAttempts := r.maxAttempts + 1, runAfter := None, heartbeatAt := None,
            cancelRequested := false)
  }

  /** The statuses whose jobs a restart recomputes. */
  predicate RecoverableStatus(status: JobStatus) {
    status.JobRunning? || status.JobRetryWait? || status.JobPauseRequested? || status.JobPaused?
    || status.JobCancelRequested?
  }

  function InterruptRunning(attempts: seq<Attempt>): (closed: seq<Attempt>)
    ensures |closed| == |attempts|
  {
    seq(|attempts|, a requires 0 <= a < |attempts| =>
      if attempts[a].status.AttemptRunning? then attempts[a].(status := AttemptInterrupted) else attempts[a])
  }

  function Recovered(db: Db): Db {
    db.(tasks := seq(|db.tasks|, t requires 0 <= t < |db.tasks| => RecoveredRow(db.tasks[t])),
        attempts := InterruptRunning(db.attempts))
  }

  /** Runs when a process starts, before any worker exists. */
  ghost function RecoverStep(db: Db): Db {
    if db.active != map[] then db
    else Settle(Recovered(db), set j | 0 <= j < |db.jobs| && RecoverableStatus(db.jobs[j].status))
  }

  // ---------------------------------------------------------------- runs

  ghost function Apply(db: Db, action: Action): Db {
    match action
    case Enqueue(spec) => EnqueueStep(db, spec)
    case Claim(queue) => ClaimStep(db, queue)
    case Finish(t, outcome) => FinishStep(db, t, outcome)
    case BeginCommit(t) => BeginCommitStep(db, t)
    case ReportProgress(t, fraction) => ReportProgressStep(db, t, fraction)
    case PauseJob(j) => PauseStep(db, j)
    case ResumeJob(j) => ResumeStep(db, j)
    case RunJobNow(j) => RunNowStep(db, j)
    case CancelJob(j) => CancelJobStep(db, j)
    case CancelTask(t) => CancelTaskStep(db, t)
    case RetryJob(j) => RetryJobStep(db, j)
    case RetryTask(t) => RetryTaskStep(db, t)
    case RecoverStale(before) => RecoverStaleStep(db, before)
    case Heartbeat => HeartbeatStep(db)
    case LoseWorker(t) => db.(active := db.active - {t})
    case Crash => db.(active := map[])
    case Recover => RecoverStep(db)
    case SetQueuePaused(queue, paused) =>
      db.(pausedQueues := if paused then db.pausedQueues + {queue} else db.pausedQueues - {queue})
    case Tick(elapsed) => db.(now := db.now + elapsed)
  }

  ghost function Run(db: Db, actions: seq<Action>): Db {
    if actions == [] then db else Apply(Run(db, actions[..|actions| - 1]), actions[|actions| - 1])
  }

  ghost predicate Fresh(db: Db) {
    db.jobs == [] && db.tasks == [] && db.attempts == [] && db.active == map[]
  }

  /** A state some sequence of actions leads to from an empty database. */
  ghost predicate Reachable(db: Db) {
    exists start, actions :: Fresh(start) && db == Run(start, actions)
  }
}
