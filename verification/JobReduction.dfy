/** The reduction of a job's task rows to its stored status and progress. */
module JobReduction {
  import opened BackgroundTypes

  /** The rows of job j, in creation order: the query every recomputation starts from. */
  function Rows(tasks: seq<Task>, j: nat): seq<Task> {
    if tasks == [] then []
    else
      var last := tasks[|tasks| - 1];
      Rows(tasks[..|tasks| - 1], j) + if last.jobId == j then [last] else []
  }

  lemma {:induction false} RowsMembers(tasks: seq<Task>, j: nat)
    ensures forall r :: r in Rows(tasks, j) <==> r in tasks && r.jobId == j
  {
    if tasks == [] {
    } else {
      var front, last := tasks[..|tasks| - 1], tasks[|tasks| - 1];
      RowsMembers(front, j);
      assert tasks == front + [last];
    }
  }

  /** Writes to other jobs' rows leave a job's rows alone. */
  lemma {:induction false} RowsFrame(before: seq<Task>, after: seq<Task>, j: nat)
    requires |before| == |after|
    requires forall t | 0 <= t < |before| ::
               before[t].jobId == after[t].jobId && (before[t].jobId == j ==> before[t] == after[t])
    ensures Rows(before, j) == Rows(after, j)
  {
    if before == [] {
    } else {
      RowsFrame(before[..|before| - 1], after[..|after| - 1], j);
    }
  }

  lemma {:induction false} RowsAppend(tasks: seq<Task>, extra: seq<Task>, j: nat)
    ensures Rows(tasks + extra, j) == Rows(tasks, j) + Rows(extra, j)
  {
    if extra == [] {
      assert tasks + extra == tasks;
    } else {
      var front := extra[..|extra| - 1];
      RowsAppend(tasks, front, j);
      assert (tasks + extra)[..|tasks + extra| - 1] == tasks + front;
    }
  }

  /** Some row of the list is in a status of the given kind. */
  ghost predicate AnyInFlight(rows: seq<Task>) { exists r :: r in rows && InFlight(r.status) }
  ghost predicate AnyRetryWait(rows: seq<Task>) { exists r :: r in rows && r.status.TaskRetryWait? }
  ghost predicate AnyOpen(rows: seq<Task>) { exists r :: r in rows && !TerminalTask(r.status) }
  ghost predicate AnyFailed(rows: seq<Task>, required: bool) {
    exists r :: r in rows && r.status.TaskFailed? && r.header.required == required
  }
  ghost predicate AnyCanceled(rows: seq<Task>, required: bool) {
    exists r :: r in rows && r.status.TaskCanceled? && r.header.required == required
  }

  ghost function StatusOf(cancel: bool, pause: bool, rows: seq<Task>): JobStatus {
    if AnyOpen(rows) then
      if cancel then JobCancelRequested
      else if pause && AnyInFlight(rows) then JobPauseRequested
      else if pause then JobPaused
      else if AnyInFlight(rows) then JobRunning
      else if AnyRetryWait(rows) then JobRetryWait
      else JobQueued
    else if AnyFailed(rows, true) then JobFailed
    else if cancel || AnyCanceled(rows, true) then JobCanceled
    else if AnyFailed(rows, false) || AnyCanceled(rows, false) then JobSucceededWithWarnings
    else JobSucceeded
  }

  predicate SuccessStatus(status: JobStatus) {
    status.JobSucceeded? || status.JobSucceededWithWarnings?
  }

  function WeightOf(r: Task): int { if r.header.weight < 1 then 1 else r.header.weight }

  function ShareOf(r: Task): int {
    if r.status.TaskSucceeded? || r.progress > 10000 then 10000
    else if r.progress < 0 then 0
    else r.progress
  }

  function TotalWeight(rows: seq<Task>): int {
    if rows == [] then 0 else TotalWeight(rows[..|rows| - 1]) + WeightOf(rows[|rows| - 1])
  }

  function CompletedWeight(rows: seq<Task>): int {
    if rows == [] then 0
    else CompletedWeight(rows[..|rows| - 1]) + WeightOf(rows[|rows| - 1]) * ShareOf(rows[|rows| - 1])
  }

  lemma {:induction false} WeightPositive(rows: seq<Task>)
    ensures TotalWeight(rows) >= |rows|
  {
    if rows == [] {
    } else {
      WeightPositive(rows[..|rows| - 1]);
    }
  }

  /** Rounded-down weighted mean of the rows' shares, forced to 10000 on success. */
  ghost function ProgressOf(status: JobStatus, rows: seq<Task>): int {
    if SuccessStatus(status) then 10000
    else if TotalWeight(rows) > 0 then CompletedWeight(rows) / TotalWeight(rows)
    else 0
  }

  /** What a recomputation writes into the job row. */
  ghost function Reduced(job: Job, rows: seq<Task>): Job {
    if rows == [] then job else
    var status := StatusOf(job.cancelRequested, job.pauseRequested, rows);
    job.(status := status,
         progress := ProgressOf(status, rows),
         pauseRequested := job.pauseRequested && !TerminalJob(status))
  }

  /** The stored row is its own reduction, and a finished job carries no pause request. */
  ghost predicate Cached(job: Job, rows: seq<Task>) {
    && job.status == StatusOf(job.cancelRequested, job.pauseRequested, rows)
    && job.progress == ProgressOf(job.status, rows)
    && (TerminalJob(job.status) ==> !job.pauseRequested)
  }

  lemma ReducedIsCached(job: Job, rows: seq<Task>)
    requires rows != []
    ensures Cached(Reduced(job, rows), rows)
  {
  }

  /** Every row's weighted share stays within its weight, and strictly below it when unfinished. */
  lemma {:induction false} CompletedBounds(rows: seq<Task>)
    ensures 0 <= CompletedWeight(rows) <= 10000 * TotalWeight(rows)
    ensures (exists r :: r in rows && ShareOf(r) < 10000) ==> CompletedWeight(rows) < 10000 * TotalWeight(rows)
  {
    if rows == [] {
    } else {
      var front, last := rows[..|rows| - 1], rows[|rows| - 1];
      CompletedBounds(front);
      assert rows == front + [last];
      ScaledShare(WeightOf(last), ShareOf(last));
    }
  }

  lemma ScaledShare(w: int, s: int)
    requires w >= 1 && 0 <= s <= 10000
    ensures 0 <= w * s <= 10000 * w
    ensures s < 10000 ==> w * s < 10000 * w
  {
    if s < 10000 {
      assert w * (10000 - s) >= 1;
    }
  }

  lemma FloorBelow(completed: int, weight: int)
    requires weight >= 1 && 0 <= completed
    ensures completed < 10000 * weight ==> 0 <= completed / weight < 10000
    ensures completed <= 10000 * weight ==> 0 <= completed / weight <= 10000
  {
    var q, rest := completed / weight, completed % weight;
    Quotient(completed, weight);
    if q >= 10000 { ScaledUp(q, 10000, weight); }
    if q >= 10001 { ScaledUp(q, 10001, weight); }
    assert 10001 * weight == 10000 * weight + weight;
  }

  lemma Quotient(n: int, d: int)
    requires d >= 1 && n >= 0
    ensures n == (n / d) * d + n % d && n / d >= 0 && 0 <= n % d < d
  {
  }

  lemma ScaledUp(a: int, b: int, w: int)
    requires a >= b && w >= 0
    ensures a * w >= b * w
  {
    assert (a - b) * w >= 0;
  }

  /** The stored percentage is a percentage, and it is full exactly on success, provided an
      unsuccessful job has an unfinished row (which RuntimeInvariants establishes for every run). */
  lemma ProgressExact(status: JobStatus, rows: seq<Task>)
    requires rows != []
    requires !SuccessStatus(status) ==> exists r :: r in rows && ShareOf(r) < 10000
    ensures 0 <= ProgressOf(status, rows) <= 10000
    ensures ProgressOf(status, rows) == 10000 <==> SuccessStatus(status)
  {
    WeightPositive(rows);
    CompletedBounds(rows);
    FloorBelow(CompletedWeight(rows), TotalWeight(rows));
  }

  /** Each row's progress in hundredths, full once it has succeeded, as often as its weight says. */
  function Shares(rows: seq<Task>): seq<int> {
    if rows == [] then []
    else
      var r := rows[|rows| - 1];
      var share := if r.status.TaskSucceeded? || r.progress >= 10000 then 10000
                   else if r.progress >= 0 then r.progress else 0;
      Shares(rows[..|rows| - 1]) + Copies(share, if r.header.weight >= 1 then r.header.weight else 1)
  }

  function Copies(x: int, n: nat): seq<int> { seq(n, _ => x) }

  function Total(xs: seq<int>): int {
    if xs == [] then 0 else Total(xs[..|xs| - 1]) + xs[|xs| - 1]
  }

  lemma {:induction false} TotalCopies(xs: seq<int>, x: int, n: nat)
    ensures Total(xs + Copies(x, n)) == Total(xs) + n * x
  {
    if n == 0 {
      assert xs + Copies(x, n) == xs;
    } else {
      TotalCopies(xs, x, n - 1);
      assert (xs + Copies(x, n))[..|xs| + n - 1] == xs + Copies(x, n - 1);
    }
  }

  lemma {:induction false} WeightsCount(rows: seq<Task>)
    ensures |Shares(rows)| == TotalWeight(rows) && Total(Shares(rows)) == CompletedWeight(rows)
  {
    if rows == [] {
    } else {
      var front, r := rows[..|rows| - 1], rows[|rows| - 1];
      WeightsCount(front);
      TotalCopies(Shares(front), ShareOf(r), WeightOf(r));
    }
  }

  /** Short of success a job's progress is the mean of these, rounded down. */
  lemma ProgressIsMean(status: JobStatus, rows: seq<Task>)
    requires rows != [] && !SuccessStatus(status)
    ensures |Shares(rows)| > 0 && ProgressOf(status, rows) == Total(Shares(rows)) / |Shares(rows)|
  {
    WeightPositive(rows);
    WeightsCount(rows);
  }

  /** A recomputation writes status and progress, and clears a pause request at most. */
  lemma ReducedKeeps()
    ensures forall job, rows {:trigger Reduced(job, rows)} ::
              && Reduced(job, rows).cancelRequested == job.cancelRequested
              && (Reduced(job, rows).pauseRequested ==> job.pauseRequested)
              && Reduced(job, rows).header == job.header
              && Reduced(job, rows).idempotencyKey == job.idempotencyKey
  {
    hide StatusOf, ProgressOf;
  }
}
