/** The runtime itself: methods that rewrite the tables the way its transactions do, each proved to
    be the step of RuntimeSteps it stands for. */
module BackgroundRuntime {
  import opened Common
  import opened BackgroundTypes
  import opened JobReduction
  import opened RuntimeSteps
  import opened Runs
  import opened ProgressReports
  import Capabilities

  // ---------------------------------------------------------------- recomputation loop facts

  lemma ExtendAny(rows: seq<Task>, r: Task)
    ensures AnyInFlight(rows + [r]) <==> AnyInFlight(rows) || InFlight(r.status)
    ensures AnyRetryWait(rows + [r]) <==> AnyRetryWait(rows) || r.status.TaskRetryWait?
    ensures AnyOpen(rows + [r]) <==> AnyOpen(rows) || !TerminalTask(r.status)
  {
    assert r in rows + [r];
    assert forall q :: q in rows ==> q in rows + [r];
  }

  lemma ExtendEnded(rows: seq<Task>, r: Task, required: bool)
    ensures AnyFailed(rows + [r], required) <==>
              AnyFailed(rows, required) || (r.status.TaskFailed? && r.header.required == required)
    ensures AnyCanceled(rows + [r], required) <==>
              AnyCanceled(rows, required) || (r.status.TaskCanceled? && r.header.required == required)
  {
    assert r in rows + [r];
    assert forall q :: q in rows ==> q in rows + [r];
  }

  lemma ExtendWeights(rows: seq<Task>, r: Task)
    ensures TotalWeight(rows + [r]) == TotalWeight(rows) + WeightOf(r)
    ensures CompletedWeight(rows + [r]) == CompletedWeight(rows) + WeightOf(r) * ShareOf(r)
  {
    assert (rows + [r])[..|rows|] == rows;
  }

  /** The counters of the recomputation loop after the given rows. */
  ghost predicate Tallied(rows: seq<Task>, totalWeight: int, completedWeight: int, running: nat, waiting: nat,
                          queued: nat, failedRequired: nat, failedOptional: nat, canceledRequired: nat,
                          canceledOptional: nat)
  {
    && totalWeight == 10000 * TotalWeight(rows) && completedWeight == CompletedWeight(rows)
    && (running > 0 <==> AnyInFlight(rows)) && (waiting > 0 <==> AnyRetryWait(rows))
    && (running > 0 || waiting > 0 || queued > 0 <==> AnyOpen(rows))
    && (failedRequired > 0 <==> AnyFailed(rows, true)) && (failedOptional > 0 <==> AnyFailed(rows, false))
    && (canceledRequired > 0 <==> AnyCanceled(rows, true)) && (canceledOptional > 0 <==> AnyCanceled(rows, false))
  }

  lemma TalliedNone(rows: seq<Task>)
    ensures Tallied(rows[..0], 0, 0, 0, 0, 0, 0, 0, 0, 0)
  {
    assert rows[..0] == [];
  }

  lemma TalliedMore(rows: seq<Task>, r: Task, totalWeight: int, completedWeight: int, running: nat, waiting: nat,
                    queued: nat, failedRequired: nat, failedOptional: nat, canceledRequired: nat,
                    canceledOptional: nat)
    requires Tallied(rows, totalWeight, completedWeight, running, waiting, queued,
                     failedRequired, failedOptional, canceledRequired, canceledOptional)
    ensures Tallied(rows + [r], totalWeight + WeightOf(r) * 10000, completedWeight + WeightOf(r) * ShareOf(r),
                    running + (if InFlight(r.status) then 1 else 0),
                    waiting + (if r.status.TaskRetryWait? then 1 else 0),
                    queued + (if r.status.TaskQueued? then 1 else 0),
                    failedRequired + (if r.status.TaskFailed? && r.header.required then 1 else 0),
                    failedOptional + (if r.status.TaskFailed? && !r.header.required then 1 else 0),
                    canceledRequired + (if r.status.TaskCanceled? && r.header.required then 1 else 0),
                    canceledOptional + (if r.status.TaskCanceled? && !r.header.required then 1 else 0))
  {
    ExtendAny(rows, r);
    ExtendEnded(rows, r, true);
    ExtendEnded(rows, r, false);
    ExtendWeights(rows, r);
    hide AnyInFlight, AnyRetryWait, AnyOpen, AnyFailed, AnyCanceled, TotalWeight, CompletedWeight, ShareOf, WeightOf;
  }

  lemma SettleOne(db: Db, j: nat)
    ensures j < |db.jobs| ==> Settle(db, {j}) == db.(jobs := db.jobs[j := Reduced(db.jobs[j], Rows(db.tasks, j))])
    ensures j >= |db.jobs| ==> Settle(db, {j}) == db
  {
    hide Reduced, Rows;
  }

  /** A row's weight and progress as the loop counts them: at least one, and clamped. */
  method WeighRow(task: Task) returns (weight: int, progress: int)
    ensures weight == WeightOf(task) && progress == ShareOf(task)
  {
    weight := task.header.weight;
    if weight < 1 { weight := 1; }
    progress := task.progress;
    if task.status.TaskSucceeded? { progress := 10000; }
    if progress < 0 { progress := 0; }
    if progress > 10000 { progress := 10000; }
  }

  /** The counting loop of a recomputation. */
  method CountRows(rows: seq<Task>)
    returns (totalWeight: int, completedWeight: int, running: nat, waiting: nat, queued: nat,
             failedRequired: nat, failedOptional: nat, canceledRequired: nat, canceledOptional: nat)
    ensures Tallied(rows, totalWeight, completedWeight, running, waiting, queued,
                    failedRequired, failedOptional, canceledRequired, canceledOptional)
  {
    totalWeight, completedWeight, running, waiting, queued := 0, 0, 0, 0, 0;
    failedRequired, failedOptional, canceledRequired, canceledOptional := 0, 0, 0, 0;
    hide Tallied, WeightOf, ShareOf;
    TalliedNone(rows);
    for i := 0 to |rows|
      invariant Tallied(rows[..i], totalWeight, completedWeight, running, waiting, queued,
                        failedRequired, failedOptional, canceledRequired, canceledOptional)
    {
      var task := rows[i];
      TalliedMore(rows[..i], task, totalWeight, completedWeight, running, waiting, queued,
                  failedRequired, failedOptional, canceledRequired, canceledOptional);
      assert rows[..i + 1] == rows[..i] + [task];
      var weight, progress := WeighRow(task);
      totalWeight := totalWeight + weight * 10000;
      completedWeight := completedWeight + weight * progress;
      match task.status {
        case TaskRunning | TaskCancelRequested => running := running + 1;
        case TaskRetryWait => waiting := waiting + 1;
        case TaskQueued => queued := queued + 1;
        case TaskFailed =>
          if task.header.required { failedRequired := failedRequired + 1; }
          else { failedOptional := failedOptional + 1; }
        case TaskCanceled =>
          if task.header.required { canceledRequired := canceledRequired + 1; }
          else { canceledOptional := canceledOptional + 1; }
        case TaskSucceeded =>
      }
    }
    assert rows[..|rows|] == rows;
  }

  /** Status and progress of a job with these flags and rows. */
  method ReduceRows(cancel: bool, pause: bool, rows: seq<Task>) returns (status: JobStatus, progress: int)
    requires rows != []
    ensures status == StatusOf(cancel, pause, rows)
    ensures progress == ProgressOf(status, rows)
  {
    var totalWeight, completedWeight, running, waiting, queued,
        failedRequired, failedOptional, canceledRequired, canceledOptional := CountRows(rows);
    WeightPositive(rows);
    hide AnyInFlight, AnyRetryWait, AnyOpen, AnyFailed, AnyCanceled, TotalWeight, CompletedWeight;
    progress := 0;
    if totalWeight > 0 { progress := completedWeight / (totalWeight / 10000); }
    if running > 0 || waiting > 0 || queued > 0 {
      if cancel { status := JobCancelRequested; }
      else if pause && running > 0 { status := JobPauseRequested; }
      else if pause { status := JobPaused; }
      else if running > 0 { status := JobRunning; }
      else if waiting > 0 { status := JobRetryWait; }
      else { status := JobQueued; }
    } else if failedRequired > 0 {
      status := JobFailed;
    } else if cancel || canceledRequired > 0 {
      status := JobCanceled;
    } else if failedOptional > 0 || canceledOptional > 0 {
      status, progress := JobSucceededWithWarnings, 10000;
    } else {
      status, progress := JobSucceeded, 10000;
    }
  }

  function OnQueue(ids: set<nat>, tasks: seq<Task>, queue: string): set<nat> {
    set t | t in ids && t < |tasks| && tasks[t].header.queue == queue
  }

  lemma OnQueueAdd(ids: set<nat>, tasks: seq<Task>, queue: string, t: nat)
    requires t !in ids
    ensures |OnQueue(ids + {t}, tasks, queue)|
         == |OnQueue(ids, tasks, queue)| + if t < |tasks| && tasks[t].header.queue == queue then 1 else 0
  {
    if t < |tasks| && tasks[t].header.queue == queue {
      assert OnQueue(ids + {t}, tasks, queue) == OnQueue(ids, tasks, queue) + {t};
    } else {
      assert OnQueue(ids + {t}, tasks, queue) == OnQueue(ids, tasks, queue);
    }
  }

  lemma RunNothing(db: Db)
    ensures Run(db, []) == db
  {
  }

  lemma WorkersOnQueue(db: Db, queue: string)
    ensures OnQueue(db.active.Keys, db.tasks, queue) == Workers(db, queue)
  {
  }

  const QUEUES := ["ffmpeg", "network", "storage", "maintenance", "audit"]

  /** What dispatching one queue does: nothing if it is paused; otherwise claims for the capacity that
      was free, or for as many tasks as there are to claim. */
  ghost predicate Filled(before: Db, queue: string, claims: seq<Action>) {
    var after := Run(before, claims);
    var available := Capacity(before.limits, queue) - |Workers(before, queue)|;
    && (forall i | 0 <= i < |claims| :: claims[i] == Action.Claim(queue))
    && (claims == [] || |claims| <= available)
    && (queue in before.pausedQueues ==> claims == [])
    && (queue !in before.pausedQueues ==> |claims| >= available || Best(after, queue, |after.tasks|) == None)
  }

  function Joined(parts: seq<seq<Action>>): seq<Action> {
    if parts == [] then [] else Joined(parts[..|parts| - 1]) + parts[|parts| - 1]
  }

  /** Queue after queue. */
  ghost predicate AllFilled(before: Db, queues: seq<string>, parts: seq<seq<Action>>) {
    && |parts| == |queues|
    && (queues == []
        || (var n := |queues| - 1;
            AllFilled(before, queues[..n], parts[..n]) && Filled(Run(before, Joined(parts[..n])), queues[n], parts[n])))
  }

  lemma RunClaim(start: Db, claims: seq<Action>, queue: string)
    ensures Run(start, claims + [Action.Claim(queue)]) == ClaimStep(Run(start, claims), queue)
  {
    hide ClaimStep;
    assert (claims + [Action.Claim(queue)])[..|claims|] == claims;
  }

  /** One more claim of a dispatch: a step of the run, with at most one more worker. */
  lemma DispatchStep(start: Db, claims: seq<Action>, queue: string)
    requires MayClaim(Run(start, claims), queue)
    ensures var db := Run(start, claims);
      var best := Best(db, queue, |db.tasks|);
      best.Some? ==>
        var next := Settle(Claimed(db, best.value), {db.tasks[best.value].jobId});
        && next == Run(start, claims + [Action.Claim(queue)])
        && |Workers(next, queue)| <= |Workers(db, queue)| + 1
        && next.limits == db.limits && next.pausedQueues == db.pausedQueues
  {
    RunClaim(start, claims, queue);
    ClaimAdds(Run(start, claims), queue, queue);
    hide Workers, Run, Precedes, Claimable, Score, Settle, Claimed;
  }

  /** Recomputing one more job. */
  lemma SettleMore(db: Db, touched: set<nat>, j: nat)
    requires j !in touched
    ensures Settle(Settle(db, touched), {j}) == Settle(db, touched + {j})
  {
    hide Reduced, Rows;
    assert Settle(Settle(db, touched), {j}).jobs == Settle(db, touched + {j}).jobs;
  }

  lemma SettleNone(db: Db)
    ensures Settle(db, {}) == db
  {
    hide Reduced, Rows;
    assert Settle(db, {}).jobs == db.jobs;
  }

  /** Closing one more task's running attempt. */
  lemma CloseMore(attempts: seq<Attempt>, how: map<nat, AttemptStatus>, t: nat, status: AttemptStatus)
    requires t !in how && forall u | u in how :: !how[u].AttemptRunning?
    ensures Close(Close(attempts, how), map[t := status]) == Close(attempts, how[t := status])
  {
  }

  /** The stale tasks among the first n rows, and what becomes of their attempts. */
  function StaleBelow(db: Db, before: int, n: nat): map<nat, AttemptStatus> {
    map t | 0 <= t < n && StaleTask(db, t, before) :: StaleAttempt(db.tasks[t])
  }

  lemma StaleBelowStep(db: Db, before: int, n: nat)
    requires n < |db.tasks|
    ensures StaleBelow(db, before, n + 1)
         == if StaleTask(db, n, before) then StaleBelow(db, before, n)[n := StaleAttempt(db.tasks[n])]
            else StaleBelow(db, before, n)
  {
  }

  function ReclaimedRow(db: Db, t: nat, before: int): Task
    requires t < |db.tasks|
  {
    if StaleTask(db, t, before) then StaleRow(db.tasks[t]) else db.tasks[t]
  }

  lemma ReclaimDone(db: Db, before: int, rows: seq<Task>)
    requires |rows| == |db.tasks| && forall u | 0 <= u < |rows| :: rows[u] == ReclaimedRow(db, u, before)
    ensures Reclaimed(db, before)
         == db.(tasks := rows, attempts := Close(db.attempts, StaleBelow(db, before, |db.tasks|)))
    ensures StaleBelow(db, before, |db.tasks|).Keys == StaleTasks(db, before)
  {
    hide StaleRow, Close;
    assert StaleBelow(db, before, |db.tasks|) == StaleMap(db, before) by { hide ReclaimedRow; }
    hide StaleTask;
    assert Reclaimed(db, before).tasks == rows;
  }

  lemma CommittingMore(tasks: seq<Task>, r: Task, j: nat)
    ensures Committing(tasks + [r], j) <==>
              Committing(tasks, j) || (r.jobId == j && r.commitStarted && InFlight(r.status))
  {
    assert r in tasks + [r];
    assert forall q :: q in tasks ==> q in tasks + [r];
  }

  class Runtime {
    var jobs: seq<Job>
    var tasks: seq<Task>
    var attempts: seq<Attempt>
    var active: map<nat, nat>
    var limits: map<string, int>
    var pausedQueues: set<string>
    var now: int
    /** The last report each attempt wrote: in memory only. */
    var reporters: map<nat, Report>

    ghost function State(): Db
      reads this
    {
      Db(jobs, tasks, attempts, active, limits, pausedQueues, now)
    }

    constructor (limits: map<string, int>, now: int)
      ensures State() == Db([], [], [], map[], limits, {}, now) && Fresh(State()) && reporters == map[]
    {
      jobs, tasks, attempts, active, pausedQueues := [], [], [], map[], {};
      this.limits, this.now, reporters := limits, now, map[];
    }

    /** Reload the job's rows, count them, and store the reduced status and progress. */
    method RecomputeJob(j: nat)
      modifies this`jobs
      ensures State() == Settle(old(State()), {j})
    {
      SettleOne(State(), j);
      if j >= |jobs| { return; }
      var rows := Rows(tasks, j);
      if rows == [] { return; }
      hide StatusOf, ProgressOf, Rows;
      var job := jobs[j];
      var status, progress := ReduceRows(job.cancelRequested, job.pauseRequested, rows);
      job := job.(status := status, progress := progress);
      if TerminalJob(status) { job := job.(pauseRequested := false); }
      jobs := jobs[j := job];
    }

    // -------------------------------------------------------------- creation

    /** Insert the request's tasks one by one; a repeated dedupe key aborts the whole transaction. */
    method Enqueue(spec: JobSpec) returns (result: EnqueueResult)
      modifies this`jobs, this`tasks
      ensures result == EnqueueVerdict(old(State()), spec)
      ensures State() == EnqueueStep(old(State()), spec)
    {
      hide Blank, KeyHolder, Roots, Rows, NewTask;
      if !ValidSpec(spec) { return InvalidSpec; }
      if spec.idempotencyKey != "" {
        var holder := KeyHolder(jobs, spec.idempotencyKey);
        if holder.Some? {
          if SameRequest(jobs[holder.value], Roots(Rows(tasks, holder.value)), spec) { return Reused(holder.value); }
          return KeyConflict;
        }
      }
      var j := |jobs|;
      var created: seq<Task> := [];
      for index := 0 to |spec.tasks|
        invariant created == NewTasks(j, spec.tasks[..index], now)
        invariant DistinctKeys(spec.tasks[..index])
        invariant unchanged(this)
      {
        var next := spec.tasks[index];
        assert spec.tasks[..index + 1][..index] == spec.tasks[..index];
        if k :| 0 <= k < index && spec.tasks[k].dedupeKey == next.dedupeKey {
          assert !DistinctKeys(spec.tasks);
          return DuplicateTask;
        }
        created := created + [NewTask(j, None, next, now)];
      }
      assert spec.tasks[..|spec.tasks|] == spec.tasks;
      jobs := jobs + [Job(spec.header, spec.idempotencyKey, JobQueued, 0, false, false)];
      tasks := tasks + created;
      result := EnqueueResult.Created(j);
    }

    // -------------------------------------------------------------- dispatch

    /** Live workers of a queue, counted over the registry. */
    method ActiveCount(queue: string) returns (count: nat)
      ensures count == |Workers(State(), queue)|
    {
      var rest := active.Keys;
      ghost var seen: set<nat> := {};
      count := 0;
      while rest != {}
        invariant rest + seen == active.Keys && rest !! seen
        invariant count == |OnQueue(seen, tasks, queue)|
        decreases rest
      {
        var t :| t in rest;
        OnQueueAdd(seen, tasks, queue, t);
        hide OnQueue;
        rest, seen := rest - {t}, seen + {t};
        if t < |tasks| && tasks[t].header.queue == queue { count := count + 1; }
      }
      assert seen == active.Keys;
      WorkersOnQueue(State(), queue);
    }

    /** Claim the best task of the queue and launch its worker. */
    method Claim(queue: string) returns (claimed: bool)
      modifies this`jobs, this`tasks, this`attempts, this`active
      ensures var best := Best(old(State()), queue, |old(tasks)|);
        && claimed == best.Some?
        && State() == if best.Some? then Settle(Claimed(old(State()), best.value), {old(tasks)[best.value].jobId})
                      else old(State())
    {
      hide Settle, Score, Claimable;
      var best := Best(Db(jobs, tasks, attempts, active, limits, pausedQueues, now), queue, |tasks|);
      if best.None? { return false; }
      var t := best.value;
      var task := tasks[t];
      task := task.(status := TaskRunning, attemptCount := task.attemptCount + 1, heartbeatAt := Some(now),
                    runAfter := None, commitStarted := false);
      tasks := tasks[t := task];
      active := active[t := |attempts|];
      attempts := attempts + [Attempt(t, task.attemptCount, AttemptRunning)];
      RecomputeJob(task.jobId);
      claimed := true;
    }

    /** Fill one queue up to its capacity. */
    method DispatchQueue(queue: string) returns (ghost claims: seq<Action>)
      modifies this`jobs, this`tasks, this`attempts, this`active
      ensures State() == Run(old(State()), claims)
      ensures Filled(old(State()), queue, claims)
    {
      hide Workers, Settle, Claimed, Claimable, Precedes;
      claims := [];
      if queue in pausedQueues { return; }
      var occupied := ActiveCount(queue);
      var available := Capacity(limits, queue) - occupied;
      var index := 0;
      while index < available
        invariant 0 <= index && (index == 0 || index <= available)
        invariant |claims| == index && forall i | 0 <= i < |claims| :: claims[i] == Action.Claim(queue)
        invariant State() == Run(old(State()), claims)
        invariant |Workers(State(), queue)| <= occupied + index
        invariant queue !in pausedQueues
      {
        DispatchStep(old(State()), claims, queue);
        hide Run;
        var claimed := Claim(queue);
        if !claimed { break; }
        index := index + 1;
        claims := claims + [Action.Claim(queue)];
      }
    }

    /** One pass over the queues. */
    method DispatchAvailable() returns (ghost parts: seq<seq<Action>>)
      modifies this`jobs, this`tasks, this`attempts, this`active
      ensures State() == Run(old(State()), Joined(parts))
      ensures AllFilled(old(State()), QUEUES, parts)
    {
      hide Apply, Run, Filled;
      parts := [];
      RunNothing(State());
      for index := 0 to |QUEUES|
        invariant State() == Run(old(State()), Joined(parts))
        invariant AllFilled(old(State()), QUEUES[..index], parts)
      {
        ghost var more := DispatchQueue(QUEUES[index]);
        RunJoin(old(State()), Joined(parts), more);
        assert QUEUES[..index + 1][..index] == QUEUES[..index];
        assert (parts + [more])[..|parts|] == parts;
        parts := parts + [more];
      }
      assert QUEUES[..|QUEUES|] == QUEUES;
    }

    // -------------------------------------------------------------- completion

    method Finish(t: nat, outcome: Outcome)
      modifies this`jobs, this`tasks, this`attempts, this`active
      ensures State() == FinishStep(old(State()), t, outcome)
    {
      hide Settle, NewTask;
      if t !in active { return; }
      var attempt := active[t];
      active := active - {t};
      if t >= |tasks| || !InFlight(tasks[t].status) { return; }
      var current := tasks[t];
      var effective := outcome;
      if (outcome.Success? || outcome.err.Paused?) && current.status.TaskCancelRequested? && !current.commitStarted {
        effective := Failure(Canceled, 0);
      }
      tasks := tasks[t := FinishedTask(current, effective, now)];
      attempts := SetAttempt(attempts, attempt, FinishedAttempt(effective));
      if effective.Success? {
        var children := effective.children;
        ghost var base := tasks;
        for index := 0 to |children|
          invariant tasks == InsertChildren(base, current.jobId, t, children[..index], now)
          invariant active == old(active) - {t} && jobs == old(jobs)
          invariant attempts == SetAttempt(old(attempts), attempt, FinishedAttempt(effective))
        {
          assert children[..index + 1][..index] == children[..index];
          if !Taken(tasks, current.jobId, children[index].dedupeKey) {
            tasks := tasks + [NewTask(current.jobId, Some(t), children[index], now)];
          }
        }
        assert children[..|children|] == children;
      }
      RecomputeJob(current.jobId);
    }

    method BeginCommit(t: nat) returns (ok: bool)
      modifies this`jobs, this`tasks
      ensures ok == CanCommit(old(State()), t)
      ensures State() == BeginCommitStep(old(State()), t)
    {
      hide Settle;
      if t !in active || t >= |tasks| { return false; }
      var task := tasks[t];
      if !task.status.TaskRunning? { return false; }
      if task.jobId >= |jobs| { return false; }
      var job := jobs[task.jobId];
      if job.cancelRequested || job.pauseRequested || task.cancelRequested { return false; }
      tasks := tasks[t := task.(commitStarted := true)];
      RecomputeJob(task.jobId);
      ok := true;
    }

    /** What the reporter of an attempt remembers: the last report it wrote, if any. */
    ghost function Reported(t: nat): Option<Report>
      requires t in active
      reads this
    {
      if active[t] in reporters then Some(reporters[active[t]]) else None
    }

    /** A report too close to the last one written is dropped; any other is remembered and written. */
    method ReportProgress(t: nat, fraction: real)
      modifies this`jobs, this`tasks, this`reporters
      ensures t !in active ==> State() == old(State()) && reporters == old(reporters)
      ensures t in active ==>
        var report := Report(ReportedValue(fraction), now);
        if Throttled(old(Reported(t)), report) then State() == old(State()) && reporters == old(reporters)
        else State() == ReportProgressStep(old(State()), t, fraction)
             && reporters == old(reporters)[active[t] := report]
    {
      hide Settle;
      if t !in active { return; }
      var value := (fraction * 10000.0).Floor;
      if value < 0 { value := 0; }
      if value > 9999 { value := 9999; }
      var attempt := active[t];
      if attempt in reporters && now - reporters[attempt].at < HALF_SECOND
         && value - reporters[attempt].value < ONE_PERCENT {
        return;
      }
      reporters := reporters[attempt := Report(value, now)];
      if t >= |tasks| || !InFlight(tasks[t].status) { return; }
      tasks := tasks[t := tasks[t].(progress := value, heartbeatAt := Some(now))];
      RecomputeJob(tasks[t].jobId);
    }

    // -------------------------------------------------------------- operator commands

    /** How many of the job's tasks are past their commit point. */
    method CountCommitting(j: nat) returns (committing: nat)
      ensures committing > 0 <==> Committing(tasks, j)
    {
      committing := 0;
      for i := 0 to |tasks|
        invariant committing > 0 <==> Committing(tasks[..i], j)
      {
        assert tasks[..i + 1] == tasks[..i] + [tasks[i]];
        CommittingMore(tasks[..i], tasks[i], j);
        hide Committing;
        if tasks[i].jobId == j && tasks[i].commitStarted && InFlight(tasks[i].status) { committing := committing + 1; }
      }
      assert tasks[..|tasks|] == tasks;
    }

    /** What a page of the job list offers: the status alone first, then pause and cancel withdrawn
        from the jobs found to be committing. */
    method ListOffers(page: seq<nat>) returns (offers: seq<Capabilities.Offer>)
      requires forall i | 0 <= i < |page| :: page[i] < |jobs|
      ensures |offers| == |page|
      ensures forall i | 0 <= i < |page| :: offers[i] == Capabilities.ListOffer(State(), page[i])
    {
      hide Committing;
      offers := [];
      var jobIds: set<nat> := {};
      for index := 0 to |page|
        invariant |offers| == index
        invariant forall i | 0 <= i < index :: offers[i] == Capabilities.StatusOffer(jobs[page[i]])
        invariant forall i | 0 <= i < index && (offers[i].canCancel || offers[i].canPause) :: page[i] in jobIds
      {
        var offer := Capabilities.StatusOffer(jobs[page[index]]);
        offers := offers + [offer];
        if offer.canCancel || offer.canPause { jobIds := jobIds + {page[index]}; }
      }
      if jobIds == {} { return; }
      var committing := CommittingJobs(jobIds);
      ghost var suggested := offers;
      for index := 0 to |page|
        invariant |offers| == |page|
        invariant forall i | 0 <= i < index :: offers[i] == Capabilities.ListOffer(State(), page[i])
        invariant forall i | index <= i < |page| :: offers[i] == suggested[i]
      {
        if page[index] in committing {
          offers := offers[index := offers[index].(canCancel := false, canPause := false)];
        }
      }
    }

    /** The jobs among the given ones with a task past its commit point. */
    method CommittingJobs(jobIds: set<nat>) returns (committing: set<nat>)
      ensures forall j: nat :: j in committing <==> j in jobIds && Committing(tasks, j)
    {
      committing := {};
      for i := 0 to |tasks|
        invariant forall j: nat :: j in committing <==> j in jobIds && Committing(tasks[..i], j)
      {
        var r := tasks[i];
        assert tasks[..i + 1] == tasks[..i] + [r];
        forall j: nat
          ensures Committing(tasks[..i + 1], j) <==>
                    Committing(tasks[..i], j) || (r.jobId == j && r.commitStarted && InFlight(r.status))
        {
          CommittingMore(tasks[..i], r, j);
        }
        hide Committing;
        if r.jobId in jobIds && r.commitStarted && InFlight(r.status) { committing := committing + {r.jobId}; }
      }
      assert tasks[..|tasks|] == tasks;
    }

    method PauseJob(j: nat) returns (verdict: Verdict)
      modifies this`jobs
      ensures verdict == PauseVerdict(old(State()), j)
      ensures State() == PauseStep(old(State()), j)
    {
      hide Settle, Committing;
      if j >= |jobs| { return NotFound; }
      var job := jobs[j];
      if !job.header.pausable || !PausableStatus(job.status) || job.pauseRequested || job.cancelRequested {
        return Conflict;
      }
      var committing := CountCommitting(j);
      if committing > 0 { return CommitStarted; }
      jobs := jobs[j := job.(pauseRequested := true)];
      RecomputeJob(j);
      verdict := Ok;
    }

    method ResumeJob(j: nat) returns (verdict: Verdict)
      modifies this`jobs
      ensures verdict == ResumeVerdict(old(State()), j)
      ensures State() == ResumeStep(old(State()), j)
    {
      hide Settle;
      if j >= |jobs| { return NotFound; }
      if !jobs[j].status.JobPauseRequested? && !jobs[j].status.JobPaused? { return Conflict; }
      jobs := jobs[j := jobs[j].(pauseRequested := false)];
      RecomputeJob(j);
      verdict := Ok;
    }

    method RunJobNow(j: nat) returns (verdict: Verdict)
      modifies this`jobs, this`tasks
      ensures verdict == RunNowVerdict(old(State()), j)
      ensures State() == RunNowStep(old(State()), j)
    {
      hide Settle;
      if j >= |jobs| { return NotFound; }
      if !jobs[j].status.JobQueued? || jobs[j].pauseRequested || jobs[j].cancelRequested { return Conflict; }
      var rowsAffected := 0;
      var rows := tasks;
      for t := 0 to |tasks|
        invariant |rows| == |tasks| && unchanged(this)
        invariant forall u | 0 <= u < t :: rows[u] == ReleasedTask(tasks[u], j, now)
        invariant forall u | t <= u < |tasks| :: rows[u] == tasks[u]
        invariant rowsAffected > 0 <==> exists u :: 0 <= u < t && Scheduled(tasks[u], j, now)
      {
        var r := rows[t];
        if r.jobId == j && r.status.TaskQueued? && r.runAfter.Some? && r.runAfter.value > now {
          rows := rows[t := r.(runAfter := None)];
          rowsAffected := rowsAffected + 1;
        }
      }
      if rowsAffected == 0 { return Conflict; }
      tasks := rows;
      assert State() == Released(old(State()), j);
      RecomputeJob(j);
      verdict := Ok;
    }

    /** Two updates in sequence: waiting tasks are cancelled, running ones asked to stop. */
    method CancelJob(j: nat) returns (verdict: Verdict)
      modifies this`jobs, this`tasks
      ensures verdict == CancelJobVerdict(old(State()), j)
      ensures State() == CancelJobStep(old(State()), j)
    {
      hide Settle, Committing;
      if j >= |jobs| { return NotFound; }
      if TerminalJob(jobs[j].status) { return Conflict; }
      var committing := CountCommitting(j);
      if committing > 0 { return CommitStarted; }
      jobs := jobs[j := jobs[j].(status := JobCancelRequested, cancelRequested := true, pauseRequested := false)];
      tasks := seq(|tasks|, t requires 0 <= t < |tasks| reads this =>
        if tasks[t].jobId == j && Waiting(tasks[t].status) then tasks[t].(status := TaskCanceled) else tasks[t]);
      tasks := seq(|tasks|, t requires 0 <= t < |tasks| reads this =>
        if tasks[t].jobId == j && tasks[t].status.TaskRunning?
        then tasks[t].(status := TaskCancelRequested, cancelRequested := true) else tasks[t]);
      assert State() == CanceledJob(old(State()), j);
      RecomputeJob(j);
      verdict := Ok;
    }

    method CancelTask(t: nat) returns (verdict: Verdict)
      modifies this`jobs, this`tasks
      ensures verdict == CancelTaskVerdict(old(State()), t)
      ensures State() == CancelTaskStep(old(State()), t)
    {
      hide Settle;
      if t >= |tasks| { return NotFound; }
      var loaded := tasks[t];
      if TerminalTask(loaded.status) { return Conflict; }
      if loaded.commitStarted { return CommitStarted; }
      if loaded.status.TaskRunning? || loaded.status.TaskCancelRequested? {
        tasks := tasks[t := loaded.(status := TaskCancelRequested, cancelRequested := true)];
      } else {
        tasks := tasks[t := loaded.(status := TaskCanceled)];
      }
      RecomputeJob(loaded.jobId);
      verdict := Ok;
    }

    method RetryJob(j: nat) returns (verdict: Verdict)
      modifies this`jobs, this`tasks
      ensures verdict == RetryJobVerdict(old(State()), j)
      ensures State() == RetryJobStep(old(State()), j)
    {
      hide Settle, RetriedTask;
      if j >= |jobs| { return NotFound; }
      if !jobs[j].status.JobFailed? && !jobs[j].status.JobCanceled? && !jobs[j].status.JobSucceededWithWarnings? {
        return Conflict;
      }
      var rowsAffected := 0;
      var rows := tasks;
      for t := 0 to |tasks|
        invariant |rows| == |tasks| && unchanged(this)
        invariant forall u | 0 <= u < t :: rows[u] == RetriedRow(tasks[u], j)
        invariant forall u | t <= u < |tasks| :: rows[u] == tasks[u]
        invariant rowsAffected > 0 <==> exists u :: 0 <= u < t && tasks[u].jobId == j && Retryable(tasks[u].status)
      {
        if rows[t].jobId == j && Retryable(rows[t].status) {
          rows := rows[t := RetriedTask(rows[t])];
          rowsAffected := rowsAffected + 1;
        }
      }
      if rowsAffected == 0 { return Conflict; }
      jobs := jobs[j := jobs[j].(status := JobQueued, cancelRequested := false, pauseRequested := false)];
      tasks := rows;
      assert State() == RetriedJob(old(State()), j);
      RecomputeJob(j);
      verdict := Ok;
    }

    method RetryTask(t: nat) returns (verdict: Verdict)
      modifies this`jobs, this`tasks
      ensures verdict == RetryTaskVerdict(old(State()), t)
      ensures State() == RetryTaskStep(old(State()), t)
    {
      hide Settle;
      if t >= |tasks| { return NotFound; }
      var task := tasks[t];
      if !task.status.TaskFailed? && !task.status.TaskCanceled? { return Conflict; }
      if task.jobId >= |jobs| { return NotFound; }
      tasks := tasks[t := task.(status := TaskQueued, runAfter := None, cancelRequested := false,
                                commitStarted := false, progress := 0, maxAttempts := task.attemptCount + 4)];
      jobs := jobs[task.jobId := jobs[task.jobId].(cancelRequested := false)];
      RecomputeJob(task.jobId);
      verdict := Ok;
    }

    // -------------------------------------------------------------- recovery

    method Heartbeat()
      modifies this`tasks
      ensures State() == HeartbeatStep(old(State()))
    {
      tasks := seq(|tasks|, t requires 0 <= t < |tasks| reads this =>
        if t in active && InFlight(tasks[t].status) then tasks[t].(heartbeatAt := Some(now)) else tasks[t]);
    }

    /** Reclaim, one by one, the tasks whose heartbeat expired without a live worker. */
    method ReclaimTasks(before: int) returns (stale: set<nat>)
      modifies this`tasks, this`attempts
      ensures State() == Reclaimed(old(State()), before)
      ensures stale == StaleTasks(old(State()), before)
    {
      hide Reclaimed, StaleTasks;
      ghost var start := State();
      var candidates := tasks;
      stale := {};
      ghost var how := StaleBelow(start, before, 0);
      assert how == map[] && Close(attempts, how) == attempts;
      for t := 0 to |candidates|
        invariant |tasks| == |candidates| && how == StaleBelow(start, before, t) && stale == how.Keys
        invariant forall u | u in how :: u < t && !how[u].AttemptRunning?
        invariant attempts == Close(start.attempts, how)
        invariant forall u | 0 <= u < t :: tasks[u] == ReclaimedRow(start, u, before)
        invariant forall u | t <= u < |candidates| :: tasks[u] == candidates[u]
      {
        assert StaleTask(start, t, before) <==>
          InFlight(tasks[t].status) && (tasks[t].heartbeatAt.None? || tasks[t].heartbeatAt.value < before)
          && t !in active;
        hide Close, StaleBelow, StaleRow, StaleTask, StaleAttempt, InFlight;
        var task := candidates[t];
        StaleBelowStep(start, before, t);
        if InFlight(task.status) && (task.heartbeatAt.None? || task.heartbeatAt.value < before) && t !in active {
          CloseMore(start.attempts, how, t, StaleAttempt(task));
          tasks := tasks[t := StaleRow(task)];
          attempts := Close(attempts, map[t := StaleAttempt(task)]);
          stale := stale + {t};
          how := how[t := StaleAttempt(task)];
        }
      }
      ReclaimDone(start, before, tasks);
    }

    /** Reclaim stale tasks, then recompute their jobs. */
    method RecoverStale(before: int)
      modifies this`jobs, this`tasks, this`attempts
      ensures State() == RecoverStaleStep(old(State()), before)
    {
      hide Settle, StaleTask, StaleRow, Close;
      var candidates := tasks;
      var stale := ReclaimTasks(before);
      var touched := set t | t in stale && t < |candidates| :: candidates[t].jobId;
      assert touched == set t | t in StaleTasks(old(State()), before) :: old(State()).tasks[t].jobId;
      RecomputeJobs(touched);
    }

    /** Recompute a set of jobs one by one, in any order. */
    method RecomputeJobs(touched: set<nat>)
      modifies this`jobs
      ensures State() == Settle(old(State()), touched)
    {
      hide Settle;
      SettleNone(State());
      var rest := touched;
      assert touched - rest == {};
      while rest != {}
        invariant rest <= touched
        invariant State() == Settle(old(State()), touched - rest)
        decreases rest
      {
        var j :| j in rest;
        SettleMore(old(State()), touched - rest, j);
        RecomputeJob(j);
        assert touched - (rest - {j}) == (touched - rest) + {j};
        rest := rest - {j};
      }
      assert touched - rest == touched;
    }

    /** Three updates in sequence sort out the tasks a previous process left in flight; then every
        job whose stored status is recoverable is recomputed. */
    method Recover()
      modifies this`jobs, this`tasks, this`attempts
      ensures State() == RecoverStep(old(State()))
    {
      if active != map[] { return; }
      ghost var start := State();
      attempts := InterruptRunning(attempts);
      tasks := seq(|tasks|, t requires 0 <= t < |tasks| reads this =>
        if InFlight(tasks[t].status) && tasks[t].commitStarted
        then tasks[t].(status := TaskFailed, heartbeatAt := None) else tasks[t]);
      tasks := seq(|tasks|, t requires 0 <= t < |tasks| reads this =>
        if tasks[t].status.TaskCancelRequested? && !tasks[t].commitStarted
        then tasks[t].(status := TaskCanceled, heartbeatAt := None) else tasks[t]);
      tasks := seq(|tasks|, t requires 0 <= t < |tasks| reads this =>
        if tasks[t].status.TaskRunning? && !tasks[t].commitStarted
        then tasks[t].(status := TaskQueued, maxAttempts := tasks[t].maxAttempts + 1, runAfter := None,
                       heartbeatAt := None, cancelRequested := false) else tasks[t]);
      assert State() == Recovered(start);
      var recoverable := set j | 0 <= j < |jobs| && RecoverableStatus(jobs[j].status);
      RecomputeJobs(recoverable);
    }
  }
}
