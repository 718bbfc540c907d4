/** What each operation of the runtime does to the tables, in the terms of the request, the handler's result
    and the rows before. */
module Effects {
  import opened Common
  import opened BackgroundTypes
  import opened RuntimeSteps
  import opened TableLemmas
  import opened RuntimeGuarantees

  const DEFAULT_ATTEMPTS := 4

  // ---------------------------------------------------------------- creation

  /** The attempts a task is granted: those asked for, or the default. */
  function Grant(spec: TaskSpec): int {
    if spec.maxAttempts >= 1 then spec.maxAttempts else DEFAULT_ATTEMPTS
  }

  /** A row that does what the task of a request or a follow-up asks for. */
  predicate Fulfils(r: Task, spec: TaskSpec, j: nat, parent: Option<nat>, now: int) {
    && r.jobId == j && r.header.parent == parent && r.header.createdAt == now
    && r.header.kind == spec.kind && r.header.queue == spec.queue && r.header.payload == spec.payload
    && r.header.dedupeKey == spec.dedupeKey && r.header.priority == spec.priority
    && r.header.required == spec.required
    && r.header.weight == (if spec.weight >= 1 then spec.weight else 1)
    && r.status.TaskQueued? && r.progress == 0 && r.attemptCount == 0
    && r.maxAttempts == Grant(spec)
    && r.runAfter == spec.runAfter && r.heartbeatAt.None? && !r.cancelRequested && !r.commitStarted
  }

  /** An accepted request adds one queued job and one row for each of its tasks, as asked, and nothing else. */
  lemma RequestCreated(db: Db, spec: JobSpec)
    requires EnqueueVerdict(db, spec).Created?
    ensures var post := Apply(db, Enqueue(spec));
      && post == db.(jobs := post.jobs, tasks := post.tasks)
      && |post.jobs| == |db.jobs| + 1 && post.jobs[..|db.jobs|] == db.jobs
      && post.jobs[|db.jobs|] == Job(spec.header, spec.idempotencyKey, JobQueued, 0, false, false)
      && |post.tasks| == |db.tasks| + |spec.tasks| && post.tasks[..|db.tasks|] == db.tasks
      && forall i | 0 <= i < |spec.tasks| ::
           Fulfils(post.tasks[|db.tasks| + i], spec.tasks[i], |db.jobs|, None, db.now)
  {
    hide EnqueueVerdict;
  }

  /** Which requests are accepted: those with a kind and at least one task, whose tasks have a kind and a queue
      and different keys, and whose own key, if any, is free. */
  lemma RequestAccepted(db: Db, spec: JobSpec)
    ensures EnqueueVerdict(db, spec).Created? <==>
              && !Blank(spec.header.kind) && |spec.tasks| >= 1
              && (forall i | 0 <= i < |spec.tasks| :: !Blank(spec.tasks[i].kind) && !Blank(spec.tasks[i].queue))
              && (forall i, k | 0 <= i < k < |spec.tasks| :: spec.tasks[i].dedupeKey != spec.tasks[k].dedupeKey)
              && (spec.idempotencyKey == ""
                  || forall j | 0 <= j < |db.jobs| :: db.jobs[j].idempotencyKey != spec.idempotencyKey)
    ensures !EnqueueVerdict(db, spec).Created? ==> Apply(db, Enqueue(spec)) == db
  {
  }

  /** The first follow-up with a key. */
  function FirstWith(specs: seq<TaskSpec>, key: string): Option<TaskSpec> {
    if specs == [] then None
    else
      match FirstWith(specs[..|specs| - 1], key)
      case Some(spec) => Some(spec)
      case None => if specs[|specs| - 1].dedupeKey == key then Some(specs[|specs| - 1]) else None
  }

  predicate HasKey(tasks: seq<Task>, j: nat, key: string) {
    exists t | 0 <= t < |tasks| :: tasks[t].jobId == j && tasks[t].header.dedupeKey == key
  }

  lemma {:induction false} FirstWithExact(specs: seq<TaskSpec>, key: string)
    ensures FirstWith(specs, key).Some? <==> exists i | 0 <= i < |specs| :: specs[i].dedupeKey == key
    ensures FirstWith(specs, key).Some? ==>
              exists i | 0 <= i < |specs| ::
                && specs[i] == FirstWith(specs, key).value && specs[i].dedupeKey == key
                && forall k | 0 <= k < i :: specs[k].dedupeKey != key
  {
    if specs == [] {
    } else {
      var front := specs[..|specs| - 1];
      FirstWithExact(front, key);
      if FirstWith(front, key).Some? {
        var i :| 0 <= i < |front| && front[i] == FirstWith(front, key).value && front[i].dedupeKey == key
          && forall k | 0 <= k < i :: front[k].dedupeKey != key;
        assert specs[i] == front[i] && forall k | 0 <= k < i :: specs[k] == front[k];
      } else {
        assert forall k | 0 <= k < |front| :: specs[k] == front[k];
      }
    }
  }

  /** What inserting follow-ups does: a row for the first of each key that was free, in order, and no other. */
  ghost predicate FollowedUp(before: seq<Task>, after: seq<Task>, specs: seq<TaskSpec>, j: nat, parent: nat, now: int) {
    && |before| <= |after| && after[..|before|] == before
    && (forall t | |before| <= t < |after| ::
          && FirstWith(specs, after[t].header.dedupeKey).Some?
          && Fulfils(after[t], FirstWith(specs, after[t].header.dedupeKey).value, j, Some(parent), now)
          && !HasKey(before, j, after[t].header.dedupeKey))
    && (forall t, u | |before| <= t < u < |after| :: after[t].header.dedupeKey != after[u].header.dedupeKey)
    && (forall i | 0 <= i < |specs| :: HasKey(after, j, specs[i].dedupeKey))
  }

  lemma {:induction false} ChildrenInserted(tasks: seq<Task>, j: nat, parent: nat, specs: seq<TaskSpec>, now: int)
    ensures FollowedUp(tasks, InsertChildren(tasks, j, parent, specs, now), specs, j, parent, now)
  {
    if specs == [] {
    } else {
      var front, last := specs[..|specs| - 1], specs[|specs| - 1];
      var rows := InsertChildren(tasks, j, parent, front, now);
      ChildrenInserted(tasks, j, parent, front, now);
      ChildInserted(tasks, rows, front, last, j, parent, now);
      assert front + [last] == specs;
    }
  }

  lemma ChildInserted(tasks: seq<Task>, rows: seq<Task>, front: seq<TaskSpec>, last: TaskSpec, j: nat, parent: nat,
                      now: int)
    requires FollowedUp(tasks, rows, front, j, parent, now)
    ensures FollowedUp(tasks, if Taken(rows, j, last.dedupeKey) then rows
                              else rows + [NewTask(j, Some(parent), last, now)], front + [last], j, parent, now)
  {
    if Taken(rows, j, last.dedupeKey) {
      FirstStays(front, last);
      KeysStay(rows, rows, front, last, j);
    } else {
      ChildAdded(tasks, rows, front, last, j, parent, now);
    }
  }

  lemma FirstStays(front: seq<TaskSpec>, last: TaskSpec)
    ensures forall key :: FirstWith(front, key).Some? ==> FirstWith(front + [last], key) == FirstWith(front, key)
    ensures FirstWith(front, last.dedupeKey).None? ==> FirstWith(front + [last], last.dedupeKey) == Some(last)
  {
    var specs := front + [last];
    assert specs[..|specs| - 1] == front;
  }

  lemma KeysStay(rows: seq<Task>, after: seq<Task>, front: seq<TaskSpec>, last: TaskSpec, j: nat)
    requires |rows| <= |after| && after[..|rows|] == rows && HasKey(after, j, last.dedupeKey)
    requires forall i | 0 <= i < |front| :: HasKey(rows, j, front[i].dedupeKey)
    ensures forall i | 0 <= i < |front + [last]| :: HasKey(after, j, (front + [last])[i].dedupeKey)
  {
    forall i | 0 <= i < |front| ensures HasKey(after, j, front[i].dedupeKey) {
      KeyStays(rows, after, j, front[i].dedupeKey);
    }
  }

  lemma KeyStays(rows: seq<Task>, after: seq<Task>, j: nat, key: string)
    requires |rows| <= |after| && after[..|rows|] == rows && HasKey(rows, j, key)
    ensures HasKey(after, j, key)
  {
    var t :| 0 <= t < |rows| && rows[t].jobId == j && rows[t].header.dedupeKey == key;
    assert after[t] == after[..|rows|][t];
  }

  lemma NewTaskFulfils(j: nat, parent: Option<nat>, spec: TaskSpec, now: int)
    ensures var r := NewTask(j, parent, spec, now);
      Fulfils(r, spec, j, parent, now) && r.jobId == j && r.header.dedupeKey == spec.dedupeKey
  {
  }

  lemma ChildAdded(tasks: seq<Task>, rows: seq<Task>, front: seq<TaskSpec>, last: TaskSpec, j: nat, parent: nat,
                   now: int)
    requires FollowedUp(tasks, rows, front, j, parent, now) && !Taken(rows, j, last.dedupeKey)
    ensures FollowedUp(tasks, rows + [NewTask(j, Some(parent), last, now)], front + [last], j, parent, now)
  {
    var after := rows + [NewTask(j, Some(parent), last, now)];
    NewTaskFulfils(j, Some(parent), last, now);
    hide NewTask, Fulfils;
    FirstStays(front, last);
    assert FirstWith(front, last.dedupeKey).None? by { FirstWithExact(front, last.dedupeKey); }
    assert HasKey(after, j, last.dedupeKey) by { assert after[|rows|].header.dedupeKey == last.dedupeKey; }
    KeysStay(rows, after, front, last, j);
    hide FirstWith;
    assert !HasKey(tasks, j, last.dedupeKey) by {
      assert forall t | 0 <= t < |tasks| :: rows[..|tasks|][t] == rows[t];
    }
  }

  // ---------------------------------------------------------------- claim

  /** A claim on a queue that is not paused, has capacity left and a claimable task starts the next attempt of
      one such task, on a worker of its own, and writes nothing else to tasks and attempts. */
  lemma ClaimStarts(db: Db, queue: string) returns (t: nat)
    requires queue !in db.pausedQueues && |Workers(db, queue)| < Slots(db.limits, queue)
    requires exists a :: Claimable(db, queue, a)
    ensures Claimable(db, queue, t)
    ensures var (r, post) := (db.tasks[t], Apply(db, Claim(queue)));
      && post.tasks == db.tasks[t := r.(status := TaskRunning, attemptCount := r.attemptCount + 1, runAfter := None,
                                        heartbeatAt := Some(db.now), commitStarted := false)]
      && post.attempts == db.attempts + [Attempt(t, r.attemptCount + 1, AttemptRunning)]
      && post.active == db.active[t := |db.attempts|]
  {
    SettleKeeps();
    hide Settle, Precedes, Workers;
    var best := Best(db, queue, |db.tasks|);
    t := best.value;
  }

  /** Otherwise it changes nothing. */
  lemma ClaimIdle(db: Db, queue: string)
    requires queue in db.pausedQueues || |Workers(db, queue)| >= Slots(db.limits, queue)
          || !exists a :: Claimable(db, queue, a)
    ensures Apply(db, Claim(queue)) == db
  {
    hide Settle, Precedes, Workers, Claimed;
  }

  // ---------------------------------------------------------------- the end of a worker

  /** A cancellation that was requested before the commit point decides over success and pause. */
  predicate Overruled(r: Task, outcome: Outcome) {
    && r.status.TaskCancelRequested? && !r.commitStarted
    && (outcome.Success? || outcome.err.Paused?)
  }

  /** How long a task waits: what the handler asked for, at most a quarter of an hour, or else five seconds,
      half a minute and two minutes after the first, the second and any later attempt. */
  function Delay(attempt: int, asked: int): int {
    if asked > 900 * SECOND then 900 * SECOND
    else if asked > 0 then asked
    else if attempt == 1 then 5 * SECOND
    else if attempt == 2 then 30 * SECOND
    else 120 * SECOND
  }

  predicate EndsAs(r: Task, s: Task, outcome: Outcome, now: int) {
    var retry := r.attemptCount < r.maxAttempts;
    && s.heartbeatAt.None?
    && s.header == r.header && s.jobId == r.jobId && s.attemptCount == r.attemptCount
    && s.commitStarted == r.commitStarted
    && (if Overruled(r, outcome) then s.status.TaskCanceled? && s.maxAttempts == r.maxAttempts
        else match outcome
          case Success(_) => s.status.TaskSucceeded? && s.progress == 10000 && s.maxAttempts == r.maxAttempts
          case Failure(Canceled, _) => s.status.TaskCanceled? && s.maxAttempts == r.maxAttempts
          case Failure(Permanent, _) => s.status.TaskFailed? && s.maxAttempts == r.maxAttempts
          case Failure(Transient, asked) =>
            && s.maxAttempts == r.maxAttempts
            && (if retry then s.status.TaskRetryWait? && s.runAfter == Some(now + Delay(r.attemptCount, asked))
                else s.status.TaskFailed?)
          case Failure(Deferred, asked) =>
            && s.status.TaskRetryWait? && s.runAfter == Some(now + Delay(r.attemptCount, asked))
            && s.maxAttempts == r.maxAttempts + 1
          case Failure(Paused, _) =>
            s.status.TaskQueued? && s.runAfter.None? && !s.cancelRequested && s.maxAttempts == r.maxAttempts + 1
          case Failure(Interrupted, _) =>
            s.status.TaskQueued? && s.runAfter.None? && !s.cancelRequested && s.maxAttempts == r.maxAttempts + 1)
    && (!s.status.TaskSucceeded? ==> s.progress == r.progress)
  }

  function EndOfAttempt(r: Task, outcome: Outcome): AttemptStatus {
    if Overruled(r, outcome) then AttemptCanceled
    else match outcome
      case Success(_) => AttemptSucceeded
      case Failure(Canceled, _) => AttemptCanceled
      case Failure(Permanent, _) => AttemptFailed
      case Failure(Transient, _) => AttemptFailed
      case Failure(Deferred, _) => AttemptInterrupted
      case Failure(Paused, _) => AttemptInterrupted
      case Failure(Interrupted, _) => AttemptInterrupted
  }

  /** The end of a worker settles its row and its attempt by the handler's result, ends no other, and, on a
      success that counts, creates the follow-ups whose keys are free. */
  lemma WorkerEnds(db: Db, t: nat, outcome: Outcome)
    requires t in db.active && t < |db.tasks| && InFlight(db.tasks[t].status) && db.active[t] < |db.attempts|
    ensures t < |Apply(db, Finish(t, outcome)).tasks|
    ensures var (r, post) := (db.tasks[t], Apply(db, Finish(t, outcome)));
      var ended := db.tasks[t := post.tasks[t]];
      && EndsAs(r, post.tasks[t], outcome, db.now)
      && post.active == db.active - {t}
      && post.attempts == db.attempts[db.active[t] := db.attempts[db.active[t]].(status := EndOfAttempt(r, outcome))]
      && FollowedUp(ended, post.tasks, if outcome.Success? && !Overruled(r, outcome) then outcome.children else [],
                    r.jobId, t, db.now)
  {
    var r := db.tasks[t];
    var effective := Effective(r, outcome);
    RowEnds(r, outcome, db.now);
    SettleKeeps();
    var ended := db.tasks[t := FinishedTask(r, effective, db.now)];
    ChildrenInserted(ended, r.jobId, t, ChildrenOf(effective), db.now);
    hide Settle, InsertChildren, FinishedTask, EndsAs, FollowedUp, FinishedAttempt;
    Kept(ended, InsertChildren(ended, r.jobId, t, ChildrenOf(effective), db.now), ChildrenOf(effective), r.jobId, t,
         db.now);
  }

  lemma Kept(before: seq<Task>, after: seq<Task>, specs: seq<TaskSpec>, j: nat, parent: nat, now: int)
    requires FollowedUp(before, after, specs, j, parent, now)
    ensures |before| <= |after| && forall t | 0 <= t < |before| :: after[t] == before[t]
  {
    assert forall t | 0 <= t < |before| :: after[..|before|][t] == after[t];
  }

  lemma RowEnds(r: Task, outcome: Outcome, now: int)
    ensures EndsAs(r, FinishedTask(r, Effective(r, outcome), now), outcome, now)
    ensures FinishedAttempt(Effective(r, outcome)) == EndOfAttempt(r, outcome)
    ensures ChildrenOf(Effective(r, outcome))
         == if outcome.Success? && !Overruled(r, outcome) then outcome.children else []
  {
  }

  // ---------------------------------------------------------------- a running worker

  /** The task table with row t rewritten. */
  predicate OnlyRow(before: seq<Task>, after: seq<Task>, t: nat, r: Task) {
    t < |before| && after == before[t := r]
  }

  /** A commit begins for a live worker of a running task that nobody asked to stop. */
  lemma CommitBegins(db: Db, t: nat)
    ensures if t in db.active && t < |db.tasks| && db.tasks[t].status.TaskRunning? && !db.tasks[t].cancelRequested
               && OpenJob(db, db.tasks[t].jobId)
            then OnlyRow(db.tasks, Apply(db, BeginCommit(t)).tasks, t, db.tasks[t].(commitStarted := true))
            else Apply(db, BeginCommit(t)) == db
  {
    SettleKeeps();
    hide Settle;
  }

  /** A report writes its clamped value and a heartbeat. */
  lemma ProgressReported(db: Db, t: nat, fraction: real)
    requires t in db.active && t < |db.tasks| && InFlight(db.tasks[t].status)
    ensures var value := (fraction * 10000.0).Floor;
      OnlyRow(db.tasks, Apply(db, ReportProgress(t, fraction)).tasks, t,
              db.tasks[t].(progress := if value < 0 then 0 else if value <= 9999 then value else 9999,
                           heartbeatAt := Some(db.now)))
  {
    SettleKeeps();
    hide Settle;
  }

  /** The heartbeat reaches every live worker's row in flight and no other. */
  lemma HeartbeatWritten(db: Db, t: nat)
    requires t < |db.tasks|
    ensures |Apply(db, Heartbeat).tasks| == |db.tasks|
    ensures Apply(db, Heartbeat).tasks[t]
         == if t in db.active && InFlight(db.tasks[t].status) then db.tasks[t].(heartbeatAt := Some(db.now))
            else db.tasks[t]
  {
  }

  // ---------------------------------------------------------------- operator commands

  /** Work that was scheduled for later is claimable at once. */
  lemma RunNowReleases(db: Db, j: nat, t: nat)
    requires RunNowVerdict(db, j).Ok? && t < |db.tasks| && db.tasks[t].jobId == j && db.tasks[t].status.TaskQueued?
    ensures Claimable(Apply(db, RunJobNow(j)), db.tasks[t].header.queue, t)
  {
    SettleKeeps();
    hide Settle;
  }

  /** And the start times of other rows stay. */
  lemma RunNowElsewhere(db: Db, j: nat, t: nat)
    requires t < |db.tasks| && (db.tasks[t].jobId != j || !db.tasks[t].status.TaskQueued?)
    ensures |Apply(db, RunJobNow(j)).tasks| == |db.tasks| && Apply(db, RunJobNow(j)).tasks[t] == db.tasks[t]
  {
    SettleKeeps();
    hide Settle;
  }

  /** What an accepted cancellation makes of a row of the job. */
  predicate CancelledAs(r: Task, s: Task) {
    if r.status.TaskQueued? || r.status.TaskRetryWait? then s == r.(status := TaskCanceled)
    else if r.status.TaskRunning? then s == r.(status := TaskCancelRequested, cancelRequested := true)
    else s == r
  }

  /** An accepted cancellation cancels what waits, asks what runs to stop, and leaves the rest alone. */
  lemma CancelReaches(db: Db, j: nat)
    requires CancelJobVerdict(db, j).Ok?
    ensures var post := Apply(db, CancelJob(j));
      && post.jobs[j].cancelRequested && |post.tasks| == |db.tasks|
      && (forall t | 0 <= t < |db.tasks| && db.tasks[t].jobId == j :: CancelledAs(db.tasks[t], post.tasks[t]))
      && (forall t | 0 <= t < |db.tasks| && db.tasks[t].jobId != j :: post.tasks[t] == db.tasks[t])
      && post.attempts == db.attempts && post.active == db.active
  {
    SettleKeeps();
    hide Settle, Committing;
  }

  /** The cancellation of one task reaches it unless it has ended or is committing. */
  lemma CancelTaskReaches(db: Db, t: nat)
    ensures if t < |db.tasks| && !db.tasks[t].commitStarted && !db.tasks[t].status.TaskSucceeded?
               && !db.tasks[t].status.TaskFailed? && !db.tasks[t].status.TaskCanceled?
            then
              var r := db.tasks[t];
              OnlyRow(db.tasks, Apply(db, CancelTask(t)).tasks, t,
                      if r.status.TaskRunning? || r.status.TaskCancelRequested?
                      then r.(status := TaskCancelRequested, cancelRequested := true)
                      else r.(status := TaskCanceled))
            else Apply(db, CancelTask(t)) == db
  {
    SettleKeeps();
    hide Settle;
  }

  /** A row a manual retry queues again, with four more attempts. */
  function Again(r: Task): Task {
    r.(status := TaskQueued, runAfter := None, cancelRequested := false, commitStarted := false, progress := 0,
       maxAttempts := r.attemptCount + 4)
  }

  lemma RetryReaches(db: Db, j: nat)
    requires RetryJobVerdict(db, j).Ok?
    ensures var post := Apply(db, RetryJob(j));
      && !post.jobs[j].cancelRequested && !post.jobs[j].pauseRequested && |post.tasks| == |db.tasks|
      && forall t | 0 <= t < |db.tasks| ::
           post.tasks[t] ==
             if db.tasks[t].jobId == j && (db.tasks[t].status.TaskFailed? || db.tasks[t].status.TaskCanceled?)
             then Again(db.tasks[t]) else db.tasks[t]
  {
    SettleKeeps();
    hide Settle;
  }

  lemma RetryTaskReaches(db: Db, t: nat)
    requires t < |db.tasks| && db.tasks[t].jobId < |db.jobs|
    ensures var (r, post) := (db.tasks[t], Apply(db, RetryTask(t)));
      if r.status.TaskFailed? || r.status.TaskCanceled?
      then OnlyRow(db.tasks, post.tasks, t, Again(r)) && !post.jobs[r.jobId].cancelRequested
      else post == db
  {
    SettleKeeps();
    hide Settle;
  }

  // ---------------------------------------------------------------- lost workers

  /** What becomes of a row whose worker is gone: committed work has failed, cancelled work is cancelled, and
      other work waits with one more attempt to make up for the lost one. */
  predicate LostAs(r: Task, s: Task) {
    && s.heartbeatAt.None? && s.header == r.header && s.jobId == r.jobId && s.attemptCount == r.attemptCount
    && s.progress == r.progress && s.commitStarted == r.commitStarted
    && (if r.commitStarted then s.status.TaskFailed? && s.maxAttempts == r.maxAttempts
        else if r.status.TaskCancelRequested? then s.status.TaskCanceled? && s.maxAttempts == r.maxAttempts
        else && s.status.TaskQueued? && s.runAfter.None? && !s.cancelRequested
             && s.maxAttempts == r.maxAttempts + 1)
  }

  /** A crash and the restart after it settle every row in flight and close every running attempt. */
  lemma RestartSettles(db: Db)
    ensures var post := Apply(Apply(db, Crash), Recover);
      && post.active == map[] && |post.tasks| == |db.tasks| && |post.attempts| == |db.attempts|
      && (forall t | 0 <= t < |db.tasks| ::
            if InFlight(db.tasks[t].status) then LostAs(db.tasks[t], post.tasks[t]) else post.tasks[t] == db.tasks[t])
      && (forall a | 0 <= a < |db.attempts| ::
            post.attempts[a] ==
              if db.attempts[a].status.AttemptRunning? then db.attempts[a].(status := AttemptInterrupted)
              else db.attempts[a])
  {
    SettleKeeps();
    hide Settle;
  }

  /** The task of a worker that is gone and has not been heard of since `before`. */
  predicate Unheard(db: Db, t: nat, before: int) {
    && t < |db.tasks| && t !in db.active
    && (db.tasks[t].status.TaskRunning? || db.tasks[t].status.TaskCancelRequested?)
    && (db.tasks[t].heartbeatAt.None? || db.tasks[t].heartbeatAt.value < before)
  }

  /** An expired heartbeat settles a row as a restart does, and closes its attempt as cancelled if it was. */
  lemma ExpirySettles(db: Db, before: int)
    ensures var post := Apply(db, RecoverStale(before));
      && post.active == db.active && |post.tasks| == |db.tasks| && |post.attempts| == |db.attempts|
      && (forall t | 0 <= t < |db.tasks| ::
            if Unheard(db, t, before) then LostAs(db.tasks[t], post.tasks[t]) else post.tasks[t] == db.tasks[t])
      && (forall a | 0 <= a < |db.attempts| ::
            var (r, t) := (db.attempts[a], db.attempts[a].taskId);
            post.attempts[a] ==
              if r.status.AttemptRunning? && Unheard(db, t, before) then
                r.(status := if db.tasks[t].status.TaskCancelRequested? && !db.tasks[t].commitStarted
                             then AttemptCanceled else AttemptInterrupted)
              else r)
  {
    SettleKeeps();
    hide Settle;
  }

  /** After a restart uncommitted work that was running may be claimed at once, as soon as its job is open. */
  lemma RestartRequeues(db: Db, t: nat)
    requires t < |db.tasks| && db.tasks[t].status.TaskRunning? && !db.tasks[t].commitStarted
    ensures var post := Apply(Apply(db, Crash), Recover);
      Claimable(post, db.tasks[t].header.queue, t) <==> OpenJob(post, db.tasks[t].jobId)
  {
    RestartSettles(db);
    hide Apply;
  }
}
