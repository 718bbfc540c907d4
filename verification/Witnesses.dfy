/** Runs that lead to the states in which the runtime does less than its names suggest. */
module Witnesses {
  import opened Common
  import opened BackgroundTypes
  import opened JobReduction
  import opened RuntimeSteps
  import opened RuntimeInvariants
  import opened TableLemmas
  import opened Runs
  import opened RuntimeGuarantees
  import Capabilities
  import Dispatch
  import Retention

  lemma RunThree(db: Db, a: Action, b: Action, c: Action)
    ensures Run(db, [a, b, c]) == Apply(Apply(Apply(db, a), b), c)
  {
    hide Apply;
    assert [a, b, c][..2] == [a, b] && [a, b][..1] == [a] && [a][..0] == [];
    assert Run(db, [a]) == Apply(db, a);
    assert Run(db, [a, b]) == Apply(Apply(db, a), b);
  }

  /** One request with one task, claimed by a worker. */
  lemma OneClaimed(header: JobHeader, spec: TaskSpec)
    requires !Blank(header.kind) && !Blank(spec.kind) && !Blank(spec.queue) && spec.runAfter.None?
    ensures var db := Apply(Apply(Dispatch.Nothing(0), Enqueue(JobSpec(header, "", [spec]))), Claim(spec.queue));
      && |db.jobs| == 1 && db.jobs[0].header == header && OpenJob(db, 0)
      && db.tasks == [ClaimedTask(NewTask(0, None, spec, 0), 0)] && db.active == map[0 := 0]
  {
    var none := Dispatch.Nothing(0);
    var one := EnqueueStep(none, JobSpec(header, "", [spec]));
    Dispatch.OneTask(none, header, spec);
    assert Workers(one, spec.queue) == {};
    assert Claimable(one, spec.queue, 0);
    SettleKeeps();
    hide Settle, Score, Blank;
  }

  /** A pausable job with a task past its commit point. */
  lemma CommittingReached(header: JobHeader, spec: TaskSpec) returns (db: Db)
    requires !Blank(header.kind) && !Blank(spec.kind) && !Blank(spec.queue) && spec.runAfter.None?
    ensures Reachable(db) && |db.jobs| == 1 && db.jobs[0].header == header
    ensures PastCommit(db, 0) && 0 in db.active && Committing(db.tasks, 0)
  {
    var actions := [Enqueue(JobSpec(header, "", [spec])), Claim(spec.queue), BeginCommit(0)];
    db := Run(Dispatch.Nothing(0), actions);
    Dispatch.ReachedBy(0, actions);
    RunThree(Dispatch.Nothing(0), actions[0], actions[1], actions[2]);
    OneClaimed(header, spec);
    hide Run, Reachable;
    var claimed := Apply(Apply(Dispatch.Nothing(0), actions[0]), actions[1]);
    Commits(claimed);
  }

  lemma Commits(db: Db)
    requires |db.jobs| == 1 && OpenJob(db, 0) && |db.tasks| == 1 && db.active == map[0 := 0]
    requires db.tasks[0].jobId == 0 && db.tasks[0].status.TaskRunning? && !db.tasks[0].cancelRequested
    ensures var post := Apply(db, BeginCommit(0));
      && |post.jobs| == 1 && post.jobs[0].header == db.jobs[0].header
      && PastCommit(post, 0) && post.active == db.active && Committing(post.tasks, 0)
  {
    SettleKeeps();
    hide Settle;
    var post := BeginCommitStep(db, 0);
    assert post.tasks[0] in post.tasks;
  }

  /** A worker whose task has been asked to stop. */
  lemma CancellationReached(header: JobHeader, spec: TaskSpec) returns (db: Db)
    requires !Blank(header.kind) && !Blank(spec.kind) && !Blank(spec.queue) && spec.runAfter.None?
    ensures Reachable(db) && |db.tasks| == 1 && db.tasks[0].status.TaskCancelRequested? && 0 in db.active
  {
    var actions := [Enqueue(JobSpec(header, "", [spec])), Claim(spec.queue), CancelTask(0)];
    db := Run(Dispatch.Nothing(0), actions);
    Dispatch.ReachedBy(0, actions);
    RunThree(Dispatch.Nothing(0), actions[0], actions[1], actions[2]);
    OneClaimed(header, spec);
    hide Run, Reachable;
    var claimed := Apply(Apply(Dispatch.Nothing(0), actions[0]), actions[1]);
    Cancels(claimed);
  }

  lemma Cancels(db: Db)
    requires |db.tasks| == 1 && db.tasks[0].status.TaskRunning? && !db.tasks[0].commitStarted
    ensures var post := Apply(db, CancelTask(0));
      |post.tasks| == 1 && post.tasks[0].status.TaskCancelRequested? && post.active == db.active
  {
    SettleKeeps();
    hide Settle;
  }

  lemma Invariants(db: Db)
    requires Reachable(db)
    ensures Live(db) && Fence(db)
  {
    hide Reachable;
    ReachableInv(db);
    Pieces(db);
  }

  /** A reachable job whose detail view offers a pause that is refused. */
  lemma UnsoundOfferReached(header: JobHeader, spec: TaskSpec) returns (db: Db)
    requires !Blank(header.kind) && !Blank(spec.kind) && !Blank(spec.queue) && spec.runAfter.None?
    requires header.pausable
    ensures Reachable(db) && |db.jobs| == 1
    ensures Capabilities.DetailOffer(db, 0).canPause && PauseVerdict(db, 0) == CommitStarted
  {
    db := CommittingReached(header, spec);
    hide Reachable, Committing;
    Capabilities.DetailOfferUnsound(db, 0);
  }

  /** Reachable committed work that goes back to waiting without a manual retry. */
  lemma CommittedWorkRequeued(header: JobHeader, spec: TaskSpec, retryAfter: int) returns (db: Db)
    requires !Blank(header.kind) && !Blank(spec.kind) && !Blank(spec.queue) && spec.runAfter.None?
    ensures Reachable(db) && PastCommit(db, 0) && 0 in db.active
    ensures var post := Apply(db, Finish(0, Failure(Interrupted, retryAfter)));
      |post.tasks| > 0 && Waiting(post.tasks[0].status)
  {
    db := CommittingReached(header, spec);
    hide Reachable, Apply, Waiting;
    Invariants(db);
    CommittedFinish(db, 0, Failure(Interrupted, retryAfter));
  }

  /** A reachable cancellation that does not conclude: the work goes back to waiting. */
  lemma CancellationUndone(header: JobHeader, spec: TaskSpec, retryAfter: int) returns (db: Db)
    requires !Blank(header.kind) && !Blank(spec.kind) && !Blank(spec.queue) && spec.runAfter.None?
    ensures Reachable(db) && |db.tasks| == 1 && db.tasks[0].status.TaskCancelRequested? && 0 in db.active
    ensures var post := Apply(db, Finish(0, Failure(Interrupted, retryAfter)));
      |post.tasks| > 0 && Waiting(post.tasks[0].status)
  {
    db := CancellationReached(header, spec);
    hide Reachable, Apply, Waiting;
    Invariants(db);
    CancelRequestedMayWait(db, 0, Failure(Interrupted, retryAfter));
  }

  // ---------------------------------------------------------------- a retry that retention swallows

  lemma AfterFour(s: Retention.Store, a: Retention.Event, b: Retention.Event, c: Retention.Event,
                  d: Retention.Event)
    ensures Retention.After(s, [a, b, c, d])
         == Retention.Step(Retention.Step(Retention.Step(Retention.Step(s, a), b), c), d)
  {
    hide Retention.Step;
    assert [a, b, c, d][..3] == [a, b, c] && [a, b, c][..2] == [a, b] && [a, b][..1] == [a] && [a][..0] == [];
    assert Retention.After(s, [a]) == Retention.Step(s, a);
    assert Retention.After(s, [a, b]) == Retention.Step(Retention.Step(s, a), b);
  }

  /** A worker fails for good. */
  lemma Fails(db: Db)
    requires |db.jobs| == 1 && |db.tasks| == 1 && db.active == map[0 := 0]
    requires db.tasks[0].jobId == 0 && db.tasks[0].status.TaskRunning?
    ensures var post := Apply(db, Finish(0, Failure(Permanent, 0)));
      && |post.jobs| == 1 && |post.tasks| == 1
      && post.tasks[0].jobId == 0 && post.tasks[0].status.TaskFailed?
  {
    SettleKeeps();
    hide Settle;
  }

  /** A job with failed work is finished, and a retry of it is accepted. */
  lemma FailedJob(db: Db)
    requires Cache(db) && |db.jobs| == 1 && |db.tasks| == 1
    requires db.tasks[0].jobId == 0 && db.tasks[0].status.TaskFailed?
    ensures TerminalJob(db.jobs[0].status) && RetryJobVerdict(db, 0).Ok?
  {
    hide Rows, ProgressOf;
    RowsMembers(db.tasks, 0);
    var rows := Rows(db.tasks, 0);
    assert Cached(db.jobs[0], rows);
    assert db.tasks[0] in rows;
  }

  /** A run to a failed job that retention has selected and whose retry the runtime still accepts: the work
      is queued again, and then deleted. */
  lemma SelectedRetried(header: JobHeader, spec: TaskSpec) returns (s: Retention.Store)
    requires !Blank(header.kind) && !Blank(spec.kind) && !Blank(spec.queue) && spec.runAfter.None?
    ensures Retention.StoreReachable(s) && 0 in s.chosen && 0 !in s.gone
    ensures Retention.RetryAccepted(s.db, RetryJob(0), 0)
    ensures var retried := Retention.Step(s, Retention.Act(RetryJob(0)));
      && |retried.db.tasks| > 0 && retried.db.tasks[0].status.TaskQueued?
      && Retention.GoneTask(Retention.Step(retried, Retention.Delete({0})), 0)
  {
    var first, second, third := Enqueue(JobSpec(header, "", [spec])), Claim(spec.queue),
                                Finish(0, Failure(Permanent, 0));
    s := FailedSelected(first, second, third, header, spec);
    Retention.StoreReachableInv(s);
    hide Retention.StoreInv, Retention.StoreReachable, Retention.Step;
    var t := Retention.RetryLost(s, RetryJob(0), 0);
    OnlyTask(s, t);
  }

  lemma OnlyTask(s: Retention.Store, t: nat)
    requires |s.db.tasks| == 1 && t < |Retention.Step(s, Retention.Act(RetryJob(0))).db.tasks|
    ensures t == 0
  {
    hide Apply, Retention.Barred;
    RetrySize(s.db);
  }

  lemma RetrySize(db: Db)
    ensures |Apply(db, RetryJob(0)).tasks| == |db.tasks|
  {
    SettleKeeps();
    hide Settle;
  }

  function ThreeActs(first: Action, second: Action, third: Action): seq<Retention.Event> {
    [Retention.Act(first), Retention.Act(second), Retention.Act(third), Retention.Select({0})]
  }

  lemma ThreeActsReach(request: JobSpec, queue: string, outcome: Outcome)
    ensures var none := Dispatch.Nothing(0);
      var db := Apply(Apply(Apply(none, Enqueue(request)), Claim(queue)), Finish(0, outcome));
      Retention.After(Retention.Opened(none), ThreeActs(Enqueue(request), Claim(queue), Finish(0, outcome)))
      == Retention.Store(db, {}, Retention.Expired(Retention.Opened(db), {0}), {})
  {
    var start := Retention.Opened(Dispatch.Nothing(0));
    var events := ThreeActs(Enqueue(request), Claim(queue), Finish(0, outcome));
    AfterFour(start, events[0], events[1], events[2], events[3]);
    Unbarred(request, queue);
    hide Apply, Workers, Retention.OrphansOf, Retention.After;
  }

  lemma FailedSelected(first: Action, second: Action, third: Action, header: JobHeader, spec: TaskSpec)
    returns (s: Retention.Store)
    requires !Blank(header.kind) && !Blank(spec.kind) && !Blank(spec.queue) && spec.runAfter.None?
    requires first == Enqueue(JobSpec(header, "", [spec])) && second == Claim(spec.queue)
    requires third == Finish(0, Failure(Permanent, 0))
    ensures Retention.StoreReachable(s) && s.chosen == {0} && s.gone == {} && |s.db.tasks| == 1
    ensures RetryJobVerdict(s.db, 0).Ok?
  {
    hide Apply, Retention.After, ThreeActs, Blank;
    s := Retention.After(Retention.Opened(Dispatch.Nothing(0)), ThreeActs(first, second, third));
    ReachedSo(ThreeActs(first, second, third));
    Retention.StoreReachableInv(s);
    ThreeActsReach(first.spec, second.queue, third.outcome);
    OneClaimed(header, spec);
    Fails(Apply(Apply(Dispatch.Nothing(0), first), second));
    hide Retention.StoreReachable, RetryJobVerdict;
    CacheHolds(s);
    hide Retention.StoreInv;
    FailedJob(s.db);
  }

  lemma CacheHolds(s: Retention.Store)
    requires Retention.StoreInv(s)
    ensures Cache(s.db)
  {
    Pieces(s.db);
  }

  lemma ReachedSo(events: seq<Retention.Event>)
    ensures Retention.StoreReachable(Retention.After(Retention.Opened(Dispatch.Nothing(0)), events))
  {
    hide Retention.After;
    assert Fresh(Dispatch.Nothing(0));
  }

  lemma Unbarred(request: JobSpec, queue: string)
    ensures var one := Retention.Step(Retention.Opened(Dispatch.Nothing(0)), Retention.Act(Enqueue(request)));
      && one == Retention.Opened(Apply(Dispatch.Nothing(0), Enqueue(request)))
      && !Retention.Barred(one, Claim(queue))
  {
    var one := Retention.Opened(Apply(Dispatch.Nothing(0), Enqueue(request)));
    assert Workers(one.db, queue) == {} && Retention.OrphansOf(one, queue) == {};
  }
}
