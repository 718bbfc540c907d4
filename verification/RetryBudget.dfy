/** Automatic retries are counted exactly, whatever pauses, deferrals, losses and restarts interleave. */
module RetryBudget {
  import opened Common
  import opened BackgroundTypes
  import opened RuntimeSteps
  import opened RuntimeInvariants
  import opened RowView
  import opened Runs
  import opened RuntimeGuarantees
  import opened Effects

  /** An outside observer's count for one task: the attempts it was granted last, and the transient
      failures its handlers have reported since. */
  datatype Meter = Meter(budget: int, failures: nat)

  const MANUAL_BUDGET := 4

  /** The attempts the request grants a row it creates, and a handler's result a follow-up row. */
  function Granted(db: Db, action: Action, t: nat, key: string): int {
    match action
    case Enqueue(spec) => if 0 <= t - |db.tasks| < |spec.tasks| then Grant(spec.tasks[t - |db.tasks|]) else 0
    case Finish(_, Success(children)) =>
      (match FirstWith(children, key)
       case Some(spec) => Grant(spec)
       case None => 0)
    case _ => 0
  }

  /** The observer looks at requests, retries and handler results, never at maxAttempts or
      attemptCount of any row. */
  ghost function MeterOf(db: Db, meters: seq<Meter>, action: Action, t: nat): Meter
    requires t < |Apply(db, action).tasks| && |meters| == |db.tasks|
  {
    var s := Apply(db, action).tasks[t];
    if t >= |db.tasks| then Meter(Granted(db, action, t, s.header.dedupeKey), 0)
    else if Retryable(db.tasks[t].status) && s.status.TaskQueued? then Meter(MANUAL_BUDGET, 0)
    else if action.Finish? && action.t == t && t in db.active
            && action.outcome.Failure? && action.outcome.err.Transient?
    then meters[t].(failures := meters[t].failures + 1)
    else meters[t]
  }

  ghost function Observe(db: Db, meters: seq<Meter>, action: Action): (next: seq<Meter>)
    requires |meters| == |db.tasks|
    ensures |next| == |Apply(db, action).tasks|
  {
    hide Apply;
    var n := |Apply(db, action).tasks|;
    seq(n, t requires 0 <= t < n => MeterOf(db, meters, action, t))
  }

  ghost function Meters(db: Db, actions: seq<Action>): (meters: seq<Meter>)
    requires Fresh(db)
    ensures |meters| == |Run(db, actions).tasks|
  {
    hide Apply;
    if actions == [] then []
    else Observe(Run(db, actions[..|actions| - 1]), Meters(db, actions[..|actions| - 1]), actions[|actions| - 1])
  }

  /** The attempts a task has left are its grant minus the failures the observer counted. */
  ghost predicate Agrees(r: Task, m: Meter) {
    !TerminalTask(r.status) ==> Remaining(r) == m.budget - m.failures
  }

  /** The row arithmetic behind it: only a transient failure spends, and it spends exactly one. */
  lemma SpendStep(db: Db, action: Action, t: nat)
    requires RowsOk(db) && Live(db) && t < |db.tasks|
    ensures var r, s := db.tasks[t], NextRow(db, action, t);
      && (!TerminalTask(r.status) && !TerminalTask(s.status) ==>
            Remaining(s) == Remaining(r)
              - if action.Finish? && action.t == t && t in db.active && action.outcome.Failure?
                   && action.outcome.err.Transient? then 1 else 0)
      && (TerminalTask(r.status) && !TerminalTask(s.status) ==>
            Retryable(r.status) && s.status.TaskQueued? && Remaining(s) == MANUAL_BUDGET)
  {
    hide Precedes, Workers, Committing;
    assert RowOk(db.tasks[t]);
  }

  lemma AgreesStep(db: Db, meters: seq<Meter>, action: Action, t: nat)
    requires Inv(db) && |meters| == |db.tasks|
    requires forall u | 0 <= u < |db.tasks| :: Agrees(db.tasks[u], meters[u])
    requires t < |Apply(db, action).tasks|
    ensures Agrees(Apply(db, action).tasks[t], MeterOf(db, meters, action, t))
  {
    hide Apply, Cache, Ledger, WithinCapacity, Fence, Quiet;
    RowStep(db, action);
    if t < |db.tasks| {
      SpendStep(db, action, t);
      hide NextRow;
      assert Agrees(db.tasks[t], meters[t]);
    } else {
      GrantKept(db, action, t);
    }
  }

  /** A new row has the attempts that were asked for it, all unspent. */
  lemma GrantKept(db: Db, action: Action, t: nat)
    requires Inv(db) && |db.tasks| <= t < |Apply(db, action).tasks|
    ensures var r := Apply(db, action).tasks[t];
      r.attemptCount == 0 && r.maxAttempts == Granted(db, action, t, r.header.dedupeKey)
  {
    hide Apply, Cache, Ledger, WithinCapacity, Fence, Quiet, Grant;
    RowStep(db, action);
    assert CreatedRow(db, action, Apply(db, action).tasks[t]);
    match action
    case Enqueue(spec) => RequestGrant(db, spec, t);
    case Finish(u, outcome) => FollowUpGrant(db, u, outcome, t);
    case _ =>
  }

  lemma RequestGrant(db: Db, spec: JobSpec, t: nat)
    requires |db.tasks| <= t < |Apply(db, Enqueue(spec)).tasks|
    ensures var r := Apply(db, Enqueue(spec)).tasks[t];
      t - |db.tasks| < |spec.tasks| && r.attemptCount == 0 && r.maxAttempts == Grant(spec.tasks[t - |db.tasks|])
  {
    hide EnqueueVerdict;
    if EnqueueVerdict(db, spec).Created? {
      RequestCreated(db, spec);
      hide Apply;
      var i := t - |db.tasks|;
      assert Fulfils(Apply(db, Enqueue(spec)).tasks[|db.tasks| + i], spec.tasks[i], |db.jobs|, None, db.now);
    }
  }

  lemma FollowUpGrant(db: Db, u: nat, outcome: Outcome, t: nat)
    requires Inv(db) && Completes(db, u) && |db.tasks| <= t < |Apply(db, Finish(u, outcome)).tasks|
    ensures var r := Apply(db, Finish(u, outcome)).tasks[t];
      && outcome.Success? && FirstWith(outcome.children, r.header.dedupeKey).Some?
      && r.attemptCount == 0 && r.maxAttempts == Grant(FirstWith(outcome.children, r.header.dedupeKey).value)
  {
    assert db.active[u] < |db.attempts| by { Pieces(db); }
    hide Apply, Inv, Delay, EndsAs, EndOfAttempt;
    WorkerEnds(db, u, outcome);
  }

  lemma {:induction false} MetersAgree(db: Db, actions: seq<Action>)
    requires Fresh(db)
    ensures var post, meters := Run(db, actions), Meters(db, actions);
      forall t | 0 <= t < |post.tasks| :: Agrees(post.tasks[t], meters[t])
  {
    hide Apply, Inv, Agrees;
    if actions == [] {
    } else {
      var front, last := actions[..|actions| - 1], actions[|actions| - 1];
      var mid := Run(db, front);
      MetersAgree(db, front);
      FreshInv(db);
      RunInv(db, front);
      forall t | 0 <= t < |Apply(mid, last).tasks|
        ensures Agrees(Apply(mid, last).tasks[t], MeterOf(mid, Meters(db, front), last, t))
      {
        AgreesStep(mid, Meters(db, front), last, t);
      }
    }
  }

  /** After any run, a task that is not finished has exactly budget minus failures attempts left,
      never fewer than one; in particular a waiting task may still be attempted. */
  lemma BudgetLeft(db: Db, actions: seq<Action>, t: nat)
    requires Fresh(db) && t < |Run(db, actions).tasks|
    requires !TerminalTask(Run(db, actions).tasks[t].status)
    ensures var r, m := Run(db, actions).tasks[t], Meters(db, actions)[t];
      && Remaining(r) == m.budget - m.failures >= 1
      && (Waiting(r.status) ==> r.attemptCount < r.maxAttempts)
  {
    hide Apply, Run, Meters, Cache, Ledger, WithinCapacity, Fence, Quiet, Live;
    MetersAgree(db, actions);
    FreshInv(db);
    RunInv(db, actions);
    assert RowOk(Run(db, actions).tasks[t]);
    assert Agrees(Run(db, actions).tasks[t], Meters(db, actions)[t]);
  }

  lemma TransientRow(db: Db, t: nat, retryAfter: int)
    requires t in db.active && t < |db.tasks| && InFlight(db.tasks[t].status) && RowOk(db.tasks[t])
    ensures var s := NextRow(db, Finish(t, Failure(Transient, retryAfter)), t);
      && (s.status.TaskFailed? <==> Remaining(db.tasks[t]) == 1)
      && (s.status.TaskRetryWait? <==> Remaining(db.tasks[t]) > 1)
  {
  }

  /** A transient failure is final exactly when it is the budget-th since the grant. */
  lemma FinalFailure(db: Db, actions: seq<Action>, t: nat, retryAfter: int)
    requires Fresh(db) && t in Run(db, actions).active
    ensures t < |Run(db, actions).tasks|
    ensures var post := Apply(Run(db, actions), Finish(t, Failure(Transient, retryAfter)));
      var m := Meters(db, actions)[t];
      && t < |post.tasks|
      && (post.tasks[t].status.TaskFailed? <==> m.failures + 1 == m.budget)
      && (post.tasks[t].status.TaskRetryWait? <==> m.failures + 1 < m.budget)
  {
    hide Apply, Run, Meters, Inv, NextRow, RowOk;
    var pre := Run(db, actions);
    FreshInv(db);
    RunInv(db, actions);
    LiveWorker(pre, t);
    BudgetLeft(db, actions, t);
    TransientRow(pre, t, retryAfter);
    RowStep(pre, Finish(t, Failure(Transient, retryAfter)));
  }

  lemma LiveWorker(db: Db, t: nat)
    requires Inv(db) && t in db.active
    ensures t < |db.tasks| && InFlight(db.tasks[t].status) && RowOk(db.tasks[t])
  {
    hide Cache, Ledger, WithinCapacity, Fence, Quiet;
  }
}
