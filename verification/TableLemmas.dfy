/** The tables under one step: attempt ledgers, row lists and recomputation. */
module TableLemmas {
  import opened BackgroundTypes
  import opened JobReduction
  import opened RuntimeSteps
  import opened RuntimeInvariants

  // ---------------------------------------------------------------- attempts

  lemma {:induction false} AttemptsMembers(attempts: seq<Attempt>, t: nat)
    ensures forall r :: r in AttemptsOf(attempts, t) <==> r in attempts && r.taskId == t
  {
    if attempts == [] {
    } else {
      var front, last := attempts[..|attempts| - 1], attempts[|attempts| - 1];
      AttemptsMembers(front, t);
      assert attempts == front + [last];
    }
  }

  lemma AttemptsAppend(attempts: seq<Attempt>, a: Attempt, t: nat)
    ensures AttemptsOf(attempts + [a], t) == AttemptsOf(attempts, t) + if a.taskId == t then [a] else []
  {
    assert (attempts + [a])[..|attempts|] == attempts;
  }

  lemma {:induction false} AttemptsClose(attempts: seq<Attempt>, how: map<nat, AttemptStatus>, t: nat)
    ensures AttemptsOf(Close(attempts, how), t) == Close(AttemptsOf(attempts, t), how)
  {
    if attempts == [] {
    } else {
      var front := attempts[..|attempts| - 1];
      AttemptsClose(front, how, t);
      assert Close(attempts, how)[..|attempts| - 1] == Close(front, how);
    }
  }

  /** In a numbered ledger later rows carry larger numbers. */
  lemma {:induction false} NumbersIncrease(attempts: seq<Attempt>, t: nat, a: nat, b: nat)
    requires Numbered(AttemptsOf(attempts, t))
    requires a < b < |attempts| && attempts[a].taskId == t == attempts[b].taskId
    ensures attempts[a].number < attempts[b].number
  {
    var front, last := attempts[..|attempts| - 1], attempts[|attempts| - 1];
    var rows := AttemptsOf(attempts, t);
    assert forall i | 0 <= i < |AttemptsOf(front, t)| :: AttemptsOf(front, t)[i] == rows[i];
    if b == |attempts| - 1 {
      AttemptsMembers(front, t);
      assert front[a] in AttemptsOf(front, t);
      assert rows[|rows| - 1] == last;
    } else {
      NumbersIncrease(front, t, a, b);
    }
  }

  /** Writing the attempt a worker holds is the same as closing its task's running attempt. */
  lemma SetIsClose(attempts: seq<Attempt>, t: nat, a: nat, r: Task, status: AttemptStatus)
    requires LedgerOf(attempts, t, r)
    requires a < |attempts| && attempts[a].taskId == t && attempts[a].status.AttemptRunning?
    ensures SetAttempt(attempts, a, status) == Close(attempts, map[t := status])
  {
    AttemptsMembers(attempts, t);
    forall b | 0 <= b < |attempts| && attempts[b].taskId == t && attempts[b].status.AttemptRunning?
      ensures b == a
    {
      assert attempts[a] in AttemptsOf(attempts, t) && attempts[b] in AttemptsOf(attempts, t);
      if b < a { NumbersIncrease(attempts, t, b, a); }
      if a < b { NumbersIncrease(attempts, t, a, b); }
    }
  }

  function FlightMap(db: Db): map<nat, AttemptStatus> {
    map t | 0 <= t < |db.tasks| && InFlight(db.tasks[t].status) :: AttemptInterrupted
  }

  /** Every running attempt belongs to a task in flight, so a restart closes exactly those. */
  lemma InterruptIsClose(db: Db)
    requires Refs(db) && Ledger(db)
    ensures InterruptRunning(db.attempts) == Close(db.attempts, FlightMap(db))
  {
    forall a | 0 <= a < |db.attempts| && db.attempts[a].status.AttemptRunning?
      ensures db.attempts[a].taskId in FlightMap(db)
    {
      var t := db.attempts[a].taskId;
      AttemptsMembers(db.attempts, t);
      assert db.attempts[a] in AttemptsOf(db.attempts, t);
      assert LedgerOf(db.attempts, t, db.tasks[t]);
    }
  }

  /** Closing running attempts keeps the ledger, when exactly the closed tasks leave flight. */
  lemma CloseLedger(attempts: seq<Attempt>, how: map<nat, AttemptStatus>, t: nat, r: Task, s: Task)
    requires LedgerOf(attempts, t, r)
    requires s.attemptCount == r.attemptCount
    requires forall u | u in how :: !how[u].AttemptRunning?
    requires if t in how then !InFlight(s.status) else InFlight(s.status) == InFlight(r.status)
    ensures LedgerOf(Close(attempts, how), t, s)
  {
    AttemptsClose(attempts, how, t);
    AttemptsMembers(attempts, t);
    var rows := AttemptsOf(attempts, t);
    forall i | 0 <= i < |rows| ensures rows[i].taskId == t { assert rows[i] in rows; }
  }

  lemma {:induction false} NoAttempts(attempts: seq<Attempt>, t: nat)
    requires forall a | 0 <= a < |attempts| :: attempts[a].taskId != t
    ensures AttemptsOf(attempts, t) == []
  {
    if attempts == [] {
    } else {
      NoAttempts(attempts[..|attempts| - 1], t);
    }
  }

  // ---------------------------------------------------------------- recomputation

  lemma SettleCache(pre: Db, mid: Db, touched: set<nat>)
    requires Cache(pre)
    requires forall j | 0 <= j < |mid.jobs| && j !in touched ::
               j < |pre.jobs| && mid.jobs[j] == pre.jobs[j] && Rows(mid.tasks, j) == Rows(pre.tasks, j)
    requires forall j | 0 <= j < |mid.jobs| && j in touched :: Rows(mid.tasks, j) != []
    ensures Cache(Settle(mid, touched))
  {
    hide Rows, Cached, Reduced;
    var post := Settle(mid, touched);
    forall j | 0 <= j < |post.jobs|
      ensures Rows(post.tasks, j) != [] && Cached(post.jobs[j], Rows(post.tasks, j))
    {
      if j in touched { ReducedIsCached(mid.jobs[j], Rows(mid.tasks, j)); }
    }
  }

  /** A recomputation rewrites jobs only, and clears flags at most. */
  lemma SettleKeeps()
    ensures forall mid: Db, touched {:trigger Settle(mid, touched)} ::
              && Settle(mid, touched) == mid.(jobs := Settle(mid, touched).jobs)
              && |Settle(mid, touched).jobs| == |mid.jobs|
    ensures forall mid: Db, touched, j {:trigger Settle(mid, touched).jobs[j]} :: 0 <= j < |mid.jobs| ==>
              && Settle(mid, touched).jobs[j].cancelRequested == mid.jobs[j].cancelRequested
              && (Settle(mid, touched).jobs[j].pauseRequested ==> mid.jobs[j].pauseRequested)
              && Settle(mid, touched).jobs[j].header == mid.jobs[j].header
              && Settle(mid, touched).jobs[j].idempotencyKey == mid.jobs[j].idempotencyKey
  {
    hide Reduced;
    ReducedKeeps();
  }

  lemma SettleCore(mid: Db, touched: set<nat>)
    requires Core(mid)
    ensures Core(Settle(mid, touched))
  {
    hide Settle, LedgerOf, RowOk;
    SettleKeeps();
  }

  /** Rows keep their job and are never removed. */
  ghost predicate Extends(before: seq<Task>, after: seq<Task>) {
    |before| <= |after| && forall t | 0 <= t < |before| :: before[t].jobId == after[t].jobId
  }

  /** Outside the touched jobs nothing about the task table changed. */
  ghost predicate Elsewhere(before: seq<Task>, after: seq<Task>, touched: set<nat>) {
    && Extends(before, after)
    && (forall t | 0 <= t < |before| && before[t].jobId !in touched :: before[t] == after[t])
    && (forall t | |before| <= t < |after| :: after[t].jobId in touched)
  }

  lemma {:induction false} NoRows(rows: seq<Task>, j: nat)
    requires forall t | 0 <= t < |rows| :: rows[t].jobId != j
    ensures Rows(rows, j) == []
  {
    if rows == [] {
    } else {
      NoRows(rows[..|rows| - 1], j);
    }
  }

  lemma ElsewhereRows(before: seq<Task>, after: seq<Task>, touched: set<nat>, j: nat)
    requires Elsewhere(before, after, touched)
    requires j !in touched
    ensures Rows(after, j) == Rows(before, j)
  {
    hide Rows;
    var kept, added := after[..|before|], after[|before|..];
    assert after == kept + added;
    RowsAppend(kept, added, j);
    RowsFrame(before, kept, j);
    NoRows(added, j);
  }

  lemma ExtendsRows(before: seq<Task>, after: seq<Task>, j: nat)
    requires Extends(before, after)
    requires Rows(before, j) != []
    ensures Rows(after, j) != []
  {
    hide Rows;
    RowsMembers(before, j);
    RowsMembers(after, j);
    assert Rows(before, j)[0] in Rows(before, j);
    var t :| 0 <= t < |before| && before[t] == Rows(before, j)[0];
    assert after[t] in after;
  }

  /** The shape every transaction on existing jobs has: change rows and flags of the touched jobs
      so that the core still holds, then recompute them. */
  lemma StepKeeps(pre: Db, mid: Db, touched: set<nat>)
    requires Cache(pre) && Core(mid)
    requires |mid.jobs| == |pre.jobs|
    requires Elsewhere(pre.tasks, mid.tasks, touched)
    requires forall j | 0 <= j < |pre.jobs| && j !in touched :: mid.jobs[j] == pre.jobs[j]
    ensures Core(Settle(mid, touched)) && Cache(Settle(mid, touched))
  {
    hide Core, Cached, Rows, Settle;
    forall j: nat | j < |pre.jobs|
      ensures j !in touched ==> Rows(mid.tasks, j) == Rows(pre.tasks, j)
      ensures Rows(mid.tasks, j) != []
    {
      if j !in touched { ElsewhereRows(pre.tasks, mid.tasks, touched, j); }
      ExtendsRows(pre.tasks, mid.tasks, j);
    }
    SettleCache(pre, mid, touched);
    SettleCore(mid, touched);
  }

  lemma KeepsUnsucceeded(before: seq<Task>, after: seq<Task>, j: nat)
    requires Extends(before, after)
    requires forall t | 0 <= t < |before| && before[t].jobId == j && after[t].status.TaskSucceeded? ::
               before[t].status.TaskSucceeded?
    requires Unsucceeded(before, j)
    ensures Unsucceeded(after, j)
  {
    var r :| r in before && r.jobId == j && !r.status.TaskSucceeded?;
    var t :| 0 <= t < |before| && before[t] == r;
    assert after[t] in after;
  }

  lemma UnsucceededFrame(before: seq<Task>, after: seq<Task>)
    requires Extends(before, after)
    requires forall t | 0 <= t < |before| && after[t].status.TaskSucceeded? :: before[t].status.TaskSucceeded?
    ensures forall j: nat :: Unsucceeded(before, j) ==> Unsucceeded(after, j)
  {
    forall j: nat | Unsucceeded(before, j) ensures Unsucceeded(after, j) { KeepsUnsucceeded(before, after, j); }
  }
}
