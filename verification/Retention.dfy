/** Retention: finished jobs are selected in one statement and deleted, with their tasks and attempts, in a
    later transaction that does not look at them again. A deleted job leaves an inert row behind here, so that
    row numbers stay row numbers: its key is free, its unfinished tasks count as cancelled, and no command can
    name it any more. */
module Retention {
  import opened Common
  import opened BackgroundTypes
  import opened JobReduction
  import opened RuntimeSteps
  import opened RuntimeInvariants
  import opened TableLemmas
  import opened RowView
  import opened Preservation
  import opened Runs
  import opened RuntimeGuarantees
  import opened Idempotency

  /** `chosen` are the jobs calls of Retain have selected and not yet deleted, `orphans` the live workers whose
      task has been deleted under them. */
  datatype Store = Store(db: Db, gone: set<nat>, chosen: set<nat>, orphans: set<nat>)

  datatype Event =
    | Act(action: Action)
    | Select(jobs: set<nat>)
    | Delete(jobs: set<nat>)
    | Abandon(jobs: set<nat>)

  /** The idempotency keys of these jobs are free again. */
  function Forgotten(db: Db, jobs: set<nat>): Db {
    db.(jobs := seq(|db.jobs|, j requires 0 <= j < |db.jobs| =>
      if j in jobs then db.jobs[j].(idempotencyKey := "") else db.jobs[j]))
  }

  /** The unfinished tasks of these jobs. */
  function Doomed(db: Db, jobs: set<nat>): set<nat> {
    set t | 0 <= t < |db.tasks| && db.tasks[t].jobId in jobs && !TerminalTask(db.tasks[t].status)
  }

  function BuriedRow(r: Task): Task { r.(status := TaskCanceled, heartbeatAt := None) }

  function Closing(doomed: set<nat>): map<nat, AttemptStatus> { map t | t in doomed :: AttemptInterrupted }

  /** Rows, running attempts and keys of these jobs are gone, and no worker counts for them. */
  function Cut(db: Db, jobs: set<nat>): Db {
    var doomed := Doomed(db, jobs);
    Forgotten(db, jobs).(
      tasks := seq(|db.tasks|, t requires 0 <= t < |db.tasks| =>
        if t in doomed then BuriedRow(db.tasks[t]) else db.tasks[t]),
      attempts := Close(db.attempts, Closing(doomed)),
      active := db.active - doomed)
  }

  ghost function Deleted(db: Db, jobs: set<nat>): Db { Settle(Cut(db, jobs), jobs) }

  /** The selection takes finished jobs only, whichever of them are old enough. */
  function Expired(s: Store, jobs: set<nat>): set<nat> {
    set j | j in jobs && j !in s.gone && j < |s.db.jobs| && TerminalJob(s.db.jobs[j].status)
  }

  /** The deletion takes what was selected, whatever has become of it since. */
  function Victims(s: Store, jobs: set<nat>): set<nat> { jobs * s.chosen - s.gone }

  predicate GoneTask(s: Store, t: nat) { t < |s.db.tasks| && s.db.tasks[t].jobId in s.gone }

  function OrphansOf(s: Store, queue: string): set<nat> {
    set t | t in s.orphans && t < |s.db.tasks| && s.db.tasks[t].header.queue == queue
  }

  /** The command names a row that is no longer there, or a claim finds the queue full because of workers
      without a row, or a restart is not one because such workers are alive. */
  predicate Barred(s: Store, action: Action) {
    match action
    case PauseJob(j) => j in s.gone
    case ResumeJob(j) => j in s.gone
    case RunJobNow(j) => j in s.gone
    case CancelJob(j) => j in s.gone
    case RetryJob(j) => j in s.gone
    case CancelTask(t) => GoneTask(s, t)
    case RetryTask(t) => GoneTask(s, t)
    case Claim(queue) => |Workers(s.db, queue)| + |OrphansOf(s, queue)| >= Capacity(s.db.limits, queue)
    case Recover => s.orphans != {}
    case _ => false
  }

  /** A worker without a row ends without writing anything. */
  function NextOrphans(s: Store, action: Action): set<nat> {
    match action
    case Finish(t, _) => s.orphans - {t}
    case LoseWorker(t) => s.orphans - {t}
    case Crash => {}
    case _ => s.orphans
  }

  ghost function Step(s: Store, e: Event): Store {
    match e
    case Act(action) =>
      if Barred(s, action) then s
      else Store(Apply(s.db, action), s.gone, if action.Crash? then {} else s.chosen, NextOrphans(s, action))
    case Select(jobs) => s.(chosen := s.chosen + Expired(s, jobs))
    case Delete(jobs) =>
      var victims := Victims(s, jobs);
      Store(Deleted(s.db, victims), s.gone + victims, s.chosen - jobs,
            s.orphans + s.db.active.Keys * Doomed(s.db, victims))
    case Abandon(jobs) => s.(chosen := s.chosen - jobs)
  }

  ghost function After(s: Store, events: seq<Event>): Store {
    if events == [] then s else Step(After(s, events[..|events| - 1]), events[|events| - 1])
  }

  predicate Finished(db: Db, j: nat) {
    forall t | 0 <= t < |db.tasks| && db.tasks[t].jobId == j :: TerminalTask(db.tasks[t].status)
  }

  /** Deleted jobs are inert and hold no key. */
  ghost predicate Buried(s: Store) {
    && (forall j | j in s.gone :: j < |s.db.jobs| && s.db.jobs[j].idempotencyKey == "" && Finished(s.db, j))
    && (forall j | j in s.chosen :: j < |s.db.jobs|)
    && (forall t | t in s.orphans :: GoneTask(s, t))
  }

  /** Workers with and without a row together stay within the limits. */
  ghost predicate Uncrowded(s: Store) {
    forall queue :: |Workers(s.db, queue)| + |OrphansOf(s, queue)| <= Capacity(s.db.limits, queue)
  }

  ghost predicate StoreInv(s: Store) { Inv(s.db) && Buried(s) && Uncrowded(s) }

  // ---------------------------------------------------------------- the deletion

  lemma ForgottenCore(db: Db, jobs: set<nat>)
    requires Core(db) && Cache(db)
    ensures Core(Forgotten(db, jobs)) && Cache(Forgotten(db, jobs))
  {
    var after := Forgotten(db, jobs);
    assert Core(after);
    hide Core, Rows;
    forall j | 0 <= j < |after.jobs|
      ensures Rows(after.tasks, j) != [] && Cached(after.jobs[j], Rows(after.tasks, j))
    {
      assert Cached(db.jobs[j], Rows(db.tasks, j));
    }
  }

  lemma FewerWorkers(db: Db, less: set<nat>)
    requires Core(db)
    ensures Core(db.(active := db.active - less))
  {
    hide LedgerOf, RowOk, Unsucceeded;
  }

  lemma BuriedRowLeaves(r: Task)
    requires RowOk(r) && !TerminalTask(r.status)
    ensures Leaves(r, BuriedRow(r)) && BuriedRow(r).header == r.header
  {
  }

  lemma CutCore(db: Db, jobs: set<nat>)
    requires Core(db) && Cache(db)
    ensures Core(Cut(db, jobs)) && Elsewhere(db.tasks, Cut(db, jobs).tasks, jobs)
  {
    var doomed := Doomed(db, jobs);
    var idle := Forgotten(db, jobs).(active := db.active - doomed);
    ForgottenCore(db, jobs);
    FewerWorkers(Forgotten(db, jobs), doomed);
    hide Core, Cache, Leaves, RowOk, FlagsOk, BuriedRow;
    var mid := Cut(db, jobs);
    forall t | 0 <= t < |db.tasks|
      ensures if t in Closing(doomed) then Leaves(db.tasks[t], mid.tasks[t]) else mid.tasks[t] == db.tasks[t]
      ensures mid.tasks[t].jobId == db.tasks[t].jobId
    {
      CoreFlags(db, t);
      if t in doomed {
        BuriedRowLeaves(db.tasks[t]);
        BuriedRowJob(db.tasks[t]);
      }
    }
    RecoveryCore(idle, mid, Closing(doomed));
  }

  lemma BuriedRowJob(r: Task)
    ensures BuriedRow(r).jobId == r.jobId
  {
  }

  lemma DeletedCore(db: Db, jobs: set<nat>)
    requires Core(db) && Cache(db)
    ensures Core(Deleted(db, jobs)) && Cache(Deleted(db, jobs))
  {
    CutCore(db, jobs);
    hide Core, Cache, Settle;
    StepKeeps(db, Cut(db, jobs), jobs);
  }

  /** A deletion frees the keys of its jobs and no others. */
  lemma DeletedKeys(db: Db, jobs: set<nat>)
    ensures var post := Deleted(db, jobs);
      && |post.jobs| == |db.jobs| && post.now == db.now
      && (forall j | 0 <= j < |db.jobs| ::
            post.jobs[j].idempotencyKey == if j in jobs then "" else db.jobs[j].idempotencyKey)
  {
    DeletedShape(db, jobs);
    hide Deleted, Doomed, BuriedRow;
  }

  /** What a deletion leaves as it was. */
  lemma DeletedShape(db: Db, jobs: set<nat>)
    ensures var post := Deleted(db, jobs);
      && |post.tasks| == |db.tasks| && |post.jobs| == |db.jobs| && post.now == db.now && post.limits == db.limits
      && post.active == db.active - Doomed(db, jobs)
      && (forall t | 0 <= t < |db.tasks| ::
            post.tasks[t] == if t in Doomed(db, jobs) then BuriedRow(db.tasks[t]) else db.tasks[t])
      && (forall j | 0 <= j < |db.jobs| ::
            && post.jobs[j].header == db.jobs[j].header
            && post.jobs[j].idempotencyKey == if j in jobs then "" else db.jobs[j].idempotencyKey)
  {
    SettleKeeps();
    hide Settle, BuriedRow;
  }

  // ---------------------------------------------------------------- the invariant, over every run

  lemma FinishedRows(db: Db, j: nat)
    requires Cache(db) && j < |db.jobs| && TerminalJob(db.jobs[j].status)
    ensures Finished(db, j)
  {
    hide Rows, ProgressOf;
    RowsMembers(db.tasks, j);
    var rows := Rows(db.tasks, j);
    assert Cached(db.jobs[j], rows);
    forall t | 0 <= t < |db.tasks| && db.tasks[t].jobId == j ensures TerminalTask(db.tasks[t].status) {
      assert db.tasks[t] in rows;
    }
  }

  lemma NewRowsElsewhere(db: Db, action: Action, j: nat, t: nat)
    requires Inv(db) && j < |db.jobs| && Finished(db, j) && |db.tasks| <= t < |Apply(db, action).tasks|
    ensures Apply(db, action).tasks[t].jobId != j
  {
    hide Apply, Inv;
    RowStep(db, action);
    assert CreatedRow(db, action, Apply(db, action).tasks[t]);
  }

  /** The rows of a finished job stay as they are, and it gets no new ones, unless it is retried. */
  lemma FinishedStep(db: Db, action: Action, j: nat)
    requires Inv(db) && j < |db.jobs| && Finished(db, j) && !RetriesJob(db, action, j)
    ensures |db.tasks| <= |Apply(db, action).tasks| && |db.jobs| <= |Apply(db, action).jobs|
    ensures forall t | 0 <= t < |db.tasks| && db.tasks[t].jobId == j :: Apply(db, action).tasks[t] == db.tasks[t]
    ensures forall t | 0 <= t < |Apply(db, action).tasks| && Apply(db, action).tasks[t].jobId == j ::
              t < |db.tasks| && db.tasks[t].jobId == j
    ensures Finished(Apply(db, action), j)
  {
    hide Apply, Inv;
    var post := Apply(db, action);
    RowStep(db, action);
    FlagStep(db, action, j);
    forall t | 0 <= t < |post.tasks|
      ensures post.tasks[t].jobId == j ==> t < |db.tasks| && db.tasks[t].jobId == j
      ensures t < |db.tasks| && db.tasks[t].jobId == j ==> post.tasks[t] == db.tasks[t]
    {
      if t < |db.tasks| {
        IdentityStep(db, action, t);
        if db.tasks[t].jobId == j { TerminalStep(db, action, t); }
      } else {
        NewRowsElsewhere(db, action, j, t);
      }
    }
  }

  /** No command reaches a deleted job, a retry neither. */
  lemma GoneUnretried(s: Store, action: Action, j: nat)
    requires j in s.gone && !Barred(s, action)
    ensures !RetriesJob(s.db, action, j)
  {
  }

  lemma OrphansStay(s: Store, action: Action)
    requires StoreInv(s) && !Barred(s, action)
    ensures forall t | t in NextOrphans(s, action) :: GoneTask(Step(s, Act(action)), t)
    ensures forall queue :: |OrphansOf(Step(s, Act(action)), queue)| <= |OrphansOf(s, queue)|
  {
    hide Apply, Inv, Uncrowded;
    RowStep(s.db, action);
    forall t | 0 <= t < |s.db.tasks|
      ensures Apply(s.db, action).tasks[t].header == s.db.tasks[t].header
      ensures Apply(s.db, action).tasks[t].jobId == s.db.tasks[t].jobId
    {
      IdentityStep(s.db, action, t);
    }
    hide NextRow, CreatedRow;
    forall queue ensures |OrphansOf(Step(s, Act(action)), queue)| <= |OrphansOf(s, queue)| {
      Subset(OrphansOf(Step(s, Act(action)), queue), OrphansOf(s, queue));
    }
  }

  lemma WorkersStep(s: Store, action: Action, queue: string)
    requires StoreInv(s) && !Barred(s, action)
    ensures |Workers(Apply(s.db, action), queue)| <= |Workers(s.db, queue)|
         || (action == Claim(queue) && |Workers(Apply(s.db, action), queue)| <= |Workers(s.db, queue)| + 1)
    ensures Apply(s.db, action).limits == s.db.limits
  {
    hide Inv, Uncrowded, Buried, Barred;
    if action.Claim? {
      ClaimAdds(s.db, action.queue, queue);
    } else {
      ActiveStep(s.db, action);
      RowStep(s.db, action);
      hide Apply, Workers;
      forall t | 0 <= t < |s.db.tasks| ensures Apply(s.db, action).tasks[t].header == s.db.tasks[t].header {
        IdentityStep(s.db, action, t);
      }
      Pieces(s.db);
      WorkersShrink(s.db, Apply(s.db, action), queue);
    }
  }

  lemma ActKeeps(s: Store, action: Action)
    requires StoreInv(s) && !Barred(s, action)
    ensures StoreInv(Step(s, Act(action)))
  {
    hide Apply, Inv;
    var post := Step(s, Act(action));
    StepInv(s.db, action);
    OrphansStay(s, action);
    forall j | j in s.gone
      ensures j < |post.db.jobs| && post.db.jobs[j].idempotencyKey == "" && Finished(post.db, j)
    {
      GoneUnretried(s, action, j);
      HeaderStep(s.db, action, j);
      FinishedStep(s.db, action, j);
    }
    JobsStep(s.db, action);
    hide Finished, OrphansOf, Workers;
    forall queue ensures |Workers(post.db, queue)| + |OrphansOf(post, queue)| <= Capacity(post.db.limits, queue) {
      WorkersStep(s, action, queue);
    }
  }

  lemma DeletedWorkers(db: Db, jobs: set<nat>, queue: string)
    ensures Workers(Deleted(db, jobs), queue) == Workers(db, queue) - Doomed(db, jobs)
  {
    DeletedShape(db, jobs);
    hide Deleted;
  }

  lemma DeletedOrphans(s: Store, e: Event, queue: string)
    requires Buried(s) && e.Delete?
    ensures var moved := Workers(s.db, queue) * Doomed(s.db, Victims(s, e.jobs));
      OrphansOf(Step(s, e), queue) == OrphansOf(s, queue) + moved && OrphansOf(s, queue) !! moved
  {
    DeletedShape(s.db, Victims(s, e.jobs));
    hide Deleted, Finished;
  }

  lemma DeleteCapacity(s: Store, e: Event, queue: string)
    requires Buried(s) && e.Delete?
    ensures |Workers(Step(s, e).db, queue)| + |OrphansOf(Step(s, e), queue)|
         == |Workers(s.db, queue)| + |OrphansOf(s, queue)|
  {
    hide Deleted, Workers, OrphansOf, Doomed, Victims, Buried, Step;
    var victims := Victims(s, e.jobs);
    StepDeletes(s, e);
    DeletedWorkers(s.db, victims, queue);
    DeletedOrphans(s, e, queue);
    SizesMove(Workers(s.db, queue), OrphansOf(s, queue), Doomed(s.db, victims));
  }

  lemma StepDeletes(s: Store, e: Event)
    requires e.Delete?
    ensures Step(s, e).db == Deleted(s.db, Victims(s, e.jobs))
  {
    hide Deleted, Victims, Doomed, Apply, Barred, NextOrphans, Expired;
  }

  lemma SizesMove(workers: set<nat>, orphans: set<nat>, doomed: set<nat>)
    requires orphans !! workers * doomed
    ensures |workers - doomed| + |orphans + workers * doomed| == |workers| + |orphans|
  {
    assert workers == (workers - doomed) + workers * doomed;
  }

  lemma DeletedFinished(s: Store, e: Event, j: nat)
    requires Buried(s) && e.Delete? && j in Step(s, e).gone
    ensures j < |Step(s, e).db.jobs| && Step(s, e).db.jobs[j].idempotencyKey == "" && Finished(Step(s, e).db, j)
  {
    DeletedShape(s.db, Victims(s, e.jobs));
    hide Deleted;
  }

  lemma DeleteKeeps(s: Store, e: Event)
    requires StoreInv(s) && e.Delete?
    ensures StoreInv(Step(s, e))
  {
    var post := Step(s, e);
    DeletedCore(s.db, Victims(s, e.jobs));
    DeletedShape(s.db, Victims(s, e.jobs));
    hide Core, Cache, Deleted, Workers, OrphansOf, Finished, Doomed, Victims;
    forall queue
      ensures |Workers(post.db, queue)| + |OrphansOf(post, queue)| <= Capacity(post.db.limits, queue)
      ensures |Workers(post.db, queue)| <= Capacity(post.db.limits, queue)
    {
      DeleteCapacity(s, e, queue);
    }
    forall j | j in post.gone
      ensures j < |post.db.jobs| && post.db.jobs[j].idempotencyKey == "" && Finished(post.db, j)
    {
      DeletedFinished(s, e, j);
    }
    forall t | t in post.orphans ensures GoneTask(post, t) { DeletedOrphan(s, e, t); }
    hide Buried;
    assert WithinCapacity(post.db) && Uncrowded(post);
  }

  lemma DeletedOrphan(s: Store, e: Event, t: nat)
    requires Buried(s) && e.Delete? && t in Step(s, e).orphans
    ensures GoneTask(Step(s, e), t)
  {
    DeletedShape(s.db, Victims(s, e.jobs));
    hide Deleted, Finished;
  }

  /** Whatever is deleted, and whenever, the invariant of the runtime holds for what is left, and no queue has
      more workers than its limit, those without a row counted. */
  lemma StoreStep(s: Store, e: Event)
    requires StoreInv(s)
    ensures StoreInv(Step(s, e))
    ensures s.gone <= Step(s, e).gone
  {
    hide Inv, Apply, Uncrowded;
    match e
    case Act(action) => if !Barred(s, action) { ActKeeps(s, action); }
    case Delete(jobs) => DeleteKeeps(s, e);
    case Select(jobs) => Recounted(s, Step(s, e));
    case Abandon(jobs) => Recounted(s, Step(s, e));
  }

  lemma Recounted(s: Store, post: Store)
    requires Uncrowded(s) && post.db == s.db && post.orphans == s.orphans
    ensures Uncrowded(post)
  {
    forall queue ensures OrphansOf(post, queue) == OrphansOf(s, queue) {}
  }

  lemma {:induction false} StoreRun(s: Store, events: seq<Event>)
    requires StoreInv(s)
    ensures StoreInv(After(s, events)) && s.gone <= After(s, events).gone
  {
    hide StoreInv, Step;
    if events == [] {
    } else {
      StoreRun(s, events[..|events| - 1]);
      StoreStep(After(s, events[..|events| - 1]), events[|events| - 1]);
    }
  }

  /** A deleted job stays as it was, over every run: nothing reaches it any more. */
  lemma {:induction false} GoneForever(s: Store, events: seq<Event>, t: nat)
    requires StoreInv(s) && GoneTask(s, t)
    ensures GoneTask(After(s, events), t) && After(s, events).db.tasks[t] == s.db.tasks[t]
  {
    hide StoreInv, Step;
    if events == [] {
    } else {
      var front, last := events[..|events| - 1], events[|events| - 1];
      GoneForever(s, front, t);
      StoreRun(s, front);
      GoneStep(After(s, front), last, t);
    }
  }

  lemma GoneStep(s: Store, e: Event, t: nat)
    requires StoreInv(s) && GoneTask(s, t)
    ensures GoneTask(Step(s, e), t) && Step(s, e).db.tasks[t] == s.db.tasks[t]
  {
    hide Inv, Apply, Uncrowded, Deleted;
    var j := s.db.tasks[t].jobId;
    match e
    case Act(action) =>
      if !Barred(s, action) {
        GoneUnretried(s, action, j);
        FinishedStep(s.db, action, j);
      }
    case Delete(jobs) => DeletedShape(s.db, Victims(s, jobs));
    case _ =>
  }

  /** A selection takes the named jobs that have succeeded, failed or been cancelled, and changes no row. */
  lemma SelectionTakes(s: Store, jobs: set<nat>, j: nat)
    ensures Step(s, Select(jobs)).db == s.db && Step(s, Select(jobs)).gone == s.gone
    ensures j in Step(s, Select(jobs)).chosen <==>
              || j in s.chosen
              || (j in jobs && j !in s.gone && j < |s.db.jobs|
                  && s.db.jobs[j].status in {JobSucceeded, JobSucceededWithWarnings, JobFailed, JobCanceled})
  {
  }

  /** A deletion takes the named jobs that were selected: their keys are free, none of their tasks is left to do
      and none has a worker on record. Rows of other jobs stay as they were, workers included. */
  lemma DeletionTakes(s: Store, jobs: set<nat>, j: nat)
    ensures var post := Step(s, Delete(jobs));
      && (j in post.gone <==> j in s.gone || (j in jobs && j in s.chosen))
      && |post.db.jobs| == |s.db.jobs| && |post.db.tasks| == |s.db.tasks|
      && (j in post.gone && j !in s.gone && j < |s.db.jobs| ==> post.db.jobs[j].idempotencyKey == "")
      && (!(j in post.gone && j !in s.gone) && j < |s.db.jobs| ==>
            post.db.jobs[j].idempotencyKey == s.db.jobs[j].idempotencyKey)
      && forall t | 0 <= t < |s.db.tasks| && s.db.tasks[t].jobId == j ::
           if j in post.gone && j !in s.gone
           then TerminalTask(post.db.tasks[t].status) && (t in post.db.active ==> TerminalTask(s.db.tasks[t].status))
           else post.db.tasks[t] == s.db.tasks[t] && (t in post.db.active <==> t in s.db.active)
  {
    DeletedShape(s.db, Victims(s, jobs));
    hide Deleted;
  }

  // ---------------------------------------------------------------- between selection and deletion

  predicate RetriesEvent(s: Store, e: Event, j: nat) { e.Act? && RetriesJob(s.db, e.action, j) }

  lemma FinishedKept(s: Store, e: Event, j: nat)
    requires StoreInv(s) && j < |s.db.jobs| && Finished(s.db, j) && !RetriesEvent(s, e, j)
    ensures |s.db.tasks| <= |Step(s, e).db.tasks| && |s.db.jobs| <= |Step(s, e).db.jobs| && Finished(Step(s, e).db, j)
    ensures forall t | 0 <= t < |s.db.tasks| && s.db.tasks[t].jobId == j :: Step(s, e).db.tasks[t] == s.db.tasks[t]
    ensures forall t | 0 <= t < |Step(s, e).db.tasks| && Step(s, e).db.tasks[t].jobId == j ::
              t < |s.db.tasks| && s.db.tasks[t].jobId == j
  {
    hide Inv, Apply, Uncrowded, Deleted;
    match e
    case Act(action) => if !Barred(s, action) { FinishedStep(s.db, action, j); }
    case Delete(jobs) => DeletedShape(s.db, Victims(s, jobs));
    case _ =>
  }

  /** If nobody retries a selected job before it is deleted, over any run, it is deleted with exactly the rows
      it had when it was selected, all finished. */
  lemma {:induction false} DeletedAsSelected(s: Store, jobs: set<nat>, events: seq<Event>, j: nat)
    requires StoreInv(s) && j in Expired(s, jobs)
    requires forall i | 0 <= i < |events| :: !RetriesEvent(After(Step(s, Select(jobs)), events[..i]), events[i], j)
    ensures var later := After(Step(s, Select(jobs)), events);
      && |s.db.tasks| <= |later.db.tasks| && j < |later.db.jobs| && Finished(later.db, j)
      && (forall t | 0 <= t < |s.db.tasks| && s.db.tasks[t].jobId == j :: later.db.tasks[t] == s.db.tasks[t])
      && (forall t | 0 <= t < |later.db.tasks| && later.db.tasks[t].jobId == j ::
            t < |s.db.tasks| && s.db.tasks[t].jobId == j)
  {
    var chosen := Step(s, Select(jobs));
    if events == [] {
      assert Cache(s.db) by { Pieces(s.db); }
      hide Inv;
      FinishedRows(s.db, j);
    } else {
      hide Inv, Uncrowded, Buried, Step, RetriesEvent;
      var front, last := events[..|events| - 1], events[|events| - 1];
      forall i | 0 <= i < |front| ensures !RetriesEvent(After(chosen, front[..i]), front[i], j) {
        assert front[..i] == events[..i];
      }
      DeletedAsSelected(s, jobs, front, j);
      StoreStep(s, Select(jobs));
      StoreRun(chosen, front);
      assert events[..|front|] == front;
      FinishedKept(After(chosen, front), last, j);
    }
  }

  /** A retry the runtime accepts. */
  predicate RetryAccepted(db: Db, action: Action, j: nat) {
    || (action == RetryJob(j) && RetryJobVerdict(db, j).Ok?)
    || (action.RetryTask? && RetryTaskVerdict(db, action.t).Ok? && db.tasks[action.t].jobId == j)
  }

  /** An accepted retry leaves a task of the job waiting. */
  lemma RetryReopens(db: Db, action: Action, j: nat) returns (t: nat)
    requires RetryAccepted(db, action, j)
    ensures t < |db.tasks| <= |Apply(db, action).tasks|
    ensures Apply(db, action).tasks[t].jobId == db.tasks[t].jobId == j
    ensures Apply(db, action).tasks[t].status.TaskQueued?
  {
    hide Apply;
    RowStep(db, action);
    if action.RetryJob? {
      t :| 0 <= t < |db.tasks| && db.tasks[t].jobId == j && Retryable(db.tasks[t].status);
    } else {
      t := action.t;
    }
  }

  /** One step leaves a finished, undeleted job finished exactly when it is not an accepted retry of it. */
  lemma StaysFinished(s: Store, action: Action, j: nat)
    requires StoreInv(s) && j < |s.db.jobs| && j !in s.gone && Finished(s.db, j)
    ensures Finished(Step(s, Act(action)).db, j) <==> !RetryAccepted(s.db, action, j)
  {
    hide Inv, Apply, Uncrowded;
    if RetryAccepted(s.db, action, j) {
      var t := RetryReopens(s.db, action, j);
    } else if RetriesJob(s.db, action, j) {
      RefusedRetry(s.db, action, j);
    } else if !Barred(s, action) {
      FinishedStep(s.db, action, j);
    }
  }

  lemma RefusedRetry(db: Db, action: Action, j: nat)
    requires RetriesJob(db, action, j) && !RetryAccepted(db, action, j) && j < |db.jobs|
    ensures Apply(db, action) == db
  {
  }

  /** And a selected job whose retry is accepted before the deletion is deleted with the work it was to do. */
  lemma RetryLost(s: Store, action: Action, j: nat) returns (t: nat)
    requires StoreInv(s) && j in s.chosen && j !in s.gone && RetryAccepted(s.db, action, j)
    ensures var retried := Step(s, Act(action));
      && t < |retried.db.tasks| && retried.db.tasks[t].jobId == j && retried.db.tasks[t].status.TaskQueued?
      && GoneTask(Step(retried, Delete({j})), t)
  {
    hide Inv, Apply, Uncrowded, Deleted;
    t := RetryReopens(s.db, action, j);
    var retried := Step(s, Act(action));
    DeletedShape(retried.db, Victims(retried, {j}));
  }

  // ---------------------------------------------------------------- runs from the start

  function Opened(db: Db): Store { Store(db, {}, {}, {}) }

  /** A state some run of steps, selections and deletions leads to from an empty database. */
  ghost predicate StoreReachable(s: Store) {
    exists start, events :: Fresh(start) && s == After(Opened(start), events)
  }

  lemma StoreReachableInv(s: Store)
    requires StoreReachable(s)
    ensures StoreInv(s)
  {
    var start, events :| Fresh(start) && s == After(Opened(start), events);
    FreshInv(start);
    OpenedInv(start);
    StoreRun(Opened(start), events);
  }

  lemma OpenedInv(db: Db)
    requires Inv(db)
    ensures StoreInv(Opened(db))
  {
    Pieces(db);
    hide Inv;
    forall queue ensures OrphansOf(Opened(db), queue) == {} {}
  }

  // ---------------------------------------------------------------- keys

  lemma RemembersEvent(s: Store, e: Event, j: nat, spec: JobSpec)
    requires spec.idempotencyKey != "" && Remembers(s.db, j, spec) && j !in Step(s, e).gone
    ensures Remembers(Step(s, e).db, j, spec)
  {
    hide Apply, Deleted, RootHeaders;
    match e
    case Act(action) => if !Barred(s, action) { RemembersStep(s.db, action, j, spec); }
    case Delete(jobs) => RemembersDeletion(s.db, Victims(s, jobs), j, spec);
    case _ =>
  }

  lemma RemembersDeletion(db: Db, jobs: set<nat>, j: nat, spec: JobSpec)
    requires spec.idempotencyKey != "" && Remembers(db, j, spec) && j !in jobs
    ensures Remembers(Deleted(db, jobs), j, spec)
  {
    DeletedShape(db, jobs);
    hide Deleted, RootHeaders;
    RootsFrame(db.tasks, Deleted(db, jobs).tasks, j);
  }

  lemma GoneGrows(s: Store, e: Event)
    ensures s.gone <= Step(s, e).gone
  {
    hide Apply, Deleted, Barred;
  }

  lemma {:induction false} RemembersEvents(s: Store, events: seq<Event>, j: nat, spec: JobSpec)
    requires spec.idempotencyKey != "" && Remembers(s.db, j, spec) && j !in After(s, events).gone
    ensures Remembers(After(s, events).db, j, spec)
  {
    hide Remembers, Step;
    if events == [] {
    } else {
      GoneGrows(After(s, events[..|events| - 1]), events[|events| - 1]);
      RemembersEvents(s, events[..|events| - 1], j, spec);
      RemembersEvent(After(s, events[..|events| - 1]), events[|events| - 1], j, spec);
    }
  }

  /** A keyed request that created a job finds that job again, and then changes nothing, for exactly as long
      as the job has not been deleted. */
  lemma RepeatedUntilRetained(s: Store, spec: JobSpec, events: seq<Event>)
    requires StoreInv(s) && spec.idempotencyKey != "" && EnqueueVerdict(s.db, spec).Created?
    ensures var j, later := |s.db.jobs|, After(Step(s, Act(Enqueue(spec))), events);
      && (EnqueueVerdict(later.db, spec) == Reused(j) <==> j !in later.gone)
      && (j !in later.gone ==> Step(later, Act(Enqueue(spec))) == later)
  {
    hide StoreInv, Apply, Remembers, After, Step, EnqueueVerdict;
    var j := |s.db.jobs|;
    var created := Step(s, Act(Enqueue(spec)));
    var later := After(created, events);
    Created(s, spec);
    StoreStep(s, Act(Enqueue(spec)));
    StoreRun(created, events);
    if j in later.gone {
      KeyGone(later, j, spec);
    } else {
      RemembersEvents(created, events, j, spec);
      Repeats(later, j, spec);
    }
  }

  lemma Created(s: Store, spec: JobSpec)
    requires StoreInv(s) && spec.idempotencyKey != "" && EnqueueVerdict(s.db, spec).Created?
    ensures Remembers(Step(s, Act(Enqueue(spec))).db, |s.db.jobs|, spec) && ValidSpec(spec)
  {
    Rooted(s.db);
    CreatedRemembered(s.db, spec);
    hide StoreInv, Remembers, EnqueueStep;
  }

  lemma Repeats(s: Store, j: nat, spec: JobSpec)
    requires Remembers(s.db, j, spec) && spec.idempotencyKey != "" && ValidSpec(spec)
    ensures EnqueueVerdict(s.db, spec) == Reused(j) && Step(s, Act(Enqueue(spec))) == s
  {
    RememberedReused(s.db, j, spec);
    hide Remembers, EnqueueStep, EnqueueVerdict;
  }

  lemma Rooted(db: Db)
    requires Inv(db)
    ensures forall t | 0 <= t < |db.tasks| :: db.tasks[t].jobId < |db.jobs|
  {
    Pieces(db);
    hide Inv;
  }

  lemma KeyGone(s: Store, j: nat, spec: JobSpec)
    requires StoreInv(s) && j in s.gone && spec.idempotencyKey != ""
    ensures EnqueueVerdict(s.db, spec) != Reused(j)
  {
    hide Inv, SameRequest, ValidSpec, KeyHolder, Uncrowded;
  }
}
