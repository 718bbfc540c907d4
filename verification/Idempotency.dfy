/** Enqueuing the same keyed request again, however much later, finds the first job. */
module Idempotency {
  import opened Common
  import opened BackgroundTypes
  import opened JobReduction
  import opened RuntimeSteps
  import opened RowView

  /** The headers of a job's root tasks, in creation order. */
  function RootHeaders(tasks: seq<Task>, j: nat): seq<TaskHeader> {
    if tasks == [] then []
    else
      var last := tasks[|tasks| - 1];
      RootHeaders(tasks[..|tasks| - 1], j)
        + if last.jobId == j && last.header.parent.None? then [last.header] else []
  }

  lemma {:induction false} RootsAre(tasks: seq<Task>, j: nat)
    ensures var roots := Roots(Rows(tasks, j));
      && |roots| == |RootHeaders(tasks, j)|
      && forall i | 0 <= i < |roots| :: roots[i].header == RootHeaders(tasks, j)[i]
  {
    if tasks == [] {
    } else {
      var front, last := tasks[..|tasks| - 1], tasks[|tasks| - 1];
      RootsAre(front, j);
      var rows := Rows(tasks, j);
      if last.jobId == j {
        assert rows == Rows(front, j) + [last];
        assert rows[..|rows| - 1] == Rows(front, j);
      } else {
        assert rows == Rows(front, j);
      }
    }
  }

  /** Steps neither change nor add root tasks of an existing job. */
  lemma {:induction false} RootsFrame(before: seq<Task>, after: seq<Task>, j: nat)
    requires |before| <= |after|
    requires forall t | 0 <= t < |before| :: before[t].jobId == after[t].jobId && before[t].header == after[t].header
    requires forall t | |before| <= t < |after| :: after[t].jobId != j || after[t].header.parent.Some?
    ensures RootHeaders(before, j) == RootHeaders(after, j)
  {
    if |after| > |before| {
      RootsFrame(before, after[..|after| - 1], j);
    } else if before != [] {
      RootsFrame(before[..|before| - 1], after[..|after| - 1], j);
    }
  }

  /** What makes a later request with the same key a repetition of job j. */
  ghost predicate Remembers(db: Db, j: nat, spec: JobSpec) {
    && j < |db.jobs|
    && db.jobs[j].header == spec.header && db.jobs[j].idempotencyKey == spec.idempotencyKey
    && (forall i | 0 <= i < j :: db.jobs[i].idempotencyKey != spec.idempotencyKey)
    && |RootHeaders(db.tasks, j)| == |spec.tasks|
    && forall i | 0 <= i < |spec.tasks| ::
         var h := RootHeaders(db.tasks, j)[i];
         h.kind == spec.tasks[i].kind && h.queue == spec.tasks[i].queue && h.payload == spec.tasks[i].payload
  }

  lemma RemembersStep(db: Db, action: Action, j: nat, spec: JobSpec)
    requires Remembers(db, j, spec)
    ensures Remembers(Apply(db, action), j, spec)
  {
    hide Apply, RootHeaders;
    var post := Apply(db, action);
    RowStep(db, action);
    forall t | 0 <= t < |db.tasks|
      ensures post.tasks[t].jobId == db.tasks[t].jobId && post.tasks[t].header == db.tasks[t].header
    {
      IdentityStep(db, action, t);
    }
    forall t | |db.tasks| <= t < |post.tasks| ensures post.tasks[t].jobId != j || post.tasks[t].header.parent.Some? {
      assert CreatedRow(db, action, post.tasks[t]);
    }
    hide NextRow;
    RootsFrame(db.tasks, post.tasks, j);
    FlagStep(db, action, j);
    forall i | 0 <= i < j ensures post.jobs[i].idempotencyKey != spec.idempotencyKey { FlagStep(db, action, i); }
  }

  lemma {:induction false} RemembersRun(db: Db, actions: seq<Action>, j: nat, spec: JobSpec)
    requires Remembers(db, j, spec)
    ensures Remembers(Run(db, actions), j, spec)
  {
    hide Apply, Remembers;
    if actions == [] {
    } else {
      RemembersRun(db, actions[..|actions| - 1], j, spec);
      RemembersStep(Run(db, actions[..|actions| - 1]), actions[|actions| - 1], j, spec);
    }
  }

  lemma {:induction false} NewRoots(tasks: seq<Task>, j: nat, specs: seq<TaskSpec>, now: int)
    requires forall t | 0 <= t < |tasks| :: tasks[t].jobId != j
    ensures var headers := RootHeaders(tasks + NewTasks(j, specs, now), j);
      && |headers| == |specs|
      && forall i | 0 <= i < |specs| :: headers[i] == NewTask(j, None, specs[i], now).header
  {
    if specs == [] {
      assert tasks + NewTasks(j, specs, now) == tasks;
      RootsFrame([], tasks, j);
    } else {
      var front, last := specs[..|specs| - 1], NewTask(j, None, specs[|specs| - 1], now);
      NewRoots(tasks, j, front, now);
      RootAppend(tasks + NewTasks(j, front, now), last, j);
      hide RootHeaders;
      assert tasks + NewTasks(j, specs, now) == (tasks + NewTasks(j, front, now)) + [last];
    }
  }

  lemma RootAppend(tasks: seq<Task>, last: Task, j: nat)
    requires last.jobId == j && last.header.parent.None?
    ensures RootHeaders(tasks + [last], j) == RootHeaders(tasks, j) + [last.header]
  {
    assert (tasks + [last])[..|tasks|] == tasks;
  }

  lemma CreatedRemembered(db: Db, spec: JobSpec)
    requires forall t | 0 <= t < |db.tasks| :: db.tasks[t].jobId < |db.jobs|
    requires spec.idempotencyKey != "" && EnqueueVerdict(db, spec).Created?
    ensures Remembers(EnqueueStep(db, spec), |db.jobs|, spec)
  {
    NewRoots(db.tasks, |db.jobs|, spec.tasks, db.now);
    hide RootHeaders;
  }

  lemma RememberedReused(db: Db, j: nat, spec: JobSpec)
    requires Remembers(db, j, spec) && spec.idempotencyKey != "" && ValidSpec(spec)
    ensures EnqueueVerdict(db, spec) == Reused(j) && EnqueueStep(db, spec) == db
  {
    RootsAre(db.tasks, j);
    hide RootHeaders;
    assert KeyHolder(db.jobs, spec.idempotencyKey) == Some(j);
  }

  /** The two requests agree in what a repetition is recognised by: the job's header, and kind, queue and payload
      of every task. */
  predicate Agree(a: JobSpec, b: JobSpec) {
    && a.header == b.header && |a.tasks| == |b.tasks|
    && forall i | 0 <= i < |a.tasks| ::
         && a.tasks[i].kind == b.tasks[i].kind
         && a.tasks[i].queue == b.tasks[i].queue
         && a.tasks[i].payload == b.tasks[i].payload
  }

  lemma RememberedOther(db: Db, j: nat, spec: JobSpec, other: JobSpec)
    requires Remembers(db, j, spec) && spec.idempotencyKey != "" && ValidSpec(other)
    requires other.idempotencyKey == spec.idempotencyKey
    ensures EnqueueVerdict(db, other) == if Agree(spec, other) then Reused(j) else KeyConflict
    ensures EnqueueStep(db, other) == db
  {
    RootsAre(db.tasks, j);
    hide RootHeaders, ValidSpec;
    assert KeyHolder(db.jobs, spec.idempotencyKey) == Some(j);
    var roots := Roots(Rows(db.tasks, j));
    assert SameRequest(db.jobs[j], roots, other) <==> Agree(spec, other);
  }

  /** After a keyed request has created its job, any later request with the key is taken for a repetition of it
      exactly if the two agree, and for a conflict otherwise; either way nothing is written. */
  lemma OtherRequestConflicts(db: Db, spec: JobSpec, actions: seq<Action>, other: JobSpec)
    requires forall t | 0 <= t < |db.tasks| :: db.tasks[t].jobId < |db.jobs|
    requires spec.idempotencyKey != "" && EnqueueVerdict(db, spec).Created?
    requires ValidSpec(other) && other.idempotencyKey == spec.idempotencyKey
    ensures var later := Run(Apply(db, Enqueue(spec)), actions);
      && EnqueueVerdict(later, other) == (if Agree(spec, other) then Reused(|db.jobs|) else KeyConflict)
      && Apply(later, Enqueue(other)) == later
  {
    var j := |db.jobs|;
    var post := EnqueueStep(db, spec);
    CreatedRemembered(db, spec);
    hide EnqueueStep, NewTasks, Remembers, Run;
    RemembersRun(post, actions, j, spec);
    RememberedOther(Run(post, actions), j, spec, other);
  }

  /** A keyed request that created a job is remembered by every later state of every run: enqueuing
      it again returns that job and writes nothing. */
  lemma RepeatedEnqueue(db: Db, spec: JobSpec, actions: seq<Action>)
    requires forall t | 0 <= t < |db.tasks| :: db.tasks[t].jobId < |db.jobs|
    requires spec.idempotencyKey != "" && EnqueueVerdict(db, spec).Created?
    ensures var later := Run(Apply(db, Enqueue(spec)), actions);
      && EnqueueVerdict(later, spec) == Reused(|db.jobs|)
      && Apply(later, Enqueue(spec)) == later
  {
    var j := |db.jobs|;
    var post := EnqueueStep(db, spec);
    CreatedRemembered(db, spec);
    hide EnqueueStep, NewTasks, Remembers, Run;
    RemembersRun(post, actions, j, spec);
    RememberedReused(Run(post, actions), j, spec);
  }
}
