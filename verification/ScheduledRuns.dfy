/** Schedules and the runtime together: every run a schedule starts becomes a job of its own. */
module ScheduledRuns {
  import opened Common
  import opened BackgroundTypes
  import opened RuntimeSteps
  import opened RowView
  import opened Schedules
  import Retention
  import opened BackgroundRuntime
  import Dispatch

  /** The runtime, the schedule rows, and the runs claimed but not yet enqueued with the time of their poll. */
  datatype Plant = Plant(db: Db, rows: map<string, Schedule>, pending: map<string, nat>)

  /** A poll claims a due schedule in one statement and enqueues its run in a later one; anything may happen
      in between, and a process that stops there loses the run. */
  datatype Event =
    | Act(action: Action)
    | Forget(jobs: set<nat>)
    | Define(key: string, interval: int, atOnce: bool)
    | Toggle(key: string, enabled: bool)
    | Poll(key: string)
    | Submit(key: string, spec: JobSpec)
    | Stop

  const PREFIX := "schedule:"

  predicate Reserved(key: string) { |key| >= |PREFIX| && key[..|PREFIX|] == PREFIX }

  /** Requests of others use other keys, the manual runs of a schedule ("schedule-manual:") included. */
  predicate Lawful(e: Event) { e.Act? && e.action.Enqueue? ==> !Reserved(e.action.spec.idempotencyKey) }

  /** What a schedule's builder returned, with the fields the scheduler sets. */
  function Keyed(spec: JobSpec, key: string, interval: int, at: nat): JobSpec
    requires interval > 0
  {
    spec.(idempotencyKey := RunKey(key, interval, at), header := spec.header.(visibility := "system"))
  }

  predicate Pollable(p: Plant, key: string) {
    key in p.rows && key !in p.pending && p.db.now >= 0 && Due(p.rows[key], p.db.now)
  }

  predicate Submittable(p: Plant, key: string) {
    key in p.pending && key in p.rows && p.rows[key].interval > 0
  }

  ghost function Step(p: Plant, e: Event): Plant {
    match e
    case Act(action) => p.(db := Apply(p.db, action))
    case Forget(jobs) => p.(db := Retention.Deleted(p.db, jobs))
    case Define(key, interval, atOnce) =>
      if key in p.rows || interval <= 0 then p
      else p.(rows := p.rows[key := Schedule(interval, true, Some(p.db.now + if atOnce then 0 else interval))])
    case Toggle(key, enabled) =>
      if key in p.rows then p.(rows := p.rows[key := p.rows[key].(enabled := enabled)]) else p
    case Poll(key) =>
      if Pollable(p, key) then
        p.(rows := p.rows[key := Fire(p.rows[key], p.db.now)], pending := p.pending[key := p.db.now])
      else p
    case Submit(key, spec) =>
      if Submittable(p, key) then
        p.(db := Apply(p.db, Enqueue(Keyed(spec, key, p.rows[key].interval, p.pending[key]))),
           pending := p.pending - {key})
      else p
    case Stop => p.(pending := map[])
  }

  ghost function Reached(p: Plant, events: seq<Event>): Plant {
    if events == [] then p else Step(Reached(p, events[..|events| - 1]), events[|events| - 1])
  }

  ghost predicate New(p: Plant) { Fresh(p.db) && p.db.now >= 0 && p.rows == map[] && p.pending == map[] }

  // ---------------------------------------------------------------- where scheduled keys come from

  /** The key is that of an earlier run of the schedule: a whole interval before its next run, and before
      the one just claimed, if any. */
  predicate Spent(p: Plant, idempotencyKey: string, key: string, at: nat) {
    && key in p.rows && p.rows[key].interval > 0
    && idempotencyKey == RunKey(key, p.rows[key].interval, at)
    && p.rows[key].nextRunAt.Some? && at + p.rows[key].interval <= p.rows[key].nextRunAt.value
    && (key in p.pending ==> at + p.rows[key].interval <= p.pending[key])
  }

  ghost predicate Accounted(p: Plant, idempotencyKey: string) {
    Reserved(idempotencyKey) ==> exists key, at: nat :: Spent(p, idempotencyKey, key, at)
  }

  ghost predicate RowsSound(p: Plant) {
    && p.db.now >= 0
    && (forall key | key in p.rows :: p.rows[key].interval > 0)
    && (forall key | key in p.pending ::
          key in p.rows && p.rows[key].nextRunAt == Some(p.pending[key] + p.rows[key].interval))
  }

  ghost predicate Inv(p: Plant) {
    RowsSound(p) && forall j | 0 <= j < |p.db.jobs| :: Accounted(p, p.db.jobs[j].idempotencyKey)
  }

  lemma RunKeyReserved(key: string, interval: int, at: nat)
    requires interval > 0
    ensures Reserved(RunKey(key, interval, at))
  {
    assert RunKey(key, interval, at)[..|PREFIX|] == PREFIX;
  }

  /** Schedule events leave earlier runs accounted for. */
  lemma RowsStep(p: Plant, e: Event)
    requires RowsSound(p) && !e.Act? && !e.Forget? && !e.Submit?
    ensures RowsSound(Step(p, e))
    ensures forall k :: Accounted(p, k) ==> Accounted(Step(p, e), k)
  {
    forall k | Accounted(p, k) && Reserved(k) ensures Accounted(Step(p, e), k) {
      var key, at: nat :| Spent(p, k, key, at);
      assert Spent(Step(p, e), k, key, at);
    }
  }

  lemma SameRows(p: Plant, q: Plant, k: string)
    requires q.rows == p.rows && q.pending == p.pending && Accounted(p, k)
    ensures Accounted(q, k)
  {
    if Reserved(k) {
      var key, at: nat :| Spent(p, k, key, at);
      assert Spent(q, k, key, at);
    }
  }

  lemma ActStep(p: Plant, e: Event)
    requires Inv(p) && Lawful(e) && e.Act?
    ensures Inv(Step(p, e))
  {
    var post := Step(p, e);
    Dispatch.ClockStep(p.db, e.action);
    JobsStep(p.db, e.action);
    hide Apply, Accounted;
    forall j | 0 <= j < |post.db.jobs| ensures Accounted(post, post.db.jobs[j].idempotencyKey) {
      if j < |p.db.jobs| {
        HeaderStep(p.db, e.action, j);
        SameRows(p, post, p.db.jobs[j].idempotencyKey);
      } else {
        Unreserved(post, post.db.jobs[j].idempotencyKey);
      }
    }
  }

  lemma Unreserved(p: Plant, k: string)
    requires !Reserved(k)
    ensures Accounted(p, k)
  {
  }

  lemma ForgetJob(p: Plant, e: Event, j: nat)
    requires Inv(p) && e.Forget? && j < |Step(p, e).db.jobs|
    ensures Accounted(Step(p, e), Step(p, e).db.jobs[j].idempotencyKey)
  {
    var post := Step(p, e);
    Retention.DeletedKeys(p.db, e.jobs);
    hide Retention.Deleted, Step, RowsSound;
    if j in e.jobs {
      assert !Reserved("");
    } else {
      hide Reserved, Spent;
      SameRows(p, post, p.db.jobs[j].idempotencyKey);
    }
  }

  lemma ForgetShape(p: Plant, e: Event)
    requires e.Forget?
    ensures Step(p, e) == p.(db := Retention.Deleted(p.db, e.jobs))
  {
    hide Apply, Retention.Deleted, Due, Fire, Keyed;
  }

  lemma ForgetRows(p: Plant, e: Event)
    requires RowsSound(p) && e.Forget?
    ensures RowsSound(Step(p, e))
  {
    hide Retention.Deleted, Step, Apply, RowsSound;
    ForgetShape(p, e);
    Retention.DeletedKeys(p.db, e.jobs);
    SoundRows(p, Step(p, e));
  }

  lemma SoundRows(p: Plant, q: Plant)
    requires RowsSound(p) && q.rows == p.rows && q.pending == p.pending && q.db.now == p.db.now
    ensures RowsSound(q)
  {
  }

  lemma ForgetStep(p: Plant, e: Event)
    requires Inv(p) && e.Forget?
    ensures Inv(Step(p, e))
  {
    ForgetRows(p, e);
    hide Accounted, Retention.Deleted, Step, RowsSound;
    forall j | 0 <= j < |Step(p, e).db.jobs|
      ensures Accounted(Step(p, e), Step(p, e).db.jobs[j].idempotencyKey)
    {
      ForgetJob(p, e, j);
    }
  }

  lemma SubmitStep(p: Plant, e: Event)
    requires Inv(p) && e.Submit? && Submittable(p, e.key)
    ensures Inv(Step(p, e))
  {
    var post := Step(p, e);
    var spec := Keyed(e.spec, e.key, p.rows[e.key].interval, p.pending[e.key]);
    Dispatch.ClockStep(p.db, Enqueue(spec));
    JobsStep(p.db, Enqueue(spec));
    hide Apply, Accounted;
    forall j | 0 <= j < |post.db.jobs| ensures Accounted(post, post.db.jobs[j].idempotencyKey) {
      if j < |p.db.jobs| {
        HeaderStep(p.db, Enqueue(spec), j);
        LessPending(p, post, e.key, p.db.jobs[j].idempotencyKey);
      } else {
        NowSpent(p, post, e.key);
      }
    }
  }

  lemma LessPending(p: Plant, q: Plant, gone: string, k: string)
    requires q.rows == p.rows && q.pending == p.pending - {gone} && Accounted(p, k)
    ensures Accounted(q, k)
  {
    if Reserved(k) {
      var key, at: nat :| Spent(p, k, key, at);
      assert Spent(q, k, key, at);
    }
  }

  lemma NowSpent(p: Plant, q: Plant, key: string)
    requires RowsSound(p) && key in p.pending && q.rows == p.rows && q.pending == p.pending - {key}
    ensures Accounted(q, RunKey(key, p.rows[key].interval, p.pending[key]))
  {
    assert Spent(q, RunKey(key, p.rows[key].interval, p.pending[key]), key, p.pending[key]);
  }

  lemma StepKeeps(p: Plant, e: Event)
    requires Inv(p) && Lawful(e)
    ensures Inv(Step(p, e))
  {
    if e.Act? {
      ActStep(p, e);
    } else if e.Forget? {
      ForgetStep(p, e);
    } else if e.Submit? {
      if Submittable(p, e.key) { SubmitStep(p, e); }
    } else {
      RowsStep(p, e);
    }
  }

  lemma {:induction false} RunKeeps(p: Plant, events: seq<Event>)
    requires Inv(p) && forall i | 0 <= i < |events| :: Lawful(events[i])
    ensures Inv(Reached(p, events))
  {
    hide Inv, Step, Lawful;
    if events == [] {
    } else {
      RunKeeps(p, events[..|events| - 1]);
      StepKeeps(Reached(p, events[..|events| - 1]), events[|events| - 1]);
    }
  }

  // ---------------------------------------------------------------- no due run is swallowed

  lemma KeyUnused(p: Plant, key: string, j: nat)
    requires Inv(p) && Submittable(p, key) && j < |p.db.jobs|
    ensures p.db.jobs[j].idempotencyKey != RunKey(key, p.rows[key].interval, p.pending[key])
  {
    var mine := RunKey(key, p.rows[key].interval, p.pending[key]);
    RunKeyReserved(key, p.rows[key].interval, p.pending[key]);
    assert Accounted(p, p.db.jobs[j].idempotencyKey);
    if p.db.jobs[j].idempotencyKey == mine {
      var other, at: nat :| Spent(p, mine, other, at);
      RunKeyInjective(other, p.rows[other].interval, at, key, p.rows[key].interval, p.pending[key]);
      QuotientGrows(at, p.pending[key], p.rows[key].interval);
    }
  }

  /** Over every run of the runtime and its schedules, each claimed run becomes a new job: its key is not
      taken for a repetition of, or a conflict with, any other job, whichever schedule or caller that is of.
      Only an invalid request or two tasks with one dedupe key stop it. */
  lemma DueRunCreated(start: Plant, events: seq<Event>, key: string, spec: JobSpec)
    requires New(start) && forall i | 0 <= i < |events| :: Lawful(events[i])
    requires Submittable(Reached(start, events), key)
    ensures var p := Reached(start, events);
      var request := Keyed(spec, key, p.rows[key].interval, p.pending[key]);
      EnqueueVerdict(p.db, request)
      == if !ValidSpec(spec) then InvalidSpec else if !DistinctKeys(spec.tasks) then DuplicateTask
         else Created(|p.db.jobs|)
  {
    RunKeeps(start, events);
    var p := Reached(start, events);
    forall j | 0 <= j < |p.db.jobs|
      ensures p.db.jobs[j].idempotencyKey != RunKey(key, p.rows[key].interval, p.pending[key])
    {
      KeyUnused(p, key, j);
    }
  }

  // ---------------------------------------------------------------- the scheduler's pass

  function Passes(order: seq<string>, build: map<string, JobSpec>): seq<Event>
    requires forall i | 0 <= i < |order| :: order[i] in build
  {
    if order == [] then []
    else
      var key := order[|order| - 1];
      Passes(order[..|order| - 1], build) + [Poll(key), Submit(key, build[key])]
  }

  lemma ReachedTwo(p: Plant, events: seq<Event>, a: Event, b: Event)
    ensures Reached(p, events + [a, b]) == Step(Step(Reached(p, events), a), b)
  {
    hide Step;
    var all := events + [a, b];
    assert all[..|all| - 1] == events + [a];
    assert (events + [a])[..|events|] == events;
  }

  lemma PassesMore(order: seq<string>, build: map<string, JobSpec>, key: string)
    requires (forall i | 0 <= i < |order| :: order[i] in build) && key in build
    ensures Passes(order + [key], build) == Passes(order, build) + [Poll(key), Submit(key, build[key])]
  {
    assert (order + [key])[..|order|] == order;
  }

  lemma PassMore(p: Plant, order: seq<string>, build: map<string, JobSpec>, key: string)
    requires (forall i | 0 <= i < |order| :: order[i] in build) && key in build
    requires var q := Reached(p, Passes(order, build));
      q.pending == map[] && Pollable(q, key) && q.rows[key].interval > 0
    ensures var (q, post) := (Reached(p, Passes(order, build)), Reached(p, Passes(order + [key], build)));
      post == Plant(EnqueueStep(q.db, Keyed(build[key], key, q.rows[key].interval, q.db.now)),
                    q.rows[key := Fire(q.rows[key], q.db.now)], map[])
  {
    hide Reached, EnqueueStep, Keyed, Due, Retention.Deleted;
    var q := Reached(p, Passes(order, build));
    PassesMore(order, build, key);
    hide Passes;
    ReachedTwo(p, Passes(order, build), Poll(key), Submit(key, build[key]));
    assert q.pending[key := q.db.now] - {key} == map[];
  }

  class Scheduler {
    const runtime: Runtime
    var rows: map<string, Schedule>

    ghost function View(): Plant
      reads this, runtime
    {
      Plant(runtime.State(), rows, map[])
    }

    constructor (runtime: Runtime, rows: map<string, Schedule>)
      ensures this.runtime == runtime && this.rows == rows
    {
      this.runtime, this.rows := runtime, rows;
    }

    /** Claim one due schedule and enqueue its run. */
    method RunSchedule(key: string, spec: JobSpec)
      requires runtime.now >= 0 && key in rows && rows[key].interval > 0
      modifies this`rows, runtime`jobs, runtime`tasks
      ensures rows == old(rows)[key := Fire(old(rows)[key], runtime.now)]
      ensures runtime.State()
           == EnqueueStep(old(runtime.State()), Keyed(spec, key, old(rows)[key].interval, runtime.now))
    {
      var state := rows[key];
      rows := rows[key := state.(nextRunAt := Some(runtime.now + state.interval))];
      var result := runtime.Enqueue(Keyed(spec, key, state.interval, runtime.now));
    }

    /** One pass over all definitions, in any order: every due schedule, and no other, is claimed and its
        run enqueued with its own key. */
    method RunDueSchedules(build: map<string, JobSpec>) returns (ghost order: seq<string>)
      requires runtime.now >= 0 && forall k | k in rows :: rows[k].interval > 0 && k in build
      modifies this`rows, runtime`jobs, runtime`tasks
      ensures Distinct(order)
      ensures forall k :: k in order <==> k in old(rows) && Due(old(rows)[k], runtime.now)
      ensures forall i | 0 <= i < |order| :: order[i] in build
      ensures View() == Reached(old(View()), Passes(order, build))
    {
      hide Reached, EnqueueStep, Passes, Fire, Keyed;
      order := [];
      ghost var was := View();
      PassNone(was, build);
      var rest := rows.Keys;
      while rest != {}
        invariant rest <= rows.Keys == old(rows).Keys && Distinct(order)
        invariant forall k | k in rest :: rows[k] == old(rows)[k]
        invariant forall k | k in rows :: rows[k].interval == old(rows)[k].interval
        invariant forall k :: k in order <==> k in old(rows) && k !in rest && Due(old(rows)[k], runtime.now)
        invariant forall i | 0 <= i < |order| :: order[i] in build
        invariant View() == Reached(was, Passes(order, build))
        decreases rest
      {
        var key :| key in rest;
        rest := rest - {key};
        var state := rows[key];
        if state.enabled && (state.nextRunAt.None? || state.nextRunAt.value <= runtime.now) {
          PassMore(was, order, build, key);
          FireKeeps(state, runtime.now);
          RunSchedule(key, build[key]);
          order := order + [key];
        }
      }
    }
  }

  lemma PassNone(p: Plant, build: map<string, JobSpec>)
    ensures Reached(p, Passes([], build)) == p
  {
  }

  lemma FireKeeps(s: Schedule, now: int)
    ensures Fire(s, now).interval == s.interval
  {
  }
}
