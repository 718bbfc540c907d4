/** Priority aging: who may be claimed before whom. */
module Dispatch {
  import opened Common
  import opened BackgroundTypes
  import opened RuntimeSteps
  import opened RowView

  /** No task was created in the future. */
  ghost predicate CreatedBefore(db: Db) {
    forall t | 0 <= t < |db.tasks| :: db.tasks[t].header.createdAt <= db.now
  }

  lemma CreatedStep(db: Db, action: Action)
    requires CreatedBefore(db)
    ensures CreatedBefore(Apply(db, action))
  {
    var post := Apply(db, action);
    assert post.now >= db.now by { ClockStep(db, action); }
    hide Apply;
    RowStep(db, action);
    forall t | 0 <= t < |post.tasks| ensures post.tasks[t].header.createdAt <= post.now {
      if t < |db.tasks| {
        IdentityStep(db, action, t);
      } else {
        assert CreatedRow(db, action, post.tasks[t]);
      }
    }
  }

  lemma ClockStep(db: Db, action: Action)
    ensures Apply(db, action).now >= db.now
  {
  }

  lemma {:induction false} CreatedRun(db: Db, actions: seq<Action>)
    requires Fresh(db)
    ensures CreatedBefore(Run(db, actions))
  {
    hide Apply;
    if actions == [] {
    } else {
      CreatedRun(db, actions[..|actions| - 1]);
      CreatedStep(Run(db, actions[..|actions| - 1]), actions[|actions| - 1]);
    }
  }

  /** Creation time as the aging formula sees it: never later than the current whole second. */
  function SeenAt(db: Db, t: nat): int
    requires t < |db.tasks|
  {
    var c, w := db.tasks[t].header.createdAt, WholeSecond(db.now);
    if c <= w then c else w
  }

  /** Aging in terms of what the formula sees: rounding down loses less than a minute. */
  lemma AgeGap(db: Db, a: nat, b: nat)
    requires a < |db.tasks| && b < |db.tasks|
    requires db.tasks[a].header.createdAt <= db.now && db.tasks[b].header.createdAt <= db.now
    ensures var gap := (Score(db, a) - db.tasks[a].header.priority) - (Score(db, b) - db.tasks[b].header.priority);
      (gap - 1) * MINUTE < SeenAt(db, b) - SeenAt(db, a) < (gap + 1) * MINUTE
  {
    SeenAge(db, a);
    SeenAge(db, b);
  }

  lemma SeenAge(db: Db, t: nat)
    requires t < |db.tasks| && db.tasks[t].header.createdAt <= db.now
    ensures Score(db, t) - db.tasks[t].header.priority == (WholeSecond(db.now) - SeenAt(db, t)) / MINUTE
    ensures WholeSecond(db.now) <= db.now < WholeSecond(db.now) + SECOND
  {
  }

  /** Bounded overtaking. Whoever is claimed while A could have been is no younger than A, or the
      formula sees it created less than (its priority - A's priority) minutes after A. */
  lemma BoundedOvertaking(db: Db, queue: string, a: nat, b: nat)
    requires Reachable(db)
    requires Claimable(db, queue, a) && Best(db, queue, |db.tasks|) == Some(b)
    ensures b < |db.tasks|
    ensures var ta, tb := db.tasks[a].header, db.tasks[b].header;
      && (tb.createdAt <= ta.createdAt
          || SeenAt(db, b) - SeenAt(db, a) < (tb.priority - ta.priority) * MINUTE)
      && (tb.createdAt <= ta.createdAt
          || tb.createdAt - ta.createdAt < (tb.priority - ta.priority) * MINUTE + SECOND)
  {
    hide Run;
    assert CreatedBefore(db) by {
      var start, actions :| Fresh(start) && db == Run(start, actions);
      CreatedRun(start, actions);
    }
    if a != b {
      assert Precedes(db, b, a);
      hide Score, Best, Claimable, Reachable;
      AgeGap(db, a, b);
      assert SeenAt(db, b) > db.tasks[b].header.createdAt - SECOND by { SeenAge(db, b); }
    }
  }

  /** Of tasks created together with one priority the first row goes first. */
  lemma TiesInOrder(db: Db, queue: string, a: nat, b: nat)
    requires Claimable(db, queue, a) && Best(db, queue, |db.tasks|) == Some(b)
    requires db.tasks[a].header.priority == db.tasks[b].header.priority
    requires db.tasks[a].header.createdAt == db.tasks[b].header.createdAt
    ensures b <= a
  {
    assert a != b ==> Precedes(db, b, a);
  }

  /** Without the whole-second rounding the bound is the plain one, for a rival not created within
      the current second. */
  lemma PlainOvertaking(db: Db, queue: string, a: nat, b: nat)
    requires Reachable(db)
    requires Claimable(db, queue, a) && Best(db, queue, |db.tasks|) == Some(b)
    requires db.tasks[b].header.createdAt <= WholeSecond(db.now)
    ensures var ta, tb := db.tasks[a].header, db.tasks[b].header;
      tb.createdAt <= ta.createdAt || tb.createdAt - ta.createdAt < (tb.priority - ta.priority) * MINUTE
  {
    hide Run, Claimable;
    BoundedOvertaking(db, queue, a, b);
  }

  /** The older of two tasks is overtaken: the claim order puts the one created at `cb`, `gap` priorities
      higher, before the one created at `ca`. */
  predicate Overtakes(now: int, ca: int, cb: int, gap: int) {
    gap + Truncate(WholeSecond(now) - cb, MINUTE) > Truncate(WholeSecond(now) - ca, MINUTE)
  }

  lemma PrecedesMeans(db: Db, a: nat, b: nat)
    requires a < |db.tasks| && b < |db.tasks| && db.tasks[a].header.createdAt < db.tasks[b].header.createdAt
    ensures Precedes(db, b, a)
        <==> Overtakes(db.now, db.tasks[a].header.createdAt, db.tasks[b].header.createdAt,
                       db.tasks[b].header.priority - db.tasks[a].header.priority)
  {
  }

  /** The plain bound, without the extra second: it holds for every older task exactly when the overtaking
      one was not created within the current second, or has no higher priority. */
  lemma PlainBoundExact(now: int, cb: int, gap: int)
    requires cb <= now
    ensures (forall ca | ca < cb && Overtakes(now, ca, cb, gap) :: cb - ca < gap * MINUTE)
        <==> gap <= 0 || cb <= WholeSecond(now)
  {
    var w := WholeSecond(now);
    if gap <= 0 || cb <= w {
      forall ca | ca < cb && Overtakes(now, ca, cb, gap) ensures cb - ca < gap * MINUTE {
        AgedApart(w, ca, cb, gap);
      }
    } else {
      var ca := cb - gap * MINUTE;
      JustOvertaken(now, ca, cb, gap);
    }
  }

  lemma AgedApart(w: int, ca: int, cb: int, gap: int)
    requires ca < cb && (gap <= 0 || cb <= w) && cb < w + SECOND
    requires gap + Truncate(w - cb, MINUTE) > Truncate(w - ca, MINUTE)
    ensures gap > 0 && cb - ca < gap * MINUTE
  {
  }

  /** A task created within the current second overtakes one created exactly the priority gap in minutes
      before it. */
  lemma JustOvertaken(now: int, ca: int, cb: int, gap: int)
    requires gap >= 1 && WholeSecond(now) < cb <= now && ca == cb - gap * MINUTE
    ensures Overtakes(now, ca, cb, gap)
  {
    var w := WholeSecond(now);
    assert 0 < cb - w < SECOND;
    assert Truncate(w - cb, MINUTE) == 0;
    assert w - ca == (gap - 1) * MINUTE + (MINUTE - (cb - w));
    assert (w - ca) / MINUTE == gap - 1;
  }

  /** And where the condition fails some run shows it: two requests, the second `gap` minutes later and
      `gap` priorities higher, created within the current second, and it is claimed first. */
  lemma PlainBoundFails(header: JobHeader, spec: TaskSpec, now: int, cb: int, gap: int) returns (db: Db)
    requires !Blank(header.kind) && !Blank(spec.kind) && !Blank(spec.queue) && spec.runAfter.None?
    requires gap >= 1 && WholeSecond(now) < cb <= now
    ensures Reachable(db) && db.now == now && |db.tasks| == 2
    ensures Claimable(db, spec.queue, 0) && Best(db, spec.queue, 2) == Some(1)
    ensures var ta, tb := db.tasks[0].header, db.tasks[1].header;
      && tb.createdAt == cb && tb.priority - ta.priority == gap
      && tb.createdAt - ta.createdAt == gap * MINUTE
  {
    var ca := cb - gap * MINUTE;
    var higher := spec.(priority := spec.priority + gap);
    db := TwoRequests(header, spec, higher, ca, gap * MINUTE, now - cb);
    hide Reachable, Blank, NewTask, Claimable, Best, WholeSecond;
    TwoWaiting(db, header, spec, ca, cb, gap);
  }

  /** A run that makes the two requests. */
  lemma TwoRequests(header: JobHeader, first: TaskSpec, second: TaskSpec, ca: int, gap: nat, rest: nat)
    returns (db: Db)
    requires !Blank(header.kind) && !Blank(first.kind) && !Blank(first.queue)
    requires !Blank(second.kind) && !Blank(second.queue)
    ensures var job := Job(header, "", JobQueued, 0, false, false);
      && Reachable(db)
      && db == Db([job, job], [NewTask(0, None, first, ca), NewTask(1, None, second, ca + gap)], [], map[], map[], {},
                  ca + gap + rest)
  {
    hide Run, Reachable, Blank, NewTask;
    var actions := [Enqueue(JobSpec(header, "", [first])), Tick(gap),
                    Enqueue(JobSpec(header, "", [second])), Tick(rest)];
    db := Run(Nothing(ca), actions);
    ReachedBy(ca, actions);
    BothQueued(header, first, second, ca, gap, rest);
  }

  function Nothing(now: int): Db { Db([], [], [], map[], map[], {}, now) }

  lemma ReachedBy(now: int, actions: seq<Action>)
    ensures Reachable(Run(Nothing(now), actions))
  {
    hide Run;
    assert Fresh(Nothing(now));
  }

  lemma BothQueued(header: JobHeader, first: TaskSpec, second: TaskSpec, ca: int, gap: nat, rest: nat)
    requires !Blank(header.kind) && !Blank(first.kind) && !Blank(first.queue)
    requires !Blank(second.kind) && !Blank(second.queue)
    ensures var job := Job(header, "", JobQueued, 0, false, false);
      Run(Nothing(ca), [Enqueue(JobSpec(header, "", [first])), Tick(gap),
                        Enqueue(JobSpec(header, "", [second])), Tick(rest)])
      == Db([job, job], [NewTask(0, None, first, ca), NewTask(1, None, second, ca + gap)], [], map[], map[], {},
            ca + gap + rest)
  {
    RequestsApart(Nothing(ca), JobSpec(header, "", [first]), gap, JobSpec(header, "", [second]), rest);
    OneTask(Nothing(ca), header, first);
    OneTask(EnqueueStep(Nothing(ca), JobSpec(header, "", [first])).(now := ca + gap), header, second);
    hide EnqueueStep, Run, Blank, NewTask;
  }

  lemma RequestsApart(db: Db, first: JobSpec, gap: nat, second: JobSpec, rest: nat)
    ensures Run(db, [Enqueue(first), Tick(gap), Enqueue(second), Tick(rest)])
         == var once := EnqueueStep(db, first);
            var twice := EnqueueStep(once.(now := once.now + gap), second);
            twice.(now := twice.now + rest)
  {
    RunFour(db, Enqueue(first), Tick(gap), Enqueue(second), Tick(rest));
    hide EnqueueStep, Run;
  }

  lemma OneTask(db: Db, header: JobHeader, spec: TaskSpec)
    requires !Blank(header.kind) && !Blank(spec.kind) && !Blank(spec.queue)
    ensures EnqueueStep(db, JobSpec(header, "", [spec]))
         == db.(jobs := db.jobs + [Job(header, "", JobQueued, 0, false, false)],
                tasks := db.tasks + [NewTask(|db.jobs|, None, spec, db.now)])
  {
    assert NewTasks(|db.jobs|, [spec], db.now) == [NewTask(|db.jobs|, None, spec, db.now)];
  }

  lemma TwoWaiting(db: Db, header: JobHeader, spec: TaskSpec, ca: int, cb: int, gap: int)
    requires spec.runAfter.None?
    requires gap >= 1 && WholeSecond(db.now) < cb <= db.now && ca == cb - gap * MINUTE
    requires db.jobs == [Job(header, "", JobQueued, 0, false, false), Job(header, "", JobQueued, 0, false, false)]
    requires db.tasks == [NewTask(0, None, spec, ca), NewTask(1, None, spec.(priority := spec.priority + gap), cb)]
    ensures Claimable(db, spec.queue, 0) && Best(db, spec.queue, 2) == Some(1)
    ensures var ta, tb := db.tasks[0].header, db.tasks[1].header;
      && tb.createdAt == cb && tb.priority - ta.priority == gap
      && tb.createdAt - ta.createdAt == gap * MINUTE
  {
    JustOvertaken(db.now, ca, cb, gap);
    PrecedesMeans(db, 0, 1);
    hide Score, Overtakes;
  }

  lemma RunFour(db: Db, a: Action, b: Action, c: Action, d: Action)
    ensures Run(db, [a, b, c, d]) == Apply(Apply(Apply(Apply(db, a), b), c), d)
  {
    hide Apply;
    assert [a, b, c, d][..3] == [a, b, c] && [a, b, c][..2] == [a, b] && [a, b][..1] == [a] && [a][..0] == [];
    assert Run(db, [a]) == Apply(db, a);
    assert Run(db, [a, b]) == Apply(Apply(db, a), b);
    assert Run(db, [a, b, c]) == Apply(Apply(Apply(db, a), b), c);
  }

  /** The converse: aging wins. Once the rival is seen at least the priority gap in minutes younger,
      plus the minute rounding may cost, A goes first. */
  lemma AgingWins(db: Db, a: nat, b: nat)
    requires a < |db.tasks| && b < |db.tasks|
    requires db.tasks[a].header.createdAt <= db.now && db.tasks[b].header.createdAt <= db.now
    requires SeenAt(db, b) - SeenAt(db, a) >= (db.tasks[b].header.priority - db.tasks[a].header.priority + 1) * MINUTE
    ensures Precedes(db, a, b)
  {
    hide Score;
    AgeGap(db, a, b);
  }
}
