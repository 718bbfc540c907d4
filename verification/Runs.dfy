/** The invariant over runs. */
module Runs {
  import opened BackgroundTypes
  import opened RuntimeSteps
  import opened RuntimeInvariants
  import opened RowView
  import opened Preservation

  lemma {:induction false} Subset(a: set<nat>, b: set<nat>)
    requires a <= b
    ensures |a| <= |b|
  {
    assert b == a + (b - a);
  }

  /** Any step but a claim only shrinks the set of live workers. */
  lemma WorkersShrink(pre: Db, post: Db, queue: string)
    requires Live(pre) && |pre.tasks| <= |post.tasks|
    requires forall t | t in post.active :: t in pre.active
    requires forall t | 0 <= t < |pre.tasks| :: post.tasks[t].header == pre.tasks[t].header
    ensures |Workers(post, queue)| <= |Workers(pre, queue)|
  {
    Subset(Workers(post, queue), Workers(pre, queue));
  }

  /** A claim adds one worker, to its own queue, and only below the limit. */
  lemma ClaimWorkers(db: Db, queue: string, other: string)
    requires |Workers(db, other)| <= Capacity(db.limits, other)
    ensures |Workers(ClaimStep(db, queue), other)| <= Capacity(db.limits, other)
  {
    hide Precedes, Claimed, Workers, ClaimStep;
    ClaimSettles(db, queue);
    var best := Best(db, queue, |db.tasks|);
    if MayClaim(db, queue) && best.Some? {
      ClaimedWorkers(db, best.value, other);
      JobsFree(Claimed(db, best.value), ClaimStep(db, queue).jobs, other);
    }
  }

  lemma ClaimSettles(db: Db, queue: string)
    ensures var best := Best(db, queue, |db.tasks|);
      if MayClaim(db, queue) && best.Some?
      then ClaimStep(db, queue) == Claimed(db, best.value).(jobs := ClaimStep(db, queue).jobs)
      else ClaimStep(db, queue) == db
  {
    hide Precedes, Claimable, Claimed, Workers;
  }

  /** Recomputing jobs does not touch workers. */
  lemma JobsFree(db: Db, jobs: seq<Job>, queue: string)
    ensures Workers(db.(jobs := jobs), queue) == Workers(db, queue)
  {
  }

  lemma ClaimedWorkers(db: Db, t: nat, other: string)
    requires t < |db.tasks|
    ensures Workers(Claimed(db, t), other)
         == Workers(db, other) + if db.tasks[t].header.queue == other then {t} else {}
  {
  }

  /** A claim adds at most one worker, to its own queue. */
  lemma ClaimAdds(db: Db, queue: string, other: string)
    ensures |Workers(ClaimStep(db, queue), other)| <= |Workers(db, other)| + if other == queue then 1 else 0
    ensures ClaimStep(db, queue).limits == db.limits && ClaimStep(db, queue).pausedQueues == db.pausedQueues
  {
    var best := Best(db, queue, |db.tasks|);
    assert best.Some? ==> db.tasks[best.value].header.queue == queue;
    hide Workers, ClaimStep, Precedes, Claimable, Score;
    ClaimSettles(db, queue);
    if MayClaim(db, queue) && best.Some? {
      ClaimedWorkers(db, best.value, other);
      JobsFree(Claimed(db, best.value), ClaimStep(db, queue).jobs, other);
    }
  }

  lemma ActiveStep(db: Db, action: Action)
    requires !action.Claim?
    ensures forall t | t in Apply(db, action).active :: t in db.active
    ensures Apply(db, action).limits == db.limits
  {
    hide Precedes, Claimable, InsertChildren, Close, Taken, KeyHolder, Roots, Committing;
  }

  lemma CapacityStep(db: Db, action: Action)
    requires Live(db) && WithinCapacity(db)
    ensures WithinCapacity(Apply(db, action))
  {
    var post := Apply(db, action);
    forall queue ensures |Workers(post, queue)| <= Capacity(post.limits, queue) {
      if action.Claim? {
        ClaimWorkers(db, action.queue, queue);
      } else {
        ActiveStep(db, action);
        RowStep(db, action);
        hide Apply, Workers;
        forall t | 0 <= t < |db.tasks| ensures post.tasks[t].header == db.tasks[t].header {
          IdentityStep(db, action, t);
        }
        WorkersShrink(db, post, queue);
      }
    }
  }

  lemma StepInv(db: Db, action: Action)
    requires Inv(db)
    ensures Inv(Apply(db, action))
  {
    hide Core, Cache, Apply, WithinCapacity;
    CoreStep(db, action);
    assert Live(db) by { CoreLive(db); }
    CapacityStep(db, action);
  }

  lemma CoreLive(db: Db)
    requires Core(db)
    ensures Live(db)
  {
  }

  lemma {:induction false} RunJoin(db: Db, first: seq<Action>, second: seq<Action>)
    ensures Run(db, first + second) == Run(Run(db, first), second)
  {
    hide Apply;
    if second == [] {
      assert first + second == first;
    } else {
      var front := second[..|second| - 1];
      RunJoin(db, first, front);
      assert (first + second)[..|first + second| - 1] == first + front;
    }
  }

  lemma {:induction false} RunInv(db: Db, actions: seq<Action>)
    requires Inv(db)
    ensures Inv(Run(db, actions))
  {
    hide Inv, Apply;
    if actions == [] {
    } else {
      RunInv(db, actions[..|actions| - 1]);
      StepInv(Run(db, actions[..|actions| - 1]), actions[|actions| - 1]);
    }
  }

  lemma FreshInv(db: Db)
    requires Fresh(db)
    ensures Inv(db)
  {
    assert forall queue :: Workers(db, queue) == {};
  }

  /** The invariant holds after every sequence of actions from an empty database. */
  lemma ReachableInv(db: Db)
    requires Reachable(db)
    ensures Inv(db)
  {
    hide Inv, Apply;
    var start, actions :| Fresh(start) && db == Run(start, actions);
    FreshInv(start);
    RunInv(start, actions);
  }
}
