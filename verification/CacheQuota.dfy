/** The byte quota of cache mounts under concurrent promotions, prunings and deletions. */
module CacheQuota {
  import opened Common
  import opened CacheTable
  import opened CachePruning

  /** A goroutine between taking and giving back the lock of a cache mount in a pool: it has read the
      membership's limit, then the bytes used, then the entries in eviction order with their sizes; it
      evicts them one by one until it is ready to store its own. */
  datatype Worker =
    | Outside
    | Locked(pool: nat, mount: nat, incoming: nat, limit: Limit)
    | Measured(pool: nat, mount: nat, incoming: nat, limit: Limit, used: nat, need: int)
    | Evicting(pool: nat, mount: nat, incoming: nat, limit: Limit, used: nat, need: int,
               order: seq<nat>, sizes: seq<nat>, next: nat, freed: nat)
    | Ready(pool: nat, mount: nat, incoming: nat, limit: Limit)

  datatype State = State(rows: Rows, limits: map<(nat, nat), Limit>, workers: seq<Worker>)

  /** What a worker does next, and what others do to the table meanwhile. */
  datatype Action =
    | Lock(t: nat, pool: nat, mount: nat, incoming: nat)
    | Measure(t: nat, capacity: Option<Capacity>)
    | List(t: nat)
    | Evict(t: nat)
    | Commit(t: nat, entry: Entry)
    | GiveUp(t: nat)
    | Drop(id: nat)
    | Touch(id: nat, at: int)
    | Raise(pool: nat, mount: nat, limit: Limit)

  predicate Holds(w: Worker, pool: nat, mount: nat) { !w.Outside? && w.pool == pool && w.mount == mount }

  predicate Free(workers: seq<Worker>, pool: nat, mount: nat) {
    forall u | 0 <= u < |workers| :: !Holds(workers[u], pool, mount)
  }

  function Max(limits: map<(nat, nat), Limit>, pool: nat, mount: nat): nat {
    if (pool, mount) in limits then limits[(pool, mount)].max else 0
  }

  function SizesOf(rows: Rows, ids: seq<nat>): (sizes: seq<nat>)
    requires Bounded(ids, |rows|)
  {
    seq(|ids|, j requires 0 <= j < |ids| => rows[ids[j]].size)
  }

  /** The worker's own next state. */
  function NextWorker(s: State, w: Worker, a: Action): Worker {
    match a
    case Lock(_, pool, mount, incoming) =>
      if w.Outside? && Free(s.workers, pool, mount) && (pool, mount) in s.limits
         && 0 < s.limits[(pool, mount)].max && incoming <= s.limits[(pool, mount)].max
      then Locked(pool, mount, incoming, s.limits[(pool, mount)])
      else w
    case Measure(_, capacity) =>
      if !w.Locked? then w
      else
        var used := Used(s.rows, w.pool, w.mount);
        var need := BytesToFree(used, w.incoming, w.limit, capacity);
        if need <= 0 then Ready(w.pool, w.mount, w.incoming, w.limit)
        else Measured(w.pool, w.mount, w.incoming, w.limit, used, need)
    case List(_) =>
      if !w.Measured? then w
      else
        var order := Lru(s.rows, |s.rows|, w.pool, w.mount);
        if order == [] then Outside
        else Evicting(w.pool, w.mount, w.incoming, w.limit, w.used, w.need, order, SizesOf(s.rows, order), 0, 0)
    case Evict(_) =>
      if !w.Evicting? || w.next >= |w.sizes| then w
      else
        var freed := w.freed + w.sizes[w.next];
        if freed >= w.need then Ready(w.pool, w.mount, w.incoming, w.limit)
        else if w.next + 1 == |w.order| then Outside
        else w.(next := w.next + 1, freed := freed)
    case Commit(_, _) => if w.Ready? && w.incoming > 0 then Outside else w
    case GiveUp(_) => Outside
    case _ => w
  }

  /** The row a promotion writes. */
  function Stored(w: Worker, e: Entry): Entry
    requires w.Ready?
  {
    e.(key := e.key.(pool := w.pool), mount := w.mount, size := w.incoming, live := true)
  }

  function NextRows(s: State, a: Action): Rows {
    match a
    case Evict(t) =>
      if t < |s.workers| && s.workers[t].Evicting? && s.workers[t].next < |s.workers[t].order|
         && s.workers[t].order[s.workers[t].next] < |s.rows|
      then Removed(s.rows, s.workers[t].order[s.workers[t].next])
      else s.rows
    case Commit(t, entry) =>
      if t < |s.workers| && s.workers[t].Ready? && s.workers[t].incoming > 0 then
        Upsert(s.rows, Stored(s.workers[t], entry))
      else s.rows
    case Drop(id) => if id < |s.rows| then Removed(s.rows, id) else s.rows
    case Touch(id, at) => if id < |s.rows| then s.rows[id := s.rows[id].(accessed := at)] else s.rows
    case _ => s.rows
  }

  predicate Acts(s: State, a: Action) {
    !a.Drop? && !a.Touch? && !a.Raise? && a.t < |s.workers|
  }

  function Step(s: State, a: Action): State {
    State(NextRows(s, a),
          if a.Raise? && LimitOk(a.limit) && a.limit.max >= Max(s.limits, a.pool, a.mount) then
            s.limits[(a.pool, a.mount) := a.limit]
          else s.limits,
          if Acts(s, a) then s.workers[a.t := NextWorker(s, s.workers[a.t], a)] else s.workers)
  }

  function Run(s: State, actions: seq<Action>): State {
    if actions == [] then s else Step(Run(s, actions[..|actions| - 1]), actions[|actions| - 1])
  }

  function Initial(workers: nat): State { State([], map[], seq(workers, _ => Outside)) }

  ghost predicate Reachable(s: State) { exists n, actions :: s == Run(Initial(n), actions) }

  // ---------------------------------------------------------------- the invariant

  /** Listed bytes still to come whose rows have left the mount already. */
  function Lost(rows: Rows, pool: nat, mount: nat, order: seq<nat>, sizes: seq<nat>, next: nat): nat
    requires Bounded(order, |rows|) && |sizes| == |order| && next <= |order|
    decreases |order| - next
  {
    if next == |order| then 0
    else
      (if On(rows[order[next]], pool, mount) then 0 else sizes[next])
        + Lost(rows, pool, mount, order, sizes, next + 1)
  }

  ghost predicate Listing(rows: Rows, pool: nat, mount: nat, order: seq<nat>, sizes: seq<nat>, next: nat) {
    && |sizes| == |order| && next < |order| && Bounded(order, |rows|)
    && (forall i, j | 0 <= i < j < |order| :: order[i] != order[j])
    && (forall j | next <= j < |order| :: On(rows[order[j]], pool, mount) ==> rows[order[j]].size == sizes[j])
  }

  ghost predicate WorkerOk(rows: Rows, w: Worker) {
    match w
    case Outside => true
    case Locked(pool, mount, incoming, limit) => LimitOk(limit)
    case Measured(pool, mount, incoming, limit, used, need) =>
      LimitOk(limit) && need >= WatermarkNeed(used, incoming, limit) && Used(rows, pool, mount) <= used
    case Evicting(pool, mount, incoming, limit, used, need, order, sizes, next, freed) =>
      && LimitOk(limit) && need >= WatermarkNeed(used, incoming, limit)
      && Listing(rows, pool, mount, order, sizes, next)
      && Used(rows, pool, mount) + freed + Lost(rows, pool, mount, order, sizes, next) <= used
    case Ready(pool, mount, incoming, limit) =>
      LimitOk(limit) && Used(rows, pool, mount) + incoming <= limit.max
  }

  ghost predicate Apart(workers: seq<Worker>) {
    forall t, u | 0 <= t < |workers| && 0 <= u < |workers| && t != u && !workers[t].Outside? ::
      !Holds(workers[u], workers[t].pool, workers[t].mount)
  }

  ghost predicate Inv(s: State) {
    && (forall pool, mount :: Used(s.rows, pool, mount) <= Max(s.limits, pool, mount))
    && (forall k | k in s.limits :: LimitOk(s.limits[k]))
    && Apart(s.workers)
    && (forall t | 0 <= t < |s.workers| :: WorkerOk(s.rows, s.workers[t]))
    && (forall t | 0 <= t < |s.workers| && !s.workers[t].Outside? ::
          s.workers[t].limit.max <= Max(s.limits, s.workers[t].pool, s.workers[t].mount))
  }

  // ---------------------------------------------------------------- steps that add nothing to a mount

  /** Replacing the row by e adds nothing to the mount. */
  predicate Shrinks(row: Entry, e: Entry, pool: nat, mount: nat) {
    On(e, pool, mount) ==> On(row, pool, mount) && e.size == row.size
  }

  lemma {:induction false} LostElsewhere(rows: Rows, id: nat, e: Entry, pool: nat, mount: nat, order: seq<nat>,
                                         sizes: seq<nat>, next: nat)
    requires id < |rows| && Bounded(order, |rows|) && |sizes| == |order| && next <= |order|
    requires forall j | next <= j < |order| :: order[j] != id
    ensures Lost(rows[id := e], pool, mount, order, sizes, next) == Lost(rows, pool, mount, order, sizes, next)
    decreases |order| - next
  {
    if next == |order| {
    } else {
      LostElsewhere(rows, id, e, pool, mount, order, sizes, next + 1);
    }
  }

  /** What leaves the mount is at most what leaves the bytes used. */
  lemma {:induction false} LostUpdate(rows: Rows, id: nat, e: Entry, pool: nat, mount: nat, order: seq<nat>,
                                      sizes: seq<nat>, next: nat)
    requires id < |rows| && Shrinks(rows[id], e, pool, mount)
    requires Bounded(order, |rows|) && |sizes| == |order| && next <= |order|
    requires forall i, j | 0 <= i < j < |order| :: order[i] != order[j]
    requires forall j | next <= j < |order| :: On(rows[order[j]], pool, mount) ==> rows[order[j]].size == sizes[j]
    ensures Lost(rows[id := e], pool, mount, order, sizes, next) + Weight(e, pool, mount)
         <= Lost(rows, pool, mount, order, sizes, next) + Weight(rows[id], pool, mount)
    decreases |order| - next
  {
    if next == |order| {
    } else if order[next] == id {
      LostElsewhere(rows, id, e, pool, mount, order, sizes, next + 1);
    } else {
      LostUpdate(rows, id, e, pool, mount, order, sizes, next + 1);
    }
  }

  lemma {:induction false} LostAppend(rows: Rows, e: Entry, pool: nat, mount: nat, order: seq<nat>,
                                      sizes: seq<nat>, next: nat)
    requires Bounded(order, |rows|) && |sizes| == |order| && next <= |order|
    ensures Lost(rows + [e], pool, mount, order, sizes, next) == Lost(rows, pool, mount, order, sizes, next)
    decreases |order| - next
  {
    if next == |order| {
    } else {
      LostAppend(rows, e, pool, mount, order, sizes, next + 1);
    }
  }

  lemma ShrinkKeeps(rows: Rows, id: nat, e: Entry, w: Worker)
    requires id < |rows| && WorkerOk(rows, w)
    requires !w.Outside? ==> Shrinks(rows[id], e, w.pool, w.mount)
    ensures WorkerOk(rows[id := e], w)
  {
    if !w.Outside? {
      UsedUpdate(rows, id, e, w.pool, w.mount);
      if w.Evicting? { LostUpdate(rows, id, e, w.pool, w.mount, w.order, w.sizes, w.next); }
    }
  }

  lemma AppendKeeps(rows: Rows, e: Entry, w: Worker)
    requires WorkerOk(rows, w) && !(!w.Outside? && On(e, w.pool, w.mount))
    ensures WorkerOk(rows + [e], w)
  {
    if !w.Outside? {
      UsedAppend(rows, e, w.pool, w.mount);
      if w.Evicting? { LostAppend(rows, e, w.pool, w.mount, w.order, w.sizes, w.next); }
    }
  }

  /** A step adds to a mount only as a commit of the worker that has its lock. */
  predicate Foreign(s: State, a: Action, pool: nat, mount: nat) {
    a.Commit? && a.t < |s.workers| ==> !Holds(s.workers[a.t], pool, mount)
  }

  lemma ForeignKeeps(s: State, a: Action, w: Worker)
    requires WorkerOk(s.rows, w) && (!w.Outside? ==> Foreign(s, a, w.pool, w.mount))
    ensures WorkerOk(NextRows(s, a), w)
  {
    hide WorkerOk;
    match a
    case Evict(t) =>
      if NextRows(s, a) != s.rows {
        var id := s.workers[t].order[s.workers[t].next];
        ShrinkKeeps(s.rows, id, s.rows[id].(live := false), w);
      }
    case Commit(t, entry) =>
      if NextRows(s, a) != s.rows {
        var e := Stored(s.workers[t], entry);
        UpsertShape(s.rows, e);
        match Find(s.rows, e.key)
        case None => AppendKeeps(s.rows, e, w);
        case Some(id) => ShrinkKeeps(s.rows, id, e, w);
      }
    case Drop(id) => if id < |s.rows| { ShrinkKeeps(s.rows, id, s.rows[id].(live := false), w); }
    case Touch(id, at) => if id < |s.rows| { ShrinkKeeps(s.rows, id, s.rows[id].(accessed := at), w); }
    case _ =>
  }

  /** The bytes used on a mount, as a worker that would need nothing sees them. */
  lemma ForeignUsed(s: State, a: Action, pool: nat, mount: nat)
    requires Foreign(s, a, pool, mount)
    ensures Used(NextRows(s, a), pool, mount) <= Used(s.rows, pool, mount)
  {
    var used := Used(s.rows, pool, mount);
    ForeignKeeps(s, a, Ready(pool, mount, 0, Limit(used, used, used)));
  }

  // ---------------------------------------------------------------- the worker's own steps

  lemma {:induction false} LostNone(rows: Rows, pool: nat, mount: nat, order: seq<nat>, sizes: seq<nat>, next: nat)
    requires Bounded(order, |rows|) && |sizes| == |order| && next <= |order|
    requires forall j | 0 <= j < |order| :: On(rows[order[j]], pool, mount)
    ensures Lost(rows, pool, mount, order, sizes, next) == 0
    decreases |order| - next
  {
    if next == |order| {
    } else {
      LostNone(rows, pool, mount, order, sizes, next + 1);
    }
  }

  lemma ListKeeps(s: State, w: Worker, a: Action)
    requires WorkerOk(s.rows, w) && w.Measured? && a.List?
    ensures WorkerOk(s.rows, NextWorker(s, w, a))
  {
    var order := Lru(s.rows, |s.rows|, w.pool, w.mount);
    LruExact(s.rows, |s.rows|, w.pool, w.mount);
    forall j | 0 <= j < |order| ensures On(s.rows[order[j]], w.pool, w.mount) { assert order[j] in order; }
    LostNone(s.rows, w.pool, w.mount, order, SizesOf(s.rows, order), 0);
  }

  lemma EvictKeeps(s: State, t: nat, a: Action)
    requires t < |s.workers| && WorkerOk(s.rows, s.workers[t]) && s.workers[t].Evicting? && a == Evict(t)
    ensures WorkerOk(NextRows(s, a), NextWorker(s, s.workers[t], a))
  {
    var w := s.workers[t];
    var id := w.order[w.next];
    var e := s.rows[id].(live := false);
    UsedUpdate(s.rows, id, e, w.pool, w.mount);
    LostElsewhere(s.rows, id, e, w.pool, w.mount, w.order, w.sizes, w.next + 1);
  }

  lemma OwnKeeps(s: State, a: Action)
    requires Inv(s) && Acts(s, a)
    ensures WorkerOk(NextRows(s, a), NextWorker(s, s.workers[a.t], a))
  {
    var w := s.workers[a.t];
    if w.Evicting? && a.Evict? {
      EvictKeeps(s, a.t, a);
    } else if w.Measured? && a.List? {
      ListKeeps(s, w, a);
    }
  }

  /** A commit stays within the limit its worker has read. */
  lemma CommitFits(s: State, a: Action)
    requires Acts(s, a) && a.Commit? && WorkerOk(s.rows, s.workers[a.t]) && s.workers[a.t].Ready?
    ensures var w := s.workers[a.t];
      Used(NextRows(s, a), w.pool, w.mount) <= w.limit.max
  {
    var w := s.workers[a.t];
    var e := Stored(w, a.entry);
    UpsertShape(s.rows, e);
    match Find(s.rows, e.key)
    case None => UsedAppend(s.rows, e, w.pool, w.mount);
    case Some(id) => UsedUpdate(s.rows, id, e, w.pool, w.mount);
  }

  lemma UsedKeeps(s: State, a: Action, pool: nat, mount: nat)
    requires Inv(s)
    ensures Used(NextRows(s, a), pool, mount) <= Max(s.limits, pool, mount)
  {
    if Foreign(s, a, pool, mount) {
      ForeignUsed(s, a, pool, mount);
    } else if s.workers[a.t].Ready? {
      CommitFits(s, a);
    }
  }

  lemma WorkersKeep(s: State, a: Action, t: nat)
    requires Inv(s) && t < |s.workers|
    ensures WorkerOk(Step(s, a).rows, Step(s, a).workers[t])
  {
    if Acts(s, a) && t == a.t {
      OwnKeeps(s, a);
    } else {
      ForeignKeeps(s, a, s.workers[t]);
    }
  }

  lemma StepKeeps(s: State, a: Action)
    requires Inv(s)
    ensures Inv(Step(s, a))
  {
    var next := Step(s, a);
    forall pool, mount ensures Used(next.rows, pool, mount) <= Max(next.limits, pool, mount) {
      UsedKeeps(s, a, pool, mount);
    }
    forall t | 0 <= t < |next.workers| ensures WorkerOk(next.rows, next.workers[t]) { WorkersKeep(s, a, t); }
    hide WorkerOk, NextRows;
    LocksKeep(s, a);
  }

  lemma LocksKeep(s: State, a: Action)
    requires Inv(s)
    ensures Apart(Step(s, a).workers)
    ensures forall k | k in Step(s, a).limits :: LimitOk(Step(s, a).limits[k])
    ensures forall t | 0 <= t < |s.workers| && !Step(s, a).workers[t].Outside? ::
      Step(s, a).workers[t].limit.max
        <= Max(Step(s, a).limits, Step(s, a).workers[t].pool, Step(s, a).workers[t].mount)
  {
    hide WorkerOk, NextRows;
  }

  lemma {:induction false} RunKeeps(s: State, actions: seq<Action>)
    requires Inv(s)
    ensures Inv(Run(s, actions))
  {
    hide Inv, Step;
    if actions == [] {
    } else {
      RunKeeps(s, actions[..|actions| - 1]);
      StepKeeps(Run(s, actions[..|actions| - 1]), actions[|actions| - 1]);
    }
  }

  /** However promotions, prunings, deletions and accesses interleave, the live entries of a cache mount
      never exceed its limit. */
  lemma QuotaKept(s: State, pool: nat, mount: nat)
    requires Reachable(s)
    ensures Used(s.rows, pool, mount) <= Max(s.limits, pool, mount)
  {
    var n, actions :| s == Run(Initial(n), actions);
    RunKeeps(Initial(n), actions);
  }

  /** A worker that is about to commit has the room for it, whatever others do before it does. */
  lemma ReadyHasRoom(s: State, t: nat)
    requires Reachable(s) && t < |s.workers| && s.workers[t].Ready?
    ensures var w := s.workers[t];
      Used(s.rows, w.pool, w.mount) + w.incoming <= Max(s.limits, w.pool, w.mount)
  {
    var n, actions :| s == Run(Initial(n), actions);
    RunKeeps(Initial(n), actions);
    assert WorkerOk(s.rows, s.workers[t]);
  }

  // ---------------------------------------------------------------- a worker left alone

  function Evicts(t: nat, k: nat): seq<Action> { seq(k, _ => Evict(t)) }

  /** A worker that has listed the rows and evicted none yet. */
  ghost predicate Starts(rows: Rows, w: Worker) {
    && w.Evicting? && Bounded(w.order, |rows|) && w.sizes == SizesOf(rows, w.order)
    && w.order != [] && w.next == 0 && w.freed == 0 && w.need > 0
  }

  /** The worker and the rows once it has taken k steps. */
  function Progressed(rows: Rows, w: Worker, k: nat): Worker
    requires w.Evicting? && Bounded(w.order, |rows|) && k <= |w.order|
  {
    if Freed(rows, w.order, k) >= w.need then Ready(w.pool, w.mount, w.incoming, w.limit)
    else if k == |w.order| then Outside
    else w.(next := k, freed := Freed(rows, w.order, k))
  }

  /** The rows and the worker after k undisturbed steps. */
  ghost predicate Alone(rows: Rows, w: Worker, t: nat, n: nat, now: State, k: nat)
    requires w.Evicting? && Bounded(w.order, |rows|) && k <= |w.order|
  {
    && now.rows == EvictedFirst(rows, w.order, k)
    && |now.workers| == n && t < n && now.workers[t] == Progressed(rows, w, k)
  }

  /** The worker's half of the step. */
  lemma AloneWorker(rows: Rows, w: Worker, s: State, k: nat)
    requires Starts(rows, w) && k < |w.order| && Freed(rows, w.order, k) < w.need
    requires Freed(rows, w.order, k + 1) == Freed(rows, w.order, k) + rows[w.order[k]].size
    ensures forall t :: NextWorker(s, Progressed(rows, w, k), Evict(t)) == Progressed(rows, w, k + 1)
  {
    assert w.sizes[k] == rows[w.order[k]].size;
    hide Freed, SizesOf, Lru, Used, BytesToFree, Free, InOrder;
  }

  lemma AloneStep(rows: Rows, w: Worker, n: nat, now: State, t: nat, k: nat)
    requires Starts(rows, w) && k < |w.order| && Freed(rows, w.order, k) < w.need
    requires Alone(rows, w, t, n, now, k)
    ensures Alone(rows, w, t, n, Step(now, Evict(t)), k + 1)
  {
    Grow(rows, w.order, k);
    AloneWorker(rows, w, now, k);
    assert Progressed(rows, w, k) == w.(next := k, freed := Freed(rows, w.order, k));
    hide EvictedFirst, Freed, NextWorker, Starts, Removed, Upsert;
  }

  lemma PassedLess(rows: Rows, order: seq<nat>, need: int, k: nat)
    requires Bounded(order, |rows|) && 0 < k <= |order| && Passed(rows, order, need, {}, k)
    ensures Passed(rows, order, need, {}, k - 1) && Freed(rows, order, k - 1) < need
  {
    hide Freed;
  }

  lemma RunEvicts(s: State, t: nat, k: nat)
    requires k > 0
    ensures Run(s, Evicts(t, k)) == Step(Run(s, Evicts(t, k - 1)), Evict(t))
  {
    hide Step;
    assert Evicts(t, k)[..k - 1] == Evicts(t, k - 1);
  }

  /** Undisturbed, it evicts what pruning evicts, and is ready when that is enough. */
  lemma {:induction false} AloneEvicts(s: State, t: nat, k: nat)
    requires t < |s.workers| && Starts(s.rows, s.workers[t])
    requires k <= |s.workers[t].order| && Passed(s.rows, s.workers[t].order, s.workers[t].need, {}, k)
    ensures Alone(s.rows, s.workers[t], t, |s.workers|, Run(s, Evicts(t, k)), k)
  {
    var w := s.workers[t];
    if k == 0 {
      EvictNone(s.rows, w.order);
    } else {
      PassedLess(s.rows, w.order, w.need, k);
      RunEvicts(s, t, k);
      hide Alone, Step, Freed, Passed, Run, Evicts;
      AloneEvicts(s, t, k - 1);
      AloneStep(s.rows, w, |s.workers|, Run(s, Evicts(t, k - 1)), t, k - 1);
    }
  }

  lemma {:induction false} RunJoin(s: State, first: seq<Action>, second: seq<Action>)
    ensures Run(s, first + second) == Run(Run(s, first), second)
  {
    if second == [] {
      assert first + second == first;
    } else {
      var n := |second| - 1;
      assert (first + second)[..|first| + n] == first + second[..n];
      RunJoin(s, first, second[..n]);
    }
  }

  lemma RunTwo(s: State, a: Action, b: Action)
    ensures Run(s, [a, b]) == Step(Step(s, a), b)
  {
    assert [a][..0] == [];
    assert Run(s, [a]) == Step(s, a);
    assert [a, b][..1] == [a];
  }

  /** The locked worker is a refinement of pruning: with nothing in between, it deletes exactly the rows
      pruning deletes and gets to commit exactly when pruning admits. */
  lemma AlonePrunes(s: State, t: nat, capacity: Option<Capacity>, n: nat, outcome: Outcome)
    requires t < |s.workers| && s.workers[t].Locked? && s.workers[t].incoming > 0
    requires var w := s.workers[t];
      && w.limit.max > 0 && w.incoming <= w.limit.max
      && Pruned(s.rows, w.pool, w.mount, w.limit, capacity, w.incoming, {}, n, outcome)
    ensures var end := Run(s, [Measure(t, capacity), List(t)] + Evicts(t, n));
      && end.rows == EvictedFirst(s.rows, Lru(s.rows, |s.rows|, s.workers[t].pool, s.workers[t].mount), n)
      && |end.workers| == |s.workers|
      && (end.workers[t].Ready? <==> outcome == Admitted)
  {
    var w := s.workers[t];
    var listed := Step(Step(s, Measure(t, capacity)), List(t));
    ListedState(s, t, capacity);
    RunTwo(s, Measure(t, capacity), List(t));
    RunJoin(s, [Measure(t, capacity), List(t)], Evicts(t, n));
    hide Step, Lru, BytesToFree;
    var order := Lru(s.rows, |s.rows|, w.pool, w.mount);
    EvictNone(s.rows, order);
    PassedNeeds(s.rows, order, BytesToFree(Used(s.rows, w.pool, w.mount), w.incoming, w.limit, capacity), {}, n);
    if listed.workers[t].Evicting? {
      AloneEvicts(listed, t, n);
    } else {
      assert n == 0 && Evicts(t, 0) == [];
    }
  }

  lemma ListedState(s: State, t: nat, capacity: Option<Capacity>)
    requires t < |s.workers| && s.workers[t].Locked?
    ensures var (w, next) := (s.workers[t], Step(Step(s, Measure(t, capacity)), List(t)));
      var order := Lru(s.rows, |s.rows|, w.pool, w.mount);
      var need := BytesToFree(Used(s.rows, w.pool, w.mount), w.incoming, w.limit, capacity);
      && next.rows == s.rows && |next.workers| == |s.workers|
      && (next.workers[t].Ready? <==> need <= 0)
      && (next.workers[t].Evicting? <==> need > 0 && order != [])
      && (next.workers[t].Evicting? ==>
            next.workers[t].order == order && next.workers[t].need == need && Starts(s.rows, next.workers[t]))
  {
  }

  /** A lock is held for what it was taken for. */
  lemma {:induction false} LockStays(s: State, t: nat, actions: seq<Action>)
    requires t < |s.workers| && !s.workers[t].Outside? && forall a | a in actions :: !a.Lock?
    ensures var later := Run(s, actions);
      && |later.workers| == |s.workers|
      && (later.workers[t].Outside?
          || (later.workers[t].pool == s.workers[t].pool && later.workers[t].mount == s.workers[t].mount
              && later.workers[t].incoming == s.workers[t].incoming && later.workers[t].limit == s.workers[t].limit))
  {
    if actions == [] {
    } else {
      var front, last := actions[..|actions| - 1], actions[|actions| - 1];
      assert last in actions;
      LockStays(s, t, front);
      hide NextRows, Used, BytesToFree, Lru, Free, SizesOf;
    }
  }

  lemma RunOne(s: State, a: Action)
    ensures Run(s, [a]) == Step(s, a)
  {
    hide Step;
    assert [a][..0] == [];
    assert Run(s, []) == s;
  }

  lemma RunThrough(s: State, first: Action, own: seq<Action>, last: Action)
    ensures Run(s, [first] + own + [last]) == Step(Run(Step(s, first), own), last)
  {
    hide Step, Run;
    RunOne(s, first);
    RunJoin(s, [first], own);
    RunJoin(s, [first] + own, [last]);
    RunOne(Run(s, [first] + own), last);
  }

  /** What a worker that is ready commits. */
  lemma CommitWrites(s: State, t: nat, entry: Entry)
    requires t < |s.workers|
    ensures var w := s.workers[t];
      if w.Ready? && w.incoming > 0
      then Written(s.rows, Step(s, Commit(t, entry)).rows,
                   entry.(key := entry.key.(pool := w.pool), mount := w.mount, size := w.incoming, live := true))
      else Step(s, Commit(t, entry)).rows == s.rows
  {
    if s.workers[t].Ready? { UpsertWrites(s.rows, Stored(s.workers[t], entry)); }
  }

  /** The whole promotion of a worker on its own: it takes the free lock, prunes, and stores its bytes exactly
      when pruning admits them. */
  lemma AlonePromotes(s: State, t: nat, pool: nat, mount: nat, incoming: nat, capacity: Option<Capacity>, n: nat,
                      outcome: Outcome, entry: Entry)
    requires t < |s.workers| && s.workers[t].Outside? && Free(s.workers, pool, mount)
    requires (pool, mount) in s.limits && 0 < incoming <= s.limits[(pool, mount)].max
    requires Pruned(s.rows, pool, mount, s.limits[(pool, mount)], capacity, incoming, {}, n, outcome)
    ensures var end := Run(s, [Lock(t, pool, mount, incoming)] + ([Measure(t, capacity), List(t)] + Evicts(t, n))
                              + [Commit(t, entry)]);
      var kept := EvictedFirst(s.rows, Lru(s.rows, |s.rows|, pool, mount), n);
      if outcome == Admitted
      then Written(kept, end.rows,
                   entry.(key := entry.key.(pool := pool), mount := mount, size := incoming, live := true))
      else end.rows == kept
  {
    var own := [Measure(t, capacity), List(t)] + Evicts(t, n);
    var locked := Step(s, Lock(t, pool, mount, incoming));
    assert locked == s.(workers := s.workers[t := Locked(pool, mount, incoming, s.limits[(pool, mount)])]);
    hide Step, Run, Evicts, EvictedFirst, Written, Lru, Free;
    RunThrough(s, Lock(t, pool, mount, incoming), own, Commit(t, entry));
    AlonePrunes(locked, t, capacity, n, outcome);
    LockStays(locked, t, own) by { OwnTakesNoLock(t, capacity, n); }
    CommitWrites(Run(locked, own), t, entry);
  }

  lemma OwnTakesNoLock(t: nat, capacity: Option<Capacity>, n: nat)
    ensures forall a | a in [Measure(t, capacity), List(t)] + Evicts(t, n) :: !a.Lock?
  {
  }
}
