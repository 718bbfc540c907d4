/** Making room on a cache mount: how much to free, what is evicted, and who is then admitted. */
module CachePruning {
  import opened Common
  import opened CacheTable

  /** A membership's byte limit and the two watermarks computed from it. */
  datatype Limit = Limit(max: nat, high: nat, low: nat)

  predicate LimitOk(limit: Limit) { limit.low <= limit.high <= limit.max }

  /** What the store reports about its disk. */
  datatype Capacity = Capacity(total: nat, free: nat)

  datatype Outcome = Admitted | Skipped | Failed

  const MINIMUM_FREE_PERCENT := 10
  const RECOVERY_FREE_PERCENT := 12

  function WatermarkNeed(used: nat, incoming: nat, limit: Limit): int {
    if used + incoming > limit.high then used + incoming - limit.low else 0
  }

  function BytesToFree(used: nat, incoming: nat, limit: Limit, capacity: Option<Capacity>): (need: int)
    ensures need >= WatermarkNeed(used, incoming, limit)
  {
    var need := WatermarkNeed(used, incoming, limit);
    if capacity.None? || capacity.value.total == 0 then need
    else
      var minimum := capacity.value.total * MINIMUM_FREE_PERCENT / 100;
      var recovery := capacity.value.total * RECOVERY_FREE_PERCENT / 100;
      var projected := capacity.value.free - incoming;
      if projected < minimum && recovery - projected > need then recovery - projected else need
  }

  /** The rows with some of them deleted. */
  function Evicted(rows: Rows, ids: seq<nat>): Rows {
    seq(|rows|, i requires 0 <= i < |rows| => if i in ids then rows[i].(live := false) else rows[i])
  }

  /** The rows after evicting the first n of a list. */
  function EvictedFirst(rows: Rows, order: seq<nat>, n: nat): Rows
    requires n <= |order|
  {
    Evicted(rows, order[..n])
  }

  /** The sizes of the first n. */
  function Freed(rows: Rows, order: seq<nat>, n: nat): nat
    requires Bounded(order, |rows|) && n <= |order|
  {
    Sizes(rows, order[..n])
  }

  /** The first n were evicted because each time more was needed and the store agreed. */
  predicate Passed(rows: Rows, order: seq<nat>, need: int, broken: set<nat>, n: nat)
    requires Bounded(order, |rows|) && n <= |order|
  {
    n == 0 || (Passed(rows, order, need, broken, n - 1) && Freed(rows, order, n - 1) < need && order[n - 1] !in broken)
  }

  /** Rows are evicted in order until enough has been freed, the list ends or the store refuses one:
      n of them. */
  predicate StopsAt(rows: Rows, order: seq<nat>, need: int, broken: set<nat>, n: nat)
    requires Bounded(order, |rows|)
  {
    && n <= |order| && Passed(rows, order, need, broken, n)
    && (n == |order| || Freed(rows, order, n) >= need || order[n] in broken)
  }

  function Verdict(rows: Rows, order: seq<nat>, need: int, incoming: nat, n: nat): Outcome
    requires Bounded(order, |rows|) && n <= |order|
  {
    if Freed(rows, order, n) >= need then Admitted
    else if n < |order| then Failed
    else if incoming > 0 then Skipped
    else Admitted
  }

  /** What pruning does: how many rows go, and what the caller is told. */
  predicate Pruned(rows: Rows, pool: nat, mount: nat, limit: Limit, capacity: Option<Capacity>, incoming: nat,
                   broken: set<nat>, n: nat, outcome: Outcome)
  {
    var order := Lru(rows, |rows|, pool, mount);
    var need := BytesToFree(Used(rows, pool, mount), incoming, limit, capacity);
    if limit.max == 0 || incoming > limit.max then n == 0 && outcome == Skipped
    else StopsAt(rows, order, need, broken, n) && outcome == Verdict(rows, order, need, incoming, n)
  }

  // ---------------------------------------------------------------- what pruning achieves

  lemma {:induction false} PassedBefore(rows: Rows, order: seq<nat>, need: int, broken: set<nat>, n: nat, k: nat)
    requires Bounded(order, |rows|) && k < n <= |order| && Passed(rows, order, need, broken, n)
    ensures Freed(rows, order, k) < need && order[k] !in broken
  {
    if k == n - 1 {
    } else {
      PassedBefore(rows, order, need, broken, n - 1, k);
    }
  }

  /** Nothing is evicted unless something is needed. */
  lemma PassedNeeds(rows: Rows, order: seq<nat>, need: int, broken: set<nat>, n: nat)
    requires Bounded(order, |rows|) && n <= |order| && Passed(rows, order, need, broken, n)
    ensures n > 0 ==> need > 0
  {
    if n > 0 { PassedBefore(rows, order, need, broken, n, 0); }
  }

  lemma PassedMore(rows: Rows, order: seq<nat>, need: int, broken: set<nat>, n: nat)
    requires Bounded(order, |rows|) && n < |order| && Passed(rows, order, need, broken, n)
    requires Freed(rows, order, n) < need && order[n] !in broken
    ensures Passed(rows, order, need, broken, n + 1)
  {
  }

  lemma EvictedMore(rows: Rows, ids: seq<nat>, id: nat)
    requires id < |rows|
    ensures Evicted(rows, ids + [id]) == Removed(Evicted(rows, ids), id)
  {
  }

  lemma EvictNone(rows: Rows, order: seq<nat>)
    requires Bounded(order, |rows|)
    ensures EvictedFirst(rows, order, 0) == rows && Freed(rows, order, 0) == 0
  {
    assert order[..0] == [];
  }

  lemma Grow(rows: Rows, order: seq<nat>, n: nat)
    requires Bounded(order, |rows|) && n < |order|
    ensures |EvictedFirst(rows, order, n)| == |rows|
    ensures EvictedFirst(rows, order, n)[order[n]].size == rows[order[n]].size
    ensures EvictedFirst(rows, order, n + 1) == Removed(EvictedFirst(rows, order, n), order[n])
    ensures Freed(rows, order, n + 1) == Freed(rows, order, n) + rows[order[n]].size
  {
    assert order[..n + 1] == order[..n] + [order[n]];
    EvictedMore(rows, order[..n], order[n]);
    SizesSplit(rows, order[..n + 1], n);
    assert order[..n + 1][..n] == order[..n] && order[..n + 1][n..] == [order[n]];
    assert [order[n]][1..] == [];
  }

  /** An entry further down the list has not been touched yet. */
  lemma NotYetEvicted(rows: Rows, order: seq<nat>, n: nat)
    requires Bounded(order, |rows|) && InOrder(rows, order) && n < |order|
    ensures |EvictedFirst(rows, order, n)| == |rows|
    ensures EvictedFirst(rows, order, n)[order[n]] == rows[order[n]]
  {
    forall k | 0 <= k < n ensures order[k] != order[n] {
      assert Older(rows, order[k], order[n]);
    }
  }

  /** Evicting a prefix of the list frees exactly the sizes on it. */
  lemma {:induction false} UsedEvicted(rows: Rows, pool: nat, mount: nat, n: nat)
    requires n <= |Lru(rows, |rows|, pool, mount)|
    ensures var order := Lru(rows, |rows|, pool, mount);
      Used(EvictedFirst(rows, order, n), pool, mount) == Used(rows, pool, mount) - Freed(rows, order, n)
  {
    hide Lru, EvictedFirst, Freed, InOrder;
    var order := Lru(rows, |rows|, pool, mount);
    if n == 0 {
      EvictNone(rows, order);
    } else {
      var id := order[n - 1];
      UsedEvicted(rows, pool, mount, n - 1);
      LruExact(rows, |rows|, pool, mount);
      assert id in order;
      Grow(rows, order, n - 1);
      NotYetEvicted(rows, order, n - 1);
      var before := EvictedFirst(rows, order, n - 1);
      UsedUpdate(before, id, before[id].(live := false), pool, mount);
    }
  }

  /** The limit holds with the admitted bytes added. */
  lemma AdmittedFits(rows: Rows, pool: nat, mount: nat, limit: Limit, capacity: Option<Capacity>, incoming: nat,
                     broken: set<nat>, n: nat)
    requires LimitOk(limit) && incoming > 0
    requires Pruned(rows, pool, mount, limit, capacity, incoming, broken, n, Admitted)
    ensures var after := EvictedFirst(rows, Lru(rows, |rows|, pool, mount), n);
      Used(after, pool, mount) + incoming <= limit.max
  {
    UsedEvicted(rows, pool, mount, n);
  }

  /** The store reports a disk that the incoming bytes would leave with less than a tenth free. */
  predicate RunsShort(capacity: Option<Capacity>, incoming: nat) {
    capacity.Some? && capacity.value.total > 0 && capacity.value.free - incoming < capacity.value.total * 10 / 100
  }

  /** And a tenth of the disk stays free; twelve parts in a hundred, if that tenth was about to be used. */
  lemma AdmittedLeavesFree(rows: Rows, pool: nat, mount: nat, limit: Limit, capacity: Capacity, incoming: nat,
                           broken: set<nat>, n: nat)
    requires incoming > 0 && capacity.total > 0
    requires Pruned(rows, pool, mount, limit, Some(capacity), incoming, broken, n, Admitted)
    ensures var after := EvictedFirst(rows, Lru(rows, |rows|, pool, mount), n);
      var left := capacity.free + (Used(rows, pool, mount) - Used(after, pool, mount)) - incoming;
      && left >= capacity.total * 10 / 100
      && (RunsShort(Some(capacity), incoming) ==> left >= capacity.total * 12 / 100)
  {
    UsedEvicted(rows, pool, mount, n);
  }

  /** Without store failures, admission depends on the watermarks and on the disk: what is evictable must make
      room under the low watermark if the high one is passed, and on the disk if that runs short. */
  lemma AdmissionExact(rows: Rows, pool: nat, mount: nat, limit: Limit, capacity: Option<Capacity>, incoming: nat,
                       n: nat, outcome: Outcome)
    requires LimitOk(limit) && limit.max > 0 && incoming <= limit.max
    requires Pruned(rows, pool, mount, limit, capacity, incoming, {}, n, outcome)
    ensures outcome == Admitted <==>
              && (Used(rows, pool, mount) + incoming <= limit.high || incoming <= limit.low)
              && (incoming == 0 || !RunsShort(capacity, incoming)
                  || capacity.value.free + Used(rows, pool, mount) - incoming >= capacity.value.total * 12 / 100)
    ensures outcome != Failed
  {
    var order := Lru(rows, |rows|, pool, mount);
    LruExact(rows, |rows|, pool, mount);
    assert rows[..|rows|] == rows;
    SizesSplit(rows, order, n);
    assert n == |order| ==> order[..n] == order;
  }

  /** Nothing goes while neither threshold is passed. */
  lemma NothingGoes(rows: Rows, pool: nat, mount: nat, limit: Limit, capacity: Option<Capacity>, incoming: nat,
                    broken: set<nat>, n: nat, outcome: Outcome)
    requires LimitOk(limit) && limit.max > 0 && incoming <= limit.max
    requires Pruned(rows, pool, mount, limit, capacity, incoming, broken, n, outcome)
    requires Used(rows, pool, mount) + incoming <= limit.high && !RunsShort(capacity, incoming)
    ensures n == 0 && outcome == Admitted
  {
    var order := Lru(rows, |rows|, pool, mount);
    EvictNone(rows, order);
    PassedNeeds(rows, order, BytesToFree(Used(rows, pool, mount), incoming, limit, capacity), broken, n);
  }

  /** What goes was used less recently than anything of the mount that stays. */
  lemma OldestGo(rows: Rows, pool: nat, mount: nat, n: nat, a: nat, b: nat)
    requires a < |rows| && b < |rows| && On(rows[a], pool, mount) && On(rows[b], pool, mount)
    requires n <= |Lru(rows, |rows|, pool, mount)|
    requires var after := EvictedFirst(rows, Lru(rows, |rows|, pool, mount), n);
      !after[a].live && after[b].live
    ensures Older(rows, a, b)
  {
    var order := Lru(rows, |rows|, pool, mount);
    LruExact(rows, |rows|, pool, mount);
    hide Lru, Older;
    assert rows[a].live && a in order && b in order;
    hide On;
    assert a in order[..n] && b !in order[..n];
    hide EvictedFirst, InOrder;
    var i, k := Across(order, n, a, b);
    InTurn(rows, order, i, k);
  }

  lemma Across(order: seq<nat>, n: nat, a: nat, b: nat) returns (i: nat, k: nat)
    requires n <= |order| && a in order[..n] && b in order && b !in order[..n]
    ensures i < n <= k < |order| && order[i] == a && order[k] == b
  {
    i :| i < n && order[..n][i] == a;
    k :| k < |order| && order[k] == b;
    forall m | 0 <= m < n ensures order[m] != b { assert order[m] == order[..n][m]; }
  }

  lemma InTurn(rows: Rows, order: seq<nat>, i: nat, k: nat)
    requires Bounded(order, |rows|) && InOrder(rows, order) && i < k < |order|
    ensures Older(rows, order[i], order[k])
  {
  }

  /** One entry fewer would not have been enough. */
  lemma NoneToSpare(rows: Rows, pool: nat, mount: nat, limit: Limit, capacity: Option<Capacity>, incoming: nat,
                    broken: set<nat>, n: nat, outcome: Outcome, k: nat)
    requires Pruned(rows, pool, mount, limit, capacity, incoming, broken, n, outcome) && k < n
    ensures var kept := EvictedFirst(rows, Lru(rows, |rows|, pool, mount), k);
      Used(rows, pool, mount) - Used(kept, pool, mount)
        < BytesToFree(Used(rows, pool, mount), incoming, limit, capacity)
    ensures var (used, left) :=
              (Used(rows, pool, mount), Used(EvictedFirst(rows, Lru(rows, |rows|, pool, mount), k), pool, mount));
      || (used + incoming > limit.high && left + incoming > limit.low)
      || (RunsShort(capacity, incoming)
          && capacity.value.free + (used - left) - incoming < capacity.value.total * 12 / 100)
  {
    UsedEvicted(rows, pool, mount, k);
    if limit.max > 0 && incoming <= limit.max {
      var order := Lru(rows, |rows|, pool, mount);
      PassedBefore(rows, order, BytesToFree(Used(rows, pool, mount), incoming, limit, capacity), broken, n, k);
    }
  }
}
