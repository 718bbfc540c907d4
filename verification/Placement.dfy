/** The placement loop of a storage migration plan: every file goes to the destination mount with
    the least usage, the smaller id on a tie. */
module Placement {
  import opened Common
  import opened Names

  datatype File = File(id: nat, size: nat)

  type Loads = map<string, nat>

  /** The candidate takes over from the mount selected so far. */
  predicate Better(usage: Loads, candidate: string, selected: string)
    requires candidate in usage && selected in usage
  {
    usage[candidate] < usage[selected] || (usage[candidate] == usage[selected] && Below(candidate, selected))
  }

  predicate Chosen(ids: seq<string>, usage: Loads, selected: string)
    requires forall id | id in ids :: id in usage
  {
    selected in ids && forall id | id in ids :: !Better(usage, id, selected)
  }

  predicate Assigns(ids: seq<string>, files: seq<File>, to: seq<string>) {
    |to| == |files| && forall i | 0 <= i < |to| :: to[i] in ids
  }

  /** What the files put on one mount add up to. */
  function BytesOn(files: seq<File>, to: seq<string>, id: string): nat
    requires |to| == |files|
  {
    if files == [] then 0
    else
      var n := |files| - 1;
      BytesOn(files[..n], to[..n], id) + if to[n] == id then files[n].size else 0
  }

  function CountOn(to: seq<string>, id: string): nat {
    if to == [] then 0
    else CountOn(to[..|to| - 1], id) + if to[|to| - 1] == id then 1 else 0
  }

  /** The totals shown per mount. */
  function Counts(ids: seq<string>, to: seq<string>): (counts: Loads)
    ensures forall id :: id in counts <==> id in ids
  {
    map id | id in ids :: CountOn(to, id)
  }

  function Bytes(ids: seq<string>, files: seq<File>, to: seq<string>): (bytes: Loads)
    requires |to| == |files|
    ensures forall id :: id in bytes <==> id in ids
  {
    map id | id in ids :: BytesOn(files, to, id)
  }

  /** The usage once the first files of an assignment have been placed. */
  function Loaded(initial: Loads, files: seq<File>, to: seq<string>): (usage: Loads)
    requires |to| == |files|
    ensures usage.Keys == initial.Keys
  {
    map id | id in initial :: initial[id] + BytesOn(files, to, id)
  }

  /** Each file went where the loop sends it, given the files before it. */
  ghost predicate Greedy(ids: seq<string>, initial: Loads, files: seq<File>, to: seq<string>)
    requires forall id | id in ids :: id in initial
  {
    && Assigns(ids, files, to)
    && forall i | 0 <= i < |files| :: Chosen(ids, Loaded(initial, files[..i], to[..i]), to[i])
  }

  predicate Descending(files: seq<File>) {
    forall i, j | 0 <= i < j < |files| :: files[i].size >= files[j].size
  }

  // ---------------------------------------------------------------- sums over mounts and files

  function Sum(ids: seq<string>, m: Loads): nat
    requires forall id | id in ids :: id in m
  {
    if ids == [] then 0 else m[ids[0]] + Sum(ids[1..], m)
  }

  function SizeSum(files: seq<File>): nat {
    if files == [] then 0 else SizeSum(files[..|files| - 1]) + files[|files| - 1].size
  }

  lemma {:induction false} SumBump(ids: seq<string>, m: Loads, n: Loads, id: string, d: nat)
    requires Distinct(ids)
    requires forall k | k in ids :: k in m && k in n
    requires forall k | k in ids :: n[k] == m[k] + if k == id then d else 0
    ensures Sum(ids, n) == Sum(ids, m) + if id in ids then d else 0
  {
    if ids == [] {
    } else {
      SumBump(ids[1..], m, n, id, d);
      assert ids == [ids[0]] + ids[1..];
    }
  }

  lemma {:induction false} SumAtLeast(ids: seq<string>, m: Loads, low: nat)
    requires forall k | k in ids :: k in m && low <= m[k]
    ensures |ids| * low <= Sum(ids, m)
  {
    if ids == [] {
    } else {
      SumAtLeast(ids[1..], m, low);
      assert |ids| * low == (|ids| - 1) * low + low;
    }
  }

  lemma {:induction false} SumAtMost(ids: seq<string>, m: Loads, high: nat)
    requires forall k | k in ids :: k in m && m[k] <= high
    ensures Sum(ids, m) <= |ids| * high
  {
    if ids == [] {
    } else {
      SumAtMost(ids[1..], m, high);
      assert |ids| * high == (|ids| - 1) * high + high;
    }
  }

  /** Whatever the assignment, the mounts together gain the bytes of the files. */
  lemma {:induction false} LoadedTotal(ids: seq<string>, initial: Loads, files: seq<File>, to: seq<string>)
    requires Distinct(ids) && Assigns(ids, files, to)
    requires forall id | id in ids :: id in initial
    ensures Sum(ids, Loaded(initial, files, to)) == Sum(ids, initial) + SizeSum(files)
  {
    if files == [] {
      SumBump(ids, initial, Loaded(initial, files, to), "", 0);
    } else {
      var n := |files| - 1;
      LoadedTotal(ids, initial, files[..n], to[..n]);
      SumBump(ids, Loaded(initial, files[..n], to[..n]), Loaded(initial, files, to), to[n], files[n].size);
    }
  }

  lemma {:induction false} CountTotal(ids: seq<string>, to: seq<string>)
    requires Distinct(ids) && forall i | 0 <= i < |to| :: to[i] in ids
    ensures Sum(ids, Counts(ids, to)) == |to|
  {
    if to == [] {
      SumAtMost(ids, Counts(ids, to), 0);
    } else {
      var n := |to| - 1;
      CountTotal(ids, to[..n]);
      SumBump(ids, Counts(ids, to[..n]), Counts(ids, to), to[n], 1);
    }
  }

  /** The plan's totals account for every file and every byte. */
  lemma Conservation(ids: seq<string>, files: seq<File>, to: seq<string>)
    requires Distinct(ids) && Assigns(ids, files, to)
    ensures Sum(ids, Counts(ids, to)) == |files|
    ensures Sum(ids, Bytes(ids, files, to)) == SizeSum(files)
  {
    CountTotal(ids, to);
    var zero: Loads := map id | id in ids :: 0;
    LoadedTotal(ids, zero, files, to);
    SumAtMost(ids, zero, 0);
    SumBump(ids, Loaded(zero, files, to), Bytes(ids, files, to), "", 0);
  }

  lemma {:induction false} BytesOnPrefix(files: seq<File>, to: seq<string>, id: string, i: nat)
    requires |to| == |files| && i <= |files|
    ensures BytesOn(files[..i], to[..i], id) <= BytesOn(files, to, id)
    ensures (forall k | i <= k < |to| :: to[k] != id) ==> BytesOn(files[..i], to[..i], id) == BytesOn(files, to, id)
    ensures i < |files| && to[i] == id ==>
              BytesOn(files[..i], to[..i], id) + files[i].size <= BytesOn(files, to, id)
    ensures i < |files| && to[i] == id && (forall k | i < k < |to| :: to[k] != id) ==>
              BytesOn(files[..i], to[..i], id) + files[i].size == BytesOn(files, to, id)
  {
    if i == |files| {
      assert files[..i] == files && to[..i] == to;
    } else {
      var n := |files| - 1;
      BytesOnPrefix(files[..n], to[..n], id, i);
      assert files[..n][..i] == files[..i] && to[..n][..i] == to[..i];
    }
  }

  lemma {:induction false} SizeSumPrefix(files: seq<File>, i: nat)
    requires i < |files|
    ensures SizeSum(files[..i]) + files[i].size <= SizeSum(files)
  {
    var n := |files| - 1;
    if i == n {
    } else {
      SizeSumPrefix(files[..n], i);
      assert files[..n][..i] == files[..i];
    }
  }

  lemma {:induction false} LastOn(to: seq<string>, id: string) returns (i: nat)
    requires id in to
    ensures i < |to| && to[i] == id && forall k | i < k < |to| :: to[k] != id
  {
    i := |to| - 1;
    if to[i] == id {
    } else {
      assert to == to[..i] + [to[i]];
      var n := i;
      i := LastOn(to[..n], id);
    }
  }

  // ---------------------------------------------------------------- the choice

  lemma BetterTransitive(usage: Loads, a: string, b: string, c: string)
    requires a in usage && b in usage && c in usage
    requires Better(usage, a, b) && Better(usage, b, c)
    ensures Better(usage, a, c)
  {
    if Below(a, b) && Below(b, c) { BelowTransitive(a, b, c); }
  }

  /** The mount chosen does not depend on the order in which the mounts are tried. */
  lemma ChosenUnique(ids: seq<string>, others: seq<string>, usage: Loads, s: string, t: string)
    requires forall id :: id in ids <==> id in others
    requires forall id | id in ids :: id in usage
    requires Chosen(ids, usage, s) && Chosen(others, usage, t)
    ensures s == t
  {
    BelowTotal(s, t);
  }

  /** It has the least usage, and of those that have it the smallest identifier. */
  lemma LeastUsed(ids: seq<string>, usage: Loads, selected: string)
    requires forall id | id in ids :: id in usage
    ensures Chosen(ids, usage, selected) <==>
              && selected in ids
              && forall id | id in ids && id != selected ::
                   usage[selected] < usage[id] || (usage[selected] == usage[id] && Below(selected, id))
  {
    BelowTotal(selected, selected);
    forall id | id in ids && id != selected ensures Below(selected, id) <==> !Below(id, selected) {
      BelowTotal(selected, id);
    }
  }

  /** One more file on one more mount. */
  lemma PlaceOne(ids: seq<string>, initial: Loads, files: seq<File>, to: seq<string>, file: File, id: string)
    requires |to| == |files| && id in initial && id in ids
    ensures Loaded(initial, files + [file], to + [id])
         == Loaded(initial, files, to)[id := Loaded(initial, files, to)[id] + file.size]
    ensures Counts(ids, to + [id]) == Counts(ids, to)[id := Counts(ids, to)[id] + 1]
    ensures Bytes(ids, files + [file], to + [id])
         == Bytes(ids, files, to)[id := Bytes(ids, files, to)[id] + file.size]
  {
    assert (files + [file])[..|files|] == files && (to + [id])[..|to|] == to;
  }

  lemma GreedyExtends(ids: seq<string>, initial: Loads, files: seq<File>, to: seq<string>, file: File, id: string)
    requires forall k | k in ids :: k in initial
    requires Greedy(ids, initial, files, to) && Chosen(ids, Loaded(initial, files, to), id)
    ensures Greedy(ids, initial, files + [file], to + [id])
  {
    var all, dest := files + [file], to + [id];
    assert Assigns(ids, all, dest);
    hide Chosen, Loaded;
    forall i | 0 <= i < |all| ensures Chosen(ids, Loaded(initial, all[..i], dest[..i]), dest[i]) {
      if i < |files| {
        assert all[..i] == files[..i] && dest[..i] == to[..i];
      } else {
        assert all[..i] == files && dest[..i] == to;
      }
    }
  }

  // ---------------------------------------------------------------- how even the plan is

  /** A mount that received a file ends at most that last file's size above every other mount. */
  lemma LastPlaced(ids: seq<string>, initial: Loads, files: seq<File>, to: seq<string>, i: nat, id: string)
    requires forall k | k in ids :: k in initial
    requires Greedy(ids, initial, files, to) && i < |files| && id in ids
    requires forall k | i < k < |to| :: to[k] != to[i]
    ensures Loaded(initial, files, to)[to[i]] <= Loaded(initial, files, to)[id] + files[i].size
  {
    BytesOnPrefix(files, to, to[i], i);
    BytesOnPrefix(files, to, id, i);
    assert !Better(Loaded(initial, files[..i], to[..i]), id, to[i]);
  }

  /** The other assignment ends no mount above `cap`. */
  ghost predicate Within(ids: seq<string>, initial: Loads, files: seq<File>, to: seq<string>, cap: nat)
    requires forall k | k in ids :: k in initial
  {
    Assigns(ids, files, to) && forall id | id in ids :: Loaded(initial, files, to)[id] <= cap
  }

  lemma WithinPrefix(ids: seq<string>, initial: Loads, files: seq<File>, to: seq<string>, cap: nat, i: nat)
    requires forall k | k in ids :: k in initial
    requires Within(ids, initial, files, to, cap) && i < |files|
    ensures Within(ids, initial, files[..i], to[..i], cap)
    ensures files[i].size <= cap
    ensures Within(ids, initial, files[..i + 1], to[..i + 1], cap)
  {
    forall id | id in ids ensures Loaded(initial, files[..i], to[..i])[id] <= cap {
      BytesOnPrefix(files, to, id, i);
    }
    forall id | id in ids ensures Loaded(initial, files[..i + 1], to[..i + 1])[id] <= cap {
      BytesOnPrefix(files, to, id, i + 1);
    }
    BytesOnPrefix(files, to, to[i], i);
    assert Loaded(initial, files, to)[to[i]] <= cap;
  }

  function Times(m: nat, x: nat): nat { m * x }

  /** A file is placed on a mount whose usage is at most the average, which no assignment beats. */
  lemma AverageBound(ids: seq<string>, initial: Loads, files: seq<File>, to: seq<string>, other: seq<string>,
                     cap: nat, i: nat)
    requires Distinct(ids) && forall k | k in ids :: k in initial
    requires Greedy(ids, initial, files, to) && Within(ids, initial, files, other, cap) && i < |files|
    ensures Times(|ids|, Loaded(initial, files[..i], to[..i])[to[i]]) + files[i].size <= Times(|ids|, cap)
  {
    var before := Loaded(initial, files[..i], to[..i]);
    forall k | k in ids ensures before[to[i]] <= before[k] { assert !Better(before, k, to[i]); }
    SumAtLeast(ids, before, before[to[i]]);
    LoadedTotal(ids, initial, files[..i], to[..i]);
    SizeSumPrefix(files, i);
    LoadedTotal(ids, initial, files, other);
    SumAtMost(ids, Loaded(initial, files, other), cap);
  }

  /** The final usage of a mount: what its last file found there plus that file, or what it began with. */
  lemma FinalLoad(initial: Loads, files: seq<File>, to: seq<string>, id: string) returns (last: nat)
    requires |to| == |files| && id in initial
    ensures last <= |files|
    ensures last == |files| ==> Loaded(initial, files, to)[id] == initial[id]
    ensures last < |files| ==>
              && to[last] == id
              && Loaded(initial, files, to)[id]
                 == Loaded(initial, files[..last], to[..last])[id] + files[last].size
  {
    if id in to {
      last := LastOn(to, id);
    } else {
      last := |files|;
      BytesOnPrefix(files, to, id, 0);
    }
    BytesOnPrefix(files, to, id, last);
  }

  lemma StartsWithin(ids: seq<string>, initial: Loads, files: seq<File>, other: seq<string>, cap: nat, id: string)
    requires forall k | k in ids :: k in initial
    requires Within(ids, initial, files, other, cap) && id in ids
    ensures initial[id] <= cap
  {
    assert Loaded(initial, files, other)[id] <= cap;
  }

  /** The three ways in which a mount can end: as it began, with a last file of at most 1/k of the cap
      on top of an average load, or, for large files, within the cap. */
  predicate EndsWell(k: nat, m: nat, load: nat, cap: nat, before: nat, size: nat) {
    load <= cap || (load == before + size && Times(m, before) + size <= Times(m, cap) && Times(k, size) <= cap)
  }

  lemma Ratio(k: nat, m: nat, load: nat, cap: nat, before: nat, size: nat)
    requires m >= 1 && k >= 1 && EndsWell(k, m, load, cap, before, size)
    ensures k * m * load <= ((k + 1) * m - 1) * cap
  {
    if load <= cap {
      RatioWithin(k, m, load, cap);
    } else {
      RatioPlaced(k, m, before, size, cap);
    }
  }

  lemma RatioPlaced(k: nat, m: nat, before: nat, size: nat, cap: nat)
    requires m >= 1 && k >= 1
    requires m * before + size <= m * cap && k * size <= cap
    ensures k * m * (before + size) <= ((k + 1) * m - 1) * cap
  {
    calc {
      k * m * (before + size);
      k * (m * before + size) + (m - 1) * (k * size);
      <= { assert k * (m * before + size) <= k * (m * cap); assert (m - 1) * (k * size) <= (m - 1) * cap; }
      k * (m * cap) + (m - 1) * cap;
      ((k + 1) * m - 1) * cap;
    }
  }

  lemma RatioWithin(k: nat, m: nat, load: nat, cap: nat)
    requires m >= 1 && load <= cap
    ensures k * m * load <= ((k + 1) * m - 1) * cap
  {
    assert k * m * load <= k * m * cap;
    assert ((k + 1) * m - 1) * cap == k * m * cap + (m - 1) * cap;
  }

  /** How a mount ends when the files come in any order. */
  lemma EndsAnyOrder(ids: seq<string>, initial: Loads, files: seq<File>, to: seq<string>, other: seq<string>,
                     cap: nat, id: string) returns (before: nat, size: nat)
    requires Distinct(ids) && forall k | k in ids :: k in initial
    requires Greedy(ids, initial, files, to) && Within(ids, initial, files, other, cap) && id in ids
    ensures EndsWell(1, |ids|, Loaded(initial, files, to)[id], cap, before, size)
  {
    before, size := 0, 0;
    assert |to| == |files|;
    assert forall x: nat :: Times(1, x) == x;
    hide Greedy, Loaded, Within, Times;
    var i := FinalLoad(initial, files, to, id);
    if i < |files| {
      before, size := Loaded(initial, files[..i], to[..i])[id], files[i].size;
      AverageBound(ids, initial, files, to, other, cap, i);
      WithinPrefix(ids, initial, files, other, cap, i);
    } else {
      StartsWithin(ids, initial, files, other, cap, id);
    }
  }

  /** In any order of the files, no mount of m ends above 2 - 1/m times the largest usage of any other
      assignment of these files. */
  lemma AnyOrderBound(ids: seq<string>, initial: Loads, files: seq<File>, to: seq<string>, other: seq<string>,
                      cap: nat, id: string)
    requires Distinct(ids) && forall k | k in ids :: k in initial
    requires Greedy(ids, initial, files, to) && Within(ids, initial, files, other, cap) && id in ids
    ensures |ids| * Loaded(initial, files, to)[id] <= (2 * |ids| - 1) * cap
  {
    assert |to| == |files|;
    hide Greedy, Loaded, Within, EndsWell;
    var before, size := EndsAnyOrder(ids, initial, files, to, other, cap, id);
    Ratio(1, |ids|, Loaded(initial, files, to)[id], cap, before, size);
  }

  lemma {:induction false} DistinctSize<T>(s: seq<T>)
    ensures |set x | x in s| <= |s|
    ensures Distinct(s) ==> |set x | x in s| == |s|
  {
    if s == [] {
    } else {
      DistinctSize(s[1..]);
      assert s == [s[0]] + s[1..];
      assert (set x | x in s) == {s[0]} + set x | x in s[1..];
    }
  }

  lemma Pigeonhole(p: seq<string>, q: seq<string>) returns (a: nat)
    requires Distinct(p) && |p| > |q|
    ensures a < |p| && p[a] !in q
  {
    DistinctSize(p);
    DistinctSize(q);
    var x, y := set k | k in p, set k | k in q;
    if forall k | k in p :: k in q { SubsetSize(x, y); }
    var k :| k in p && k !in q;
    a :| a < |p| && p[a] == k;
  }

  lemma {:induction false} SubsetSize(x: set<string>, y: set<string>)
    requires x <= y
    ensures |x| <= |y|
  {
    if x == {} {
    } else {
      var k :| k in x;
      SubsetSize(x - {k}, y - {k});
    }
  }

  /** Files larger than half of what an assignment keeps every mount within are all on different mounts. */
  lemma LargeFilesApart(ids: seq<string>, initial: Loads, files: seq<File>, other: seq<string>, cap: nat)
    requires forall k | k in ids :: k in initial
    requires Within(ids, initial, files, other, cap)
    requires forall i | 0 <= i < |files| :: 2 * files[i].size > cap
    ensures Distinct(other)
  {
    forall a, b | 0 <= a < b < |files| ensures other[a] != other[b] {
      BytesOnPrefix(files, other, other[b], b);
      BytesOnPrefix(files[..b], other[..b], other[b], a);
      assert Loaded(initial, files, other)[other[b]] <= cap;
    }
  }

  /** The i-th file is large and so is every file before it: one of the mounts that the other assignment
      uses for them is still untouched, and had room for the i-th file from the start. */
  lemma FreeMount(ids: seq<string>, initial: Loads, files: seq<File>, to: seq<string>, other: seq<string>,
                  cap: nat, i: nat) returns (free: string)
    requires |to| == |files| && forall k | k in ids :: k in initial
    requires Within(ids, initial, files, other, cap) && Descending(files)
    requires i < |files| && 2 * files[i].size > cap
    ensures free in ids && free !in to[..i] && initial[free] + files[i].size <= cap
  {
    WithinPrefix(ids, initial, files, other, cap, i);
    LargeFilesApart(ids, initial, files[..i + 1], other[..i + 1], cap);
    var a := Pigeonhole(other[..i + 1], to[..i]);
    free := other[a];
    BytesOnPrefix(files, other, free, a);
    assert Loaded(initial, files, other)[free] <= cap;
  }

  /** So the loop keeps the i-th file within the cap. */
  lemma LargeFileFits(ids: seq<string>, initial: Loads, files: seq<File>, to: seq<string>, other: seq<string>,
                      cap: nat, i: nat)
    requires forall k | k in ids :: k in initial
    requires Greedy(ids, initial, files, to) && Within(ids, initial, files, other, cap) && Descending(files)
    requires i < |files| && 2 * files[i].size > cap
    ensures Loaded(initial, files[..i], to[..i])[to[i]] + files[i].size <= cap
  {
    var free := FreeMount(ids, initial, files, to, other, cap, i);
    BytesOnPrefix(files[..i], to[..i], free, 0);
    assert !Better(Loaded(initial, files[..i], to[..i]), free, to[i]);
  }

  lemma EndsDescending(ids: seq<string>, initial: Loads, files: seq<File>, to: seq<string>, other: seq<string>,
                       cap: nat, id: string) returns (before: nat, size: nat)
    requires Distinct(ids) && forall k | k in ids :: k in initial
    requires Greedy(ids, initial, files, to) && Descending(files)
    requires Within(ids, initial, files, other, cap) && id in ids
    ensures EndsWell(2, |ids|, Loaded(initial, files, to)[id], cap, before, size)
  {
    before, size := 0, 0;
    assert |to| == |files|;
    assert forall x: nat :: Times(2, x) == 2 * x;
    hide Greedy, Loaded, Within, Descending, Times;
    var i := FinalLoad(initial, files, to, id);
    if i == |files| {
      StartsWithin(ids, initial, files, other, cap, id);
    } else if 2 * files[i].size > cap {
      LargeFileFits(ids, initial, files, to, other, cap, i);
    } else {
      before, size := Loaded(initial, files[..i], to[..i])[id], files[i].size;
      AverageBound(ids, initial, files, to, other, cap, i);
    }
  }

  /** With the files sorted by descending size, as the plan sorts them, no mount of m ends above
      3/2 - 1/(2m) times the largest usage of any other assignment of these files. */
  lemma DescendingBound(ids: seq<string>, initial: Loads, files: seq<File>, to: seq<string>, other: seq<string>,
                        cap: nat, id: string)
    requires Distinct(ids) && forall k | k in ids :: k in initial
    requires Greedy(ids, initial, files, to) && Descending(files)
    requires Within(ids, initial, files, other, cap) && id in ids
    ensures 2 * |ids| * Loaded(initial, files, to)[id] <= (3 * |ids| - 1) * cap
  {
    assert |to| == |files|;
    hide Greedy, Loaded, Within, Descending, EndsWell;
    var before, size := EndsDescending(ids, initial, files, to, other, cap, id);
    Ratio(2, |ids|, Loaded(initial, files, to)[id], cap, before, size);
  }

  // ---------------------------------------------------------------- the loop

  /** The inner loop: the mount with the least usage. */
  method Select(ids: seq<string>, usage: Loads) returns (selected: string)
    requires ids != [] && forall id | id in ids :: id in usage
    ensures selected in ids && Chosen(ids, usage, selected)
  {
    selected := ids[0];
    BelowTotal(selected, selected);
    for k := 1 to |ids|
      invariant Chosen(ids[..k], usage, selected)
    {
      var candidate := ids[k];
      if usage[candidate] < usage[selected] || (usage[candidate] == usage[selected] && Below(candidate, selected)) {
        forall id | id in ids[..k] ensures !Better(usage, id, candidate) {
          if Better(usage, id, candidate) { BetterTransitive(usage, id, candidate, selected); }
        }
        selected := candidate;
      }
      BelowTotal(candidate, candidate);
      assert ids[..k + 1] == ids[..k] + [candidate];
    }
    assert ids[..|ids|] == ids;
  }

  /** What the plan holds once these files have been placed. */
  ghost predicate Placed(ids: seq<string>, initial: Loads, files: seq<File>, to: seq<string>, usage: Loads,
                         counts: Loads, bytes: Loads)
  {
    && |to| == |files|
    && usage == Loaded(initial, files, to)
    && counts == Counts(ids, to)
    && bytes == Bytes(ids, files, to)
  }

  lemma PlacedMore(ids: seq<string>, initial: Loads, files: seq<File>, to: seq<string>, usage: Loads,
                   counts: Loads, bytes: Loads, file: File, id: string)
    requires Placed(ids, initial, files, to, usage, counts, bytes)
    requires id in ids && id in initial
    ensures Placed(ids, initial, files + [file], to + [id], usage[id := usage[id] + file.size],
                   counts[id := counts[id] + 1], bytes[id := bytes[id] + file.size])
    ensures Loaded(initial, files + [file], to + [id]) == usage[id := usage[id] + file.size]
  {
    PlaceOne(ids, initial, files, to, file, id);
  }

  /** The loop's state after these files: the totals, and every choice made as the loop makes it. */
  ghost predicate Planned(ids: seq<string>, initial: Loads, files: seq<File>, to: seq<string>, usage: Loads,
                          counts: Loads, bytes: Loads)
    requires forall id | id in ids :: id in initial
  {
    Placed(ids, initial, files, to, usage, counts, bytes) && Greedy(ids, initial, files, to)
  }

  lemma PlannedNone(ids: seq<string>, initial: Loads, usage: Loads, counts: Loads, bytes: Loads)
    requires forall id | id in ids :: id in initial
    requires usage == initial && counts == bytes == map id | id in ids :: 0
    ensures Planned(ids, initial, [], [], usage, counts, bytes)
  {
    assert usage == Loaded(initial, [], []);
    assert counts == Counts(ids, []);
    assert bytes == Bytes(ids, [], []);
  }

  lemma PlannedMore(ids: seq<string>, initial: Loads, files: seq<File>, to: seq<string>, usage: Loads,
                    counts: Loads, bytes: Loads, file: File, id: string)
    requires forall k | k in ids :: k in initial && k in usage
    requires Planned(ids, initial, files, to, usage, counts, bytes)
    requires id in ids && Chosen(ids, usage, id)
    ensures id in counts && id in bytes
    ensures Planned(ids, initial, files + [file], to + [id], usage[id := usage[id] + file.size],
                    counts[id := counts[id] + 1], bytes[id := bytes[id] + file.size])
  {
    assert usage == Loaded(initial, files, to);
    PlacedMore(ids, initial, files, to, usage, counts, bytes, file, id);
    hide Greedy, Chosen, Placed, Loaded;
    GreedyExtends(ids, initial, files, to, file, id);
  }

  /** The plan's destination map, usage and totals; `to` lists the destinations file by file. */
  method PlaceFiles(ids: seq<string>, initial: Loads, files: seq<File>)
    returns (destination: map<nat, string>, usage: Loads, counts: Loads, bytes: Loads, ghost to: seq<string>)
    requires ids != [] && forall id | id in ids :: id in initial
    requires forall i, j | 0 <= i < j < |files| :: files[i].id != files[j].id
    ensures |to| == |files|
    ensures forall i | 0 <= i < |files| :: files[i].id in destination && destination[files[i].id] == to[i]
    ensures forall f | f in destination :: exists i :: 0 <= i < |files| && files[i].id == f
    ensures Planned(ids, initial, files, to, usage, counts, bytes)
  {
    hide Planned, Placed, Chosen;
    destination, usage, to := map[], initial, [];
    counts, bytes := map id | id in ids :: 0, map id | id in ids :: 0;
    PlannedNone(ids, initial, usage, counts, bytes);
    assert files[..0] == [];
    for n := 0 to |files|
      invariant forall id | id in ids :: id in usage && id in counts && id in bytes
      invariant |to| == n && Planned(ids, initial, files[..n], to, usage, counts, bytes)
      invariant forall i | 0 <= i < n :: files[i].id in destination && destination[files[i].id] == to[i]
      invariant forall f | f in destination :: exists i :: 0 <= i < n && files[i].id == f
    {
      var file := files[n];
      var selected := Select(ids, usage);
      PlannedMore(ids, initial, files[..n], to, usage, counts, bytes, file, selected);
      assert files[..n + 1] == files[..n] + [file];
      to := to + [selected];
      destination := destination[file.id := selected];
      usage := usage[selected := usage[selected] + file.size];
      counts := counts[selected := counts[selected] + 1];
      bytes := bytes[selected := bytes[selected] + file.size];
    }
    assert files[..|files|] == files;
  }
}
