/** The playback cache's entry table, and what pruning one pool's cache mount removes from it. */
module CacheTable {
  import opened Common

  /** The columns of the unique index. */
  datatype Key = Key(pool: nat, origin: string, hash: string)

  /** A row; rows are numbered by their position and deleted softly. */
  datatype Entry = Entry(key: Key, mount: nat, file: nat, version: nat, size: nat, accessed: int, live: bool)

  type Rows = seq<Entry>

  predicate On(e: Entry, pool: nat, mount: nat) { e.live && e.key.pool == pool && e.mount == mount }

  function Weight(e: Entry, pool: nat, mount: nat): nat { if On(e, pool, mount) then e.size else 0 }

  /** The bytes of the live entries of a cache mount in a pool. */
  function Used(rows: Rows, pool: nat, mount: nat): nat {
    if rows == [] then 0
    else Used(rows[..|rows| - 1], pool, mount) + Weight(rows[|rows| - 1], pool, mount)
  }

  function Removed(rows: Rows, id: nat): Rows
    requires id < |rows|
  {
    rows[id := rows[id].(live := false)]
  }

  /** The row of a key, deleted or not. */
  function Find(rows: Rows, key: Key): Option<nat> {
    if rows == [] then None
    else if rows[|rows| - 1].key == key then Some(|rows| - 1)
    else Find(rows[..|rows| - 1], key)
  }

  /** Insert, or overwrite the row with the same key. */
  function Upsert(rows: Rows, e: Entry): Rows {
    match Find(rows, e.key)
    case Some(id) => if id < |rows| then rows[id := e] else rows
    case None => rows + [e]
  }

  predicate KeysUnique(rows: Rows) {
    forall i, j | 0 <= i < j < |rows| :: rows[i].key != rows[j].key
  }

  lemma {:induction false} FindExact(rows: Rows, key: Key)
    ensures var r := Find(rows, key);
      && (r.Some? ==> r.value < |rows| && rows[r.value].key == key)
      && (r.None? ==> forall i | 0 <= i < |rows| :: rows[i].key != key)
  {
    if rows == [] || rows[|rows| - 1].key == key {
    } else {
      FindExact(rows[..|rows| - 1], key);
    }
  }

  /** The entry stands in the row of its key, or in a new one if there was none; no other row is touched. */
  predicate Written(before: Rows, after: Rows, e: Entry) {
    || (after == before + [e] && forall i | 0 <= i < |before| :: before[i].key != e.key)
    || (exists i :: 0 <= i < |before| && before[i].key == e.key && after == before[i := e])
  }

  lemma UpsertWrites(rows: Rows, e: Entry)
    ensures Written(rows, Upsert(rows, e), e)
  {
    FindExact(rows, e.key);
    hide Find;
  }

  /** One row is written or one is added, and no key comes twice. */
  lemma UpsertShape(rows: Rows, e: Entry)
    ensures match Find(rows, e.key)
      case None => Upsert(rows, e) == rows + [e]
      case Some(id) => id < |rows| && Upsert(rows, e) == rows[id := e]
    ensures KeysUnique(rows) ==> KeysUnique(Upsert(rows, e))
  {
    FindExact(rows, e.key);
    hide Find;
    match Find(rows, e.key)
    case None => KeysAdded(rows, e);
    case Some(id) => KeysReplaced(rows, id, e);
  }

  lemma KeysAdded(rows: Rows, e: Entry)
    requires forall i | 0 <= i < |rows| :: rows[i].key != e.key
    ensures KeysUnique(rows) ==> KeysUnique(rows + [e])
  {
  }

  lemma KeysReplaced(rows: Rows, id: nat, e: Entry)
    requires id < |rows| && rows[id].key == e.key
    ensures KeysUnique(rows) ==> KeysUnique(rows[id := e])
  {
  }

  lemma {:induction false} UsedUpdate(rows: Rows, id: nat, e: Entry, pool: nat, mount: nat)
    requires id < |rows|
    ensures Used(rows[id := e], pool, mount)
         == Used(rows, pool, mount) - Weight(rows[id], pool, mount) + Weight(e, pool, mount)
  {
    var n := |rows| - 1;
    if id == n {
      assert rows[id := e][..n] == rows[..n];
    } else {
      UsedUpdate(rows[..n], id, e, pool, mount);
      assert rows[id := e][..n] == rows[..n][id := e];
    }
  }

  lemma UsedAppend(rows: Rows, e: Entry, pool: nat, mount: nat)
    ensures Used(rows + [e], pool, mount) == Used(rows, pool, mount) + Weight(e, pool, mount)
  {
    assert (rows + [e])[..|rows|] == rows;
  }

  // ---------------------------------------------------------------- least recently used first

  /** a is evicted before b. */
  predicate Older(rows: Rows, a: nat, b: nat)
    requires a < |rows| && b < |rows|
  {
    rows[a].accessed < rows[b].accessed || (rows[a].accessed == rows[b].accessed && a < b)
  }

  predicate Bounded(ids: seq<nat>, n: nat) { forall j | 0 <= j < |ids| :: ids[j] < n }

  function Place(rows: Rows, ids: seq<nat>, id: nat): (placed: seq<nat>)
    requires id < |rows| && Bounded(ids, |rows|)
    ensures Bounded(placed, |rows|)
    ensures forall i :: i in placed <==> i in ids || i == id
  {
    if ids == [] then [id]
    else if Older(rows, id, ids[0]) then [id] + ids
    else
      assert ids == [ids[0]] + ids[1..];
      [ids[0]] + Place(rows, ids[1..], id)
  }

  /** The live entries of the mount among the first n rows, in order of last access and number. */
  function Lru(rows: Rows, n: nat, pool: nat, mount: nat): (ids: seq<nat>)
    requires n <= |rows|
    ensures Bounded(ids, n)
  {
    if n == 0 then []
    else
      var ids := Lru(rows, n - 1, pool, mount);
      if !On(rows[n - 1], pool, mount) then ids
      else
        var placed := Place(rows, ids, n - 1);
        assert forall j | 0 <= j < |placed| :: placed[j] in placed;
        placed
  }

  predicate InOrder(rows: Rows, ids: seq<nat>)
    requires Bounded(ids, |rows|)
  {
    forall i, j | 0 <= i < j < |ids| :: Older(rows, ids[i], ids[j])
  }

  lemma {:induction false} PlaceOrder(rows: Rows, ids: seq<nat>, id: nat)
    requires id < |rows| && id !in ids && Bounded(ids, |rows|) && InOrder(rows, ids)
    ensures InOrder(rows, Place(rows, ids, id))
  {
    if ids == [] || Older(rows, id, ids[0]) {
    } else {
      PlaceOrder(rows, ids[1..], id);
      var rest := Place(rows, ids[1..], id);
      forall j | 0 <= j < |rest| ensures Older(rows, ids[0], rest[j]) {
        assert rest[j] in rest;
      }
    }
  }

  lemma {:induction false} PlaceSizes(rows: Rows, ids: seq<nat>, id: nat)
    requires id < |rows| && Bounded(ids, |rows|)
    ensures Sizes(rows, Place(rows, ids, id)) == Sizes(rows, ids) + rows[id].size
  {
    if ids == [] {
      assert [id][1..] == [];
    } else if Older(rows, id, ids[0]) {
      assert ([id] + ids)[1..] == ids;
    } else {
      PlaceSizes(rows, ids[1..], id);
      assert ([ids[0]] + Place(rows, ids[1..], id))[1..] == Place(rows, ids[1..], id);
    }
  }

  /** The list is in order, holds the live entries of the mount, and their sizes are the bytes used. */
  lemma {:induction false} LruExact(rows: Rows, n: nat, pool: nat, mount: nat)
    requires n <= |rows|
    ensures InOrder(rows, Lru(rows, n, pool, mount))
    ensures forall i | 0 <= i < |rows| :: i in Lru(rows, n, pool, mount) <==> i < n && On(rows[i], pool, mount)
    ensures Sizes(rows, Lru(rows, n, pool, mount)) == Used(rows[..n], pool, mount)
  {
    if n == 0 {
    } else {
      LruExact(rows, n - 1, pool, mount);
      assert rows[..n][..n - 1] == rows[..n - 1];
      if On(rows[n - 1], pool, mount) {
        PlaceOrder(rows, Lru(rows, n - 1, pool, mount), n - 1);
        PlaceSizes(rows, Lru(rows, n - 1, pool, mount), n - 1);
      }
    }
  }

  function Sizes(rows: Rows, ids: seq<nat>): nat
    requires Bounded(ids, |rows|)
  {
    if ids == [] then 0 else rows[ids[0]].size + Sizes(rows, ids[1..])
  }

  lemma {:induction false} SizesSplit(rows: Rows, ids: seq<nat>, k: nat)
    requires Bounded(ids, |rows|) && k <= |ids|
    ensures Sizes(rows, ids) == Sizes(rows, ids[..k]) + Sizes(rows, ids[k..])
  {
    if k == 0 {
      assert ids[0..] == ids;
    } else {
      SizesSplit(rows, ids[1..], k - 1);
      assert ids[..k][1..] == ids[1..][..k - 1];
      assert ids[1..][k - 1..] == ids[k..];
    }
  }
}
