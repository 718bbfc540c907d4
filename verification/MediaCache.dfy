/** The cache service's own state changes: lookup, invalidation, commit and pruning. */
module MediaCache {
  import opened Common
  import opened CacheTable
  import opened CachePruning
  import opened CacheGenerations

  /** What comes of opening an entry's object: the entry's object key is malformed, the object is gone, the
      store cannot say, or the object has this size. */
  datatype Answer = Opened(size: nat) | Missing | Malformed | Unavailable

  class Service {
    var files: map<nat, File>
    var rows: Rows
    /** The mounts that cache for a pool, and the mounts that are mounted and without error. */
    var members: set<(nat, nat)>
    var usable: set<nat>

    ghost function View(): State
      reads this
    {
      State(files, rows, [])
    }

    constructor (files: map<nat, File>, rows: Rows, members: set<(nat, nat)>, usable: set<nat>)
      ensures this.files == files && this.rows == rows && this.members == members && this.usable == usable
    {
      this.files, this.rows, this.members, this.usable := files, rows, members, usable;
    }

    /** The mount still caches for the entry's pool and can be read. */
    predicate Readable(e: Entry)
      reads this
    {
      (e.key.pool, e.mount) in members && e.mount in usable
    }

    /** The lookup statement: the live entry of the key whose file's version still is the entry's. */
    method FindEntry(key: Key) returns (found: Option<nat>)
      ensures found == Lookup(View(), key)
    {
      found := Find(rows, key);
      FindExact(rows, key);
      if found.Some? {
        var row := rows[found.value];
        if !row.live || row.file !in files || files[row.file].deleted || files[row.file].version != row.version {
          found := None;
        }
      }
    }

    /** What follows for an entry as it was when it was looked up, whatever the table holds by now: it is
        served if its mount can be read and its object has its size, and the row of its number is dropped if
        its object is gone, misnamed or of another size. */
    method ServeEntry(id: nat, entry: Entry, answer: Answer) returns (hit: bool)
      requires id < |rows|
      modifies this`rows
      ensures hit <==> (entry.key.pool, entry.mount) in members && entry.mount in usable && answer == Opened(entry.size)
      ensures rows == if hit || answer.Unavailable? || !Readable(entry) then old(rows)
                      else old(rows)[id := old(rows)[id].(live := false)]
    {
      hit := false;
      if (entry.key.pool, entry.mount) !in members { return; }
      if entry.mount !in usable { return; }
      match answer
      case Unavailable =>
      case Missing | Malformed => rows := Removed(rows, id);
      case Opened(size) =>
        if size != entry.size {
          rows := Removed(rows, id);
        } else {
          hit := true;
        }
    }

    /** Both, with nothing in between. */
    method OpenCached(key: Key, answer: Answer) returns (hit: Option<nat>)
      modifies this`rows
      ensures match Lookup(old(View()), key)
        case None => hit == None && rows == old(rows)
        case Some(id) =>
          && id < |old(rows)|
          && hit == (if Readable(old(rows)[id]) && answer == Opened(old(rows)[id].size) then Some(id) else None)
          && rows == if hit.Some? || answer.Unavailable? || !Readable(old(rows)[id]) then old(rows)
                     else Removed(old(rows), id)
    {
      hit := None;
      var found := FindEntry(key);
      FindExact(rows, key);
      if found.Some? {
        var served := ServeEntry(found.value, rows[found.value], answer);
        if served { hit := found; }
      }
    }

    /** Move the file's version on and delete its entries; `removed` are the ones whose objects go next. */
    method InvalidateFile(file: nat) returns (removed: seq<nat>)
      modifies this
      ensures View() == Step(old(View()), Invalidate(file))
      ensures file != 0 ==>
                forall i :: i in removed <==> 0 <= i < |old(rows)| && old(rows)[i].live && old(rows)[i].file == file
      ensures file == 0 ==> removed == [] && rows == old(rows) && files == old(files)
      ensures file != 0 ==>
                && |rows| == |old(rows)|
                && forall i | 0 <= i < |rows| ::
                     rows[i] == if old(rows)[i].file == file then old(rows)[i].(live := false) else old(rows)[i]
      ensures file != 0 ==>
                && files.Keys == old(files).Keys
                && forall f | f in files ::
                     && files[f].version == old(files)[f].version + (if f == file then 1 else 0)
                     && files[f].deleted == old(files)[f].deleted
    {
      removed := [];
      if file == 0 {
        return;
      }
      if file in files {
        files := files[file := files[file].(version := files[file].version + 1)];
      }
      for n := 0 to |rows|
        invariant |rows| == |old(rows)| && files == Bumped(old(files), file)
        invariant forall i | 0 <= i < n :: rows[i] == WithoutFile(old(rows), file)[i]
        invariant forall i | n <= i < |rows| :: rows[i] == old(rows)[i]
        invariant forall i :: i in removed <==> 0 <= i < n && old(rows)[i].live && old(rows)[i].file == file
      {
        if rows[n].file == file {
          if rows[n].live {
            removed := removed + [n];
          }
          rows := Removed(rows, n);
        }
      }
    }

    /** The transaction that makes a stored object visible. */
    method CommitPromotion(entry: Entry) returns (stale: bool)
      requires entry.live
      modifies this`rows
      ensures var t := Ticket(entry.file, entry.version);
        rows == Step(old(View()).(tickets := [t]), Commit(0, entry)).rows
      ensures stale <==> entry.file !in files || files[entry.file].deleted || files[entry.file].version != entry.version
      ensures if stale then rows == old(rows) else Written(old(rows), rows, entry)
    {
      if entry.file !in files || files[entry.file].deleted || files[entry.file].version != entry.version {
        return true;
      }
      FindExact(rows, entry.key);
      UpsertWrites(rows, entry);
      match Find(rows, entry.key) {
        case None => rows := rows + [entry];
        case Some(id) => rows := rows[id := entry];
      }
      stale := false;
    }

    /** The eviction loop; `broken` are the entries whose objects the store fails to delete. */
    method Evict(order: seq<nat>, need: int, broken: set<nat>) returns (freed: nat, refused: bool, ghost n: nat)
      requires Bounded(order, |rows|) && need > 0
      modifies this`rows
      ensures StopsAt(old(rows), order, need, broken, n)
      ensures rows == EvictedFirst(old(rows), order, n) && freed == Freed(old(rows), order, n)
      ensures refused <==> n < |order| && freed < need
    {
      ghost var was := rows;
      EvictNone(was, order);
      assert Passed(was, order, need, broken, 0);
      hide EvictedFirst, Freed, Removed, Passed;
      freed, refused, n := 0, false, 0;
      var next := 0;
      while next < |order| && freed < need
        invariant next <= |order| && n == next
        invariant rows == EvictedFirst(was, order, next) && freed == Freed(was, order, next)
        invariant Passed(was, order, need, broken, next)
      {
        var id := order[next];
        if id in broken {
          refused := true;
          break;
        }
        Grow(was, order, next);
        PassedMore(was, order, need, broken, next);
        freed := freed + rows[id].size;
        rows := Removed(rows, id);
        next, n := next + 1, next + 1;
      }
    }

    /** Evict least recently used entries until there is room. */
    method PruneMembership(pool: nat, mount: nat, limit: Limit, capacity: Option<Capacity>, incoming: nat,
                           broken: set<nat>) returns (outcome: Outcome, ghost n: nat)
      modifies this`rows
      ensures n <= |Lru(old(rows), |old(rows)|, pool, mount)|
      ensures rows == EvictedFirst(old(rows), Lru(old(rows), |old(rows)|, pool, mount), n)
      ensures Pruned(old(rows), pool, mount, limit, capacity, incoming, broken, n, outcome)
      ensures outcome.Failed? ==> n < |Lru(old(rows), |old(rows)|, pool, mount)|
                                  && Lru(old(rows), |old(rows)|, pool, mount)[n] in broken
      ensures limit.max == 0 || incoming > limit.max ==> outcome.Skipped? && rows == old(rows)
    {
      var order := Lru(rows, |rows|, pool, mount);
      var need := BytesToFree(Used(rows, pool, mount), incoming, limit, capacity);
      EvictNone(rows, order);
      hide EvictedFirst, Freed, Lru, BytesToFree;
      if limit.max == 0 || incoming > limit.max {
        return Skipped, 0;
      }
      if need <= 0 {
        return Admitted, 0;
      }
      var freed, refused;
      freed, refused, n := Evict(order, need, broken);
      outcome := if refused then Failed else if freed < need && incoming > 0 then Skipped else Admitted;
    }
  }
}
