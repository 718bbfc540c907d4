/** The lock table as the process holds it: a map from keys to shared, reference-counted entries. */
module StorageLifecycle {
  import opened Locks

  class LockEntry {
    ghost const number: nat
    var refs: int

    constructor (ghost number: nat)
      ensures this.number == number && refs == 0
    {
      this.number := number;
      refs := 0;
    }
  }

  class Lifecycle {
    var locks: map<string, LockEntry>
    /** Every entry ever created, by number. */
    ghost var entries: seq<LockEntry>

    ghost predicate Valid()
      reads this, entries
    {
      && (forall i | 0 <= i < |entries| :: entries[i].number == i)
      && (forall k | k in locks :: locks[k] in entries)
    }

    ghost function View(): Table
      reads this, entries
    {
      Table(Numbers(), Counts(), |entries|)
    }

    ghost function Numbers(): map<string, nat>
      reads this
    {
      map k | k in locks :: locks[k].number
    }

    ghost function Counts(): map<nat, int>
      reads this, entries
    {
      map i: nat | i < |entries| :: entries[i].refs
    }

    constructor ()
      ensures Valid() && fresh(this) && entries == [] && View() == Table(map[], map[], 0)
    {
      locks, entries := map[], [];
    }

    method AddEntry(key: string) returns (entry: LockEntry)
      requires Valid() && key !in locks
      modifies this
      ensures Valid() && fresh(entry) && entry.number == |old(entries)| && entry.refs == 0
      ensures entries == old(entries) + [entry]
      ensures locks == old(locks)[key := entry]
      ensures Numbers() == old(Numbers())[key := entry.number]
      ensures Counts() == old(Counts())[entry.number := 0]
    {
      entry := new LockEntry(|entries|);
      locks := locks[key := entry];
      entries := entries + [entry];
    }

    method RetainLock(key: string) returns (entry: LockEntry)
      requires Valid()
      modifies this, entries
      ensures Valid() && View() == RetainEntry(old(View()), key)
      ensures entry.number == EntryFor(old(View()), key) && entry in entries
      ensures entries == old(entries) || (fresh(entry) && entries == old(entries) + [entry])
    {
      if key in locks {
        entry := locks[key];
        assert Numbers() == old(Numbers())[key := entry.number];
      } else {
        entry := AddEntry(key);
      }
      label Found:
      entry.refs := entry.refs + 1;
      assert Numbers() == old@Found(Numbers()) == old(Numbers())[key := entry.number];
      assert Counts() == old@Found(Counts())[entry.number := entry.refs];
      assert entry.refs == Refs(old(View()), entry.number) + 1;
      assert Counts() == old(Counts())[entry.number := entry.refs];
      hide Numbers, Counts;
    }

    method ReleaseLock(key: string, entry: LockEntry)
      requires Valid() && entry in entries
      modifies this, entries
      ensures Valid() && View() == ReleaseEntry(old(View()), key, entry.number)
      ensures entries == old(entries)
    {
      entry.refs := entry.refs - 1;
      if entry.refs == 0 && key in locks && locks[key] == entry {
        locks := locks - {key};
      }
    }
  }
}
