/** The sorted, duplicate-free key lists of multi-lock calls. */
module LockKeys {
  import opened Names

  // ---------------------------------------------------------------- sorted key lists

  predicate Ascending(keys: seq<string>) {
    forall i, j | 0 <= i < j < |keys| :: Below(keys[i], keys[j])
  }

  function Insert(keys: seq<string>, key: string): seq<string> {
    if keys == [] || Below(key, keys[0]) then [key] + keys
    else [keys[0]] + Insert(keys[1..], key)
  }

  /** Sorting, as the library's string sort orders. */
  function Sorted(keys: seq<string>): seq<string> {
    if keys == [] then [] else Insert(Sorted(keys[1..]), keys[0])
  }

  /** The keys a multi-lock call takes: each non-empty value once, in ascending order. */
  function UniqueKeys(values: seq<string>): seq<string> {
    if values == [] then []
    else
      var n := |values| - 1;
      var keys := UniqueKeys(values[..n]);
      if values[n] == "" || values[n] in keys then keys else Insert(keys, values[n])
  }

  lemma {:induction false} InsertKeeps(keys: seq<string>, key: string)
    requires Ascending(keys) && key !in keys
    ensures Ascending(Insert(keys, key))
    ensures forall k :: k in Insert(keys, key) <==> k in keys || k == key
  {
    if keys != [] && !Below(key, keys[0]) {
      BelowTotal(key, keys[0]);
      InsertKeeps(keys[1..], key);
      assert keys == [keys[0]] + keys[1..];
      var rest := Insert(keys[1..], key);
      forall i | 0 <= i < |rest| ensures Below(keys[0], rest[i]) { assert rest[i] in rest; }
    } else if keys != [] {
      forall i | 0 <= i < |keys| ensures Below(key, keys[i]) {
        if i > 0 { BelowTransitive(key, keys[0], keys[i]); }
      }
    }
  }

  lemma {:induction false} SortedKeeps(keys: seq<string>)
    requires forall i, j | 0 <= i < j < |keys| :: keys[i] != keys[j]
    ensures Ascending(Sorted(keys))
    ensures forall k :: k in Sorted(keys) <==> k in keys
  {
    if keys == [] {
    } else {
      SortedKeeps(keys[1..]);
      InsertKeeps(Sorted(keys[1..]), keys[0]);
      assert keys == [keys[0]] + keys[1..];
    }
  }

  lemma {:induction false} UniqueKeysExact(values: seq<string>)
    ensures Ascending(UniqueKeys(values))
    ensures forall k :: k in UniqueKeys(values) <==> k in values && k != ""
  {
    if values == [] {
    } else {
      var n := |values| - 1;
      UniqueKeysExact(values[..n]);
      assert values == values[..n] + [values[n]];
      if values[n] != "" && values[n] !in UniqueKeys(values[..n]) {
        InsertKeeps(UniqueKeys(values[..n]), values[n]);
      }
    }
  }

  /** An ascending list is determined by its elements. */
  lemma {:induction false} AscendingUnique(a: seq<string>, b: seq<string>)
    requires Ascending(a) && Ascending(b)
    requires forall k :: k in a <==> k in b
    ensures a == b
  {
    assert b != [] ==> b[0] in b;
    if a == [] {
    } else {
      assert a[0] in b && b[0] in a;
      Smallest(a, b[0]);
      Smallest(b, a[0]);
      BelowTotal(a[0], b[0]);
      Rest(a);
      Rest(b);
      AscendingUnique(a[1..], b[1..]);
    }
  }

  lemma Smallest(a: seq<string>, k: string)
    requires Ascending(a) && k in a
    ensures k == a[0] || Below(a[0], k)
  {
  }

  lemma Rest(a: seq<string>)
    requires Ascending(a) && a != []
    ensures forall k :: k in a[1..] <==> k in a && k != a[0]
  {
    BelowTotal(a[0], a[0]);
    assert a == [a[0]] + a[1..];
  }

  /** The list is built with a set of the values seen, and sorted at the end. */
  method UniqueLifecycleIDs(values: seq<string>) returns (result: seq<string>)
    ensures result == UniqueKeys(values)
  {
    var seen: set<string> := {};
    result := [];
    for n := 0 to |values|
      invariant forall k :: k in seen <==> k in result
      invariant forall k :: k in result <==> k in values[..n] && k != ""
      invariant forall i, j | 0 <= i < j < |result| :: result[i] != result[j]
    {
      assert values[..n + 1] == values[..n] + [values[n]];
      var value := values[n];
      if value == "" || value in seen {
        continue;
      }
      seen := seen + {value};
      result := result + [value];
    }
    assert values[..|values|] == values;
    SortedKeeps(result);
    result := Sorted(result);
    UniqueKeysExact(values);
    AscendingUnique(result, UniqueKeys(values));
  }
}
