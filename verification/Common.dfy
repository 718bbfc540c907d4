/** What several parts share. */
module Common {

  datatype Option<+T> = None | Some(value: T)

  predicate Distinct<T(==)>(s: seq<T>) { forall i, k | 0 <= i < k < |s| :: s[i] != s[k] }
}
