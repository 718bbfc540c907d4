/** Strings as Go orders them. */
module Names {

  /** a sorts strictly before b. */
  predicate Below(a: string, b: string) {
    b != [] && (a == [] || a[0] < b[0] || (a[0] == b[0] && Below(a[1..], b[1..])))
  }

  lemma {:induction false} BelowTransitive(a: string, b: string, c: string)
    requires Below(a, b) && Below(b, c)
    ensures Below(a, c)
  {
    if a == [] {
    } else if a[0] == b[0] == c[0] {
      BelowTransitive(a[1..], b[1..], c[1..]);
    }
  }

  lemma {:induction false} BelowTotal(a: string, b: string)
    ensures Below(a, b) || Below(b, a) || a == b
    ensures !(Below(a, b) && Below(b, a)) && !Below(a, a)
  {
    if a == [] {
    } else {
      BelowTotal(a[1..], a[1..]);
    }
    if a != [] && b != [] && a[0] == b[0] {
      BelowTotal(a[1..], b[1..]);
      if a[1..] == b[1..] { assert a == [a[0]] + a[1..] == b; }
    }
  }

  /** The two strings agree up to k, where a ends or has the smaller character. */
  predicate PartAt(a: string, b: string, k: nat) {
    k <= |a| && k < |b| && a[..k] == b[..k] && (k == |a| || a[k] < b[k])
  }

  lemma {:induction false} BelowExact(a: string, b: string)
    ensures Below(a, b) <==> exists k :: PartAt(a, b, k)
  {
    if b == [] {
    } else if a == [] {
      assert PartAt(a, b, 0);
    } else {
      BelowExact(a[1..], b[1..]);
      if a[0] < b[0] { assert PartAt(a, b, 0); }
      if k: nat :| PartAt(a[1..], b[1..], k) && a[0] == b[0] {
        assert a[..k + 1] == [a[0]] + a[1..][..k] && b[..k + 1] == [b[0]] + b[1..][..k];
        assert PartAt(a, b, k + 1);
      }
      if k: nat :| PartAt(a, b, k) && k > 0 {
        assert a[1..][..k - 1] == a[..k][1..] && b[1..][..k - 1] == b[..k][1..];
        assert a[..k][0] == b[..k][0];
        assert PartAt(a[1..], b[1..], k - 1);
      }
    }
  }
}
