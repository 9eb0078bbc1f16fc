/** Sorting a slice in place by a "less" function, as `sort.Slice` promises it: ordered, and a permutation. */
module Sorting {
  import opened Text

  /** A strict weak order: "not after" is transitive. */
  ghost predicate StrictWeakOrder<T(!new)>(less: (T, T) -> bool) {
    && (forall x, y :: less(x, y) ==> !less(y, x))
    && (forall x, y, z :: !less(y, x) && !less(z, y) ==> !less(z, x))
  }

  ghost predicate Sorted<T(!new)>(s: seq<T>, less: (T, T) -> bool) {
    forall i, j :: 0 <= i < j < |s| ==> !less(s[j], s[i])
  }

  /** Insertion by swaps: a[..i] is sorted, and a[i] sinks to its place. */
  method Insert<T(!new)>(a: array<T>, i: nat, less: (T, T) -> bool)
    requires StrictWeakOrder(less) && i < a.Length && Sorted(a[..i], less)
    modifies a
    ensures Sorted(a[..i + 1], less)
    ensures multiset(a[..]) == multiset(old(a[..]))
    ensures forall k :: i < k < a.Length ==> a[k] == old(a[k])
  {
    var j := i;
    while j > 0 && less(a[j], a[j - 1])
      invariant 0 <= j <= i
      invariant forall p, q :: 0 <= p < q <= i && q != j ==> !less(a[q], a[p])
      invariant forall k :: i < k < a.Length ==> a[k] == old(a[k])
      invariant multiset(a[..]) == multiset(old(a[..]))
    {
      a[j], a[j - 1] := a[j - 1], a[j];
      j := j - 1;
    }
    forall p, q | 0 <= p < q <= i ensures !less(a[q], a[p]) {
      if q == j && p < j - 1 {
        assert !less(a[j - 1], a[p]);
      }
    }
  }

  method SortSlice<T(!new)>(a: array<T>, less: (T, T) -> bool)
    requires StrictWeakOrder(less)
    modifies a
    ensures Sorted(a[..], less)
    ensures multiset(a[..]) == multiset(old(a[..]))
  {
    for i := 0 to a.Length
      invariant Sorted(a[..i], less)
      invariant multiset(a[..]) == multiset(old(a[..]))
    {
      Insert(a, i, less);
    }
    assert a[..a.Length] == a[..];
  }

  lemma TwiceInMultiset<T>(s: seq<T>, i: nat, j: nat)
    requires i < j < |s| && s[i] == s[j]
    ensures multiset(s)[s[i]] >= 2
  {
    assert s == s[..j] + s[j..];
    assert s[i] in multiset(s[..j]) && s[j] in multiset(s[j..]) by { assert s[..j][i] == s[i] && s[j..][0] == s[j]; }
  }

  lemma LessOrders()
    ensures StrictWeakOrder(Less)
  {
    forall x, y | Less(x, y) ensures !Less(y, x) { LessAsymmetric(x, y); }
    forall x, y, z | !Less(y, x) && !Less(z, y) ensures !Less(z, x) {
      LessTotal(x, y);
      LessTotal(y, z);
      if Less(x, y) && Less(y, z) { LessTransitive(x, y, z); }
      if Less(z, x) { LessAsymmetric(z, x); }
    }
  }
}
