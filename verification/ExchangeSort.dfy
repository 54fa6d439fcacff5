/** The in-place exchange sort that both the marker pruner and the recording trimmer use, oldest first. */
module ExchangeSort {
  ghost predicate SortedBy<T>(s: seq<T>, key: T -> int) {
    forall i, j | 0 <= i < j < |s| :: key(s[i]) <= key(s[j])
  }

  method Sort<T>(a: array<T>, key: T -> int)
    modifies a
    ensures SortedBy(a[..], key)
    ensures multiset(a[..]) == multiset(old(a[..]))
  {
    for i := 0 to a.Length
      invariant forall p, q | 0 <= p < q < a.Length && p < i :: key(a[p]) <= key(a[q])
      invariant multiset(a[..]) == multiset(old(a[..]))
    {
      for j := i + 1 to a.Length
        invariant forall p, q | 0 <= p < q < a.Length && p < i :: key(a[p]) <= key(a[q])
        invariant forall q | i < q < j :: key(a[i]) <= key(a[q])
        invariant multiset(a[..]) == multiset(old(a[..]))
      {
        if key(a[j]) < key(a[i]) {
          Exchange(a, i, j);
        }
      }
    }
  }

  method Exchange<T>(a: array<T>, i: nat, j: nat)
    requires i < j < a.Length
    modifies a
    ensures a[i] == old(a[j]) && a[j] == old(a[i])
    ensures forall k | 0 <= k < a.Length && k != i && k != j :: a[k] == old(a[k])
    ensures multiset(a[..]) == multiset(old(a[..]))
  {
    a[i], a[j] := a[j], a[i];
  }

  /** An element at two places counts twice, so a permutation of distinct elements is distinct. */
  lemma TwiceInMultiset<T>(s: seq<T>, i: nat, j: nat)
    requires i < j < |s|
    ensures s[i] == s[j] ==> multiset(s)[s[i]] >= 2
  {
    assert s == s[..j] + s[j..];
    assert multiset(s) == multiset(s[..j]) + multiset(s[j..]);
    assert s[..j][i] in multiset(s[..j]) && s[j..][0] in multiset(s[j..]);
  }
}
