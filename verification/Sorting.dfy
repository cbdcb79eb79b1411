/** Sorting by an order that leaves no two elements unrelated. */
module Sorting {
  ghost predicate Distinct<T>(s: seq<T>) {
    forall i, j :: 0 <= i < j < |s| ==> s[i] != s[j]
  }

  /** `less` orders the elements of s strictly and leaves no two of them unrelated. */
  ghost predicate Orders<T(!new)>(less: (T, T) -> bool, s: seq<T>) {
    && (forall x, y :: x in s && y in s && x != y ==> less(x, y) || less(y, x))
    && (forall x, y, z :: x in s && y in s && z in s && less(x, y) && less(y, z) ==> less(x, z))
  }

  ghost predicate Ascends<T>(less: (T, T) -> bool, s: seq<T>) {
    forall i, j :: 0 <= i < j < |s| ==> less(s[i], s[j])
  }

  ghost predicate SameElements<T>(a: seq<T>, b: seq<T>) {
    |a| == |b| && multiset(a) == multiset(b)
  }

  lemma SameMembers<T>(a: seq<T>, b: seq<T>)
    requires SameElements(a, b)
    ensures forall x :: x in a <==> x in b
  {
    forall x
      ensures x in a <==> x in b
    {
      assert x in a <==> x in multiset(a);
      assert x in b <==> x in multiset(b);
    }
  }

  method Sort<T(==, !new)>(s: seq<T>, less: (T, T) -> bool) returns (r: seq<T>)
    requires Distinct(s) && Orders(less, s)
    ensures SameElements(r, s) && Ascends(less, r)
  {
    r := [];
    var n := 0;
    while n < |s|
      invariant n <= |s| && SameElements(r, s[..n]) && Ascends(less, r)
    {
      SameMembers(r, s[..n]);
      var k := |r|;
      while k > 0 && less(s[n], r[k - 1])
        invariant 0 <= k <= |r| && forall i :: k <= i < |r| ==> less(s[n], r[i])
      {
        k := k - 1;
      }
      Inserted(r, s, n, k, less);
      r := r[..k] + [s[n]] + r[k..];
      n := n + 1;
    }
    assert s[..n] == s;
  }

  lemma Inserted<T(!new)>(r: seq<T>, s: seq<T>, n: nat, k: nat, less: (T, T) -> bool)
    requires Distinct(s) && Orders(less, s) && n < |s| && k <= |r|
    requires SameElements(r, s[..n]) && Ascends(less, r)
    requires (forall i :: k <= i < |r| ==> less(s[n], r[i])) && (k > 0 ==> !less(s[n], r[k - 1]))
    ensures var next := r[..k] + [s[n]] + r[k..]; SameElements(next, s[..n + 1]) && Ascends(less, next)
  {
    InsertedElements(r, s, n, k);
    SameMembers(r, s[..n]);
    forall i | 0 <= i < k
      ensures less(r[i], s[n])
    {
      assert r[i] in s[..n] && r[k - 1] in s[..n];
      assert i < k - 1 ==> less(r[i], r[k - 1]);
    }
    InsertedOrder(r, s[n], k, less);
  }

  lemma InsertedElements<T>(r: seq<T>, s: seq<T>, n: nat, k: nat)
    requires n < |s| && k <= |r| && SameElements(r, s[..n])
    ensures SameElements(r[..k] + [s[n]] + r[k..], s[..n + 1])
  {
    assert s[..n + 1] == s[..n] + [s[n]];
    assert r == r[..k] + r[k..];
  }

  lemma InsertedOrder<T>(r: seq<T>, x: T, k: nat, less: (T, T) -> bool)
    requires k <= |r| && Ascends(less, r)
    requires forall i :: 0 <= i < k ==> less(r[i], x)
    requires forall i :: k <= i < |r| ==> less(x, r[i])
    ensures Ascends(less, r[..k] + [x] + r[k..])
  {
    var next := r[..k] + [x] + r[k..];
    assert forall i :: 0 <= i < k ==> next[i] == r[i];
    assert forall i :: k < i < |next| ==> next[i] == r[i - 1];
  }
}
