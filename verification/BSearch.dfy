/** Binary search in a sorted sequence. */
module BSearch {

  predicate Increasing(a: seq<int>) {
    forall i, j :: 0 <= i < j < |a| ==> a[i] < a[j]
  }

  predicate NonDecreasing(a: seq<int>) {
    forall i, j :: 0 <= i < j < |a| ==> a[i] <= a[j]
  }

  /** Nothing before `p` is greater than `k`, nothing from there on is smaller. */
  predicate SplitsAt(a: seq<int>, k: int, p: int) {
    0 <= p <= |a| && (forall i :: 0 <= i < p ==> a[i] <= k) && (forall i :: p <= i < |a| ==> k <= a[i])
  }

  /** Where `k` belongs: everything before is smaller, nothing from there on is. */
  ghost predicate IsLowerBound(a: seq<int>, k: int, p: int) {
    0 <= p <= |a| && (forall i :: 0 <= i < p ==> a[i] < k) && (forall i :: p <= i < |a| ==> k <= a[i])
  }

  /** Stays inside the sequence whatever it holds, and finds the place of `k` in an increasing one; with equal
      keys it finds a place among them. */
  method LowerBound(k: int, a: seq<int>) returns (p: nat, found: bool)
    ensures p <= |a| && (found ==> p < |a| && a[p] == k)
    ensures NonDecreasing(a) ==> SplitsAt(a, k, p) && (found <==> k in a) && (found ==> SplitsAt(a, k, p + 1))
    ensures Increasing(a) ==> IsLowerBound(a, k, p)
  {
    found := false;
    if |a| == 0 {
      return 0, false;
    }
    var l, r := 0, |a| - 1;
    while l < r
      invariant 0 <= l <= r + 1 <= |a|
      invariant NonDecreasing(a) ==> (forall i :: 0 <= i < l ==> a[i] < k) && (forall i :: r < i < |a| ==> k < a[i])
    {
      var m := (l + r) / 2;
      if k == a[m] {
        return m, true;
      }
      if k < a[m] {
        r := m - 1;
      } else {
        l := m + 1;
      }
    }
    if l > r {
      return l, false;
    }
    if k == a[l] {
      return l, true;
    }
    p := if k > a[l] then l + 1 else l;
  }

  method UpperBound(k: int, a: seq<int>) returns (p: nat)
    ensures p <= |a|
    ensures Increasing(a) ==> (forall i :: 0 <= i < p ==> a[i] <= k) && (forall i :: p <= i < |a| ==> k < a[i])
    ensures NonDecreasing(a) ==> SplitsAt(a, k, p)
  {
    var found;
    p, found := LowerBound(k, a);
    p := p + if found then 1 else 0;
  }
}
