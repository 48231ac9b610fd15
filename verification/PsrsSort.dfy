/** The whole sort by regular sampling: the choice of the pivots, when the result is in order, and an input
    for which it is not. */
module PsrsSort {
  import opened BSearch
  import opened MergeSort
  import opened PsrsDivide
  import opened Psrs

  // ----- Pivots -----

  function Interval(s: seq<Elem>, n: nat): nat
    requires n > 0
  {
    (|s| + n - 1) / n
  }

  /** The pivot number `i` that a core sends. */
  function LocalPivot(s: seq<Elem>, n: nat, i: nat): Elem
    requires n > 0 && s != []
  {
    if (i + 1) * Interval(s, n) < |s| then s[(i + 1) * Interval(s, n)] else s[|s| - 1]
  }

  function LocalPivots(s: seq<Elem>, n: nat): (p: seq<Elem>)
    requires n > 0 && s != []
    ensures |p| == n - 1
  {
    seq(n - 1, i requires 0 <= i < n - 1 => LocalPivot(s, n, i))
  }

  /** All pivots that the cores send, core by core. */
  function Sent(local: seq<seq<Elem>>, n: nat): seq<Elem>
    requires n > 0 && NoneEmpty(local)
  {
    if local == [] then [] else Sent(local[..|local| - 1], n) + LocalPivots(local[|local| - 1], n)
  }

  lemma {:induction false} SentLength(local: seq<seq<Elem>>, n: nat)
    requires n > 0 && NoneEmpty(local)
    ensures |Sent(local, n)| == |local| * (n - 1)
  {
    hide LocalPivot;
    if local != [] {
      var k := |local| - 1;
      SentLength(local[..k], n);
      assert (k + 1) * (n - 1) == k * (n - 1) + (n - 1);
    }
  }

  /** Where pivot `m` is taken from among the sorted ones. */
  function PivotAt(n: nat, m: nat): nat
    requires 1 <= m
  {
    (m - 1) * n + n / 2
  }

  lemma PivotAtBounds(n: nat, m: nat)
    requires 1 <= m < n
    ensures m <= PivotAt(n, m) < n * (n - 1)
  {
    assert (m - 1) * n <= (n - 2) * n by { Monotone(n, m - 1, n - 2); }
    assert (m - 1) * n >= (m - 1) * 2 by { Monotone(m - 1, 2, n); }
  }

  lemma PivotAtGrows(n: nat, k: nat, m: nat)
    requires 1 <= k <= m < n
    ensures PivotAt(n, k) <= PivotAt(n, m)
  {
    Monotone(n, k - 1, m - 1);
  }

  /** The first pivots are overwritten by the selected ones. No selected one is overwritten before it is read. */
  predicate Selected(sorted: seq<Elem>, n: nat, pivots: seq<Elem>) {
    && |sorted| == |pivots| == n * (n - 1)
    && forall m :: 1 <= m < n ==> PivotAt(n, m) < |sorted| && m < |pivots| && pivots[m] == sorted[PivotAt(n, m)]
  }

  /** What the cores send, sorted and thinned out by the main core. The selected pivots are in order. */
  method ChoosePivots(local: seq<seq<Elem>>, n: nat) returns (sorted: seq<Elem>, pivots: seq<Elem>)
    requires n > 1 && |local| == n && NoneEmpty(local)
    ensures Sorted(sorted) && multiset(sorted) == multiset(Sent(local, n)) && Selected(sorted, n, pivots)
    ensures Ordered(KeysOf(pivots), 1, n - 1)
  {
    var sent := [];
    for me := 0 to n
      invariant sent == Sent(local[..me], n)
    {
      assert local[..me + 1][..me] == local[..me];
      sent := sent + LocalPivots(local[me], n);
    }
    assert local[..n] == local;
    SentLength(local, n);
    sorted := LocalSort(sent);
    SameLength(sorted, sent);
    pivots := Select(sorted, n);
    SelectedOrdered(sorted, n, pivots);
  }

  lemma SameLength(s: seq<Elem>, t: seq<Elem>)
    requires multiset(s) == multiset(t)
    ensures |s| == |t|
  {
    assert |multiset(s)| == |s| && |multiset(t)| == |t|;
  }

  lemma Removed(s: seq<Elem>, i: nat)
    requires i < |s|
    ensures multiset(s[..i] + s[i + 1..]) == multiset(s) - multiset{s[i]}
  {
    assert s == s[..i] + ([s[i]] + s[i + 1..]);
  }

  method Select(sorted: seq<Elem>, n: nat) returns (pivots: seq<Elem>)
    requires n > 1 && |sorted| == n * (n - 1)
    ensures Selected(sorted, n, pivots)
  {
    hide PivotAt;
    var p := new Elem[|sorted|](i requires 0 <= i < |sorted| => sorted[i]);
    for i := 0 to n - 1
      invariant forall m :: 1 <= m <= i ==> PivotAt(n, m) < |sorted| && m < |sorted| && p[m] == sorted[PivotAt(n, m)]
      invariant forall k :: i < k < |sorted| ==> p[k] == sorted[k]
    {
      PivotAtBounds(n, i + 1);
      p[i + 1] := p[PivotAt(n, i + 1)];
    }
    pivots := p[..];
  }

  lemma SelectedOrdered(sorted: seq<Elem>, n: nat, pivots: seq<Elem>)
    requires n > 1 && Sorted(sorted) && Selected(sorted, n, pivots)
    ensures Ordered(KeysOf(pivots), 1, n - 1)
  {
    hide PivotAt;
    PivotAtBounds(n, n - 1);
    forall i, j | 1 <= i <= j <= n - 1 ensures KeysOf(pivots)[i] <= KeysOf(pivots)[j] {
      PivotAtGrows(n, i, j);
      assert pivots[i] == sorted[PivotAt(n, i)] && pivots[j] == sorted[PivotAt(n, j)];
    }
  }

  // ----- Order of the result -----

  /** What the phases leave behind: the sorted slices, the pivots as sent and sorted, the pivots selected, the
      boundaries and the merged partitions. */
  datatype Phases = Phases(local: seq<seq<Elem>>, sorted: seq<Elem>, pivots: seq<Elem>, sub: seq<seq<nat>>,
                           parts: seq<seq<Elem>>)

  predicate Partitioned(ph: Phases, n: nat) {
    && |ph.local| == |ph.parts| == n && n > 1 && AllSorted(ph.local) && AllSorted(ph.parts)
    && Bounds(ph.local, ph.sub, n)
    && |ph.pivots| >= n && Ordered(KeysOf(ph.pivots), 1, n - 1)
    && forall m :: 0 <= m < n ==> multiset(ph.parts[m]) == Bag(Pieces(ph.local, ph.sub, n, m))
  }

  /** Boundary `m` of list `i` parts the list at pivot `m`. */
  predicate RightAt(ph: Phases, n: nat, i: nat, m: nat)
    requires Partitioned(ph, n) && i < n && m < n
  {
    SplitsAt(KeysOf(ph.local[i]), ph.pivots[m].key, ph.sub[i][m])
  }

  predicate AllRight(ph: Phases, n: nat)
    requires Partitioned(ph, n)
  {
    forall i, m :: 0 <= i < n && 1 <= m < n ==> RightAt(ph, n, i, m)
  }

  /** Where an element of a partition comes from. */
  lemma FromPiece(ph: Phases, n: nat, m: nat, x: Elem) returns (i: nat, at: nat)
    requires Partitioned(ph, n) && m < n && x in ph.parts[m]
    ensures i < n && ph.sub[i][m] <= at < ph.sub[i][m + 1] <= |ph.local[i]| && ph.local[i][at] == x
  {
    var pieces := Pieces(ph.local, ph.sub, n, m);
    assert x in multiset(ph.parts[m]);
    InBag(pieces, x);
    i :| 0 <= i < |pieces| && x in pieces[i];
    RowInside(ph.local[i], ph.sub[i], n, m + 1);
    var k :| 0 <= k < |pieces[i]| && pieces[i][k] == x;
    at := ph.sub[i][m] + k;
  }

  /** An element of a partition lies between the pivots around it. */
  lemma Between(ph: Phases, n: nat, m: nat, x: Elem)
    requires Partitioned(ph, n) && AllRight(ph, n) && m < n && x in ph.parts[m]
    ensures m > 0 ==> ph.pivots[m].key <= x.key
    ensures m + 1 < n ==> x.key <= ph.pivots[m + 1].key
  {
    hide Pieces, Bag;
    var i, at := FromPiece(ph, n, m, x);
    assert KeysOf(ph.local[i])[at] == x.key;
    assert m > 0 ==> RightAt(ph, n, i, m);
    assert m + 1 < n ==> RightAt(ph, n, i, m + 1);
  }

  lemma SortedConcat(s: seq<Elem>, t: seq<Elem>)
    requires Sorted(s) && Sorted(t) && forall x, y :: x in s && y in t ==> x.key <= y.key
    ensures Sorted(s + t)
  {
    forall i, j | 0 <= i < j < |s + t| ensures (s + t)[i].key <= (s + t)[j].key {
      if i < |s| <= j {
        assert s[i] in s && t[j - |s|] in t;
      }
    }
  }

  /** Right boundaries in all lists put the whole result in order. */
  lemma {:induction false} PartsInOrder(ph: Phases, n: nat, m: nat)
    requires Partitioned(ph, n) && AllRight(ph, n) && m <= n
    ensures Sorted(Flat(ph.parts[..m]))
    ensures 0 < m < n ==> forall x :: x in Flat(ph.parts[..m]) ==> x.key <= ph.pivots[m].key
  {
    hide Partitioned, AllRight, Sorted, Flat;
    PartitionedShape(ph, n);
    if m == 0 {
      assert ph.parts[..0] == [];
      FlatNone();
      assert Sorted([]) by { SortedNone(); }
    } else {
      PartsInOrder(ph, n, m - 1);
      FlatPrefix(ph.parts, m - 1);
      var s, t := Flat(ph.parts[..m - 1]), ph.parts[m - 1];
      forall y | y in t ensures (m > 1 ==> ph.pivots[m - 1].key <= y.key) && (m < n ==> y.key <= ph.pivots[m].key) {
        Between(ph, n, m - 1, y);
      }
      assert m == 1 ==> s == [] by {
        assert ph.parts[..0] == [];
        FlatNone();
      }
      SortedConcat(s, t);
    }
  }

  lemma SortedNone()
    ensures Sorted([])
  {
  }

  lemma PartitionedShape(ph: Phases, n: nat)
    requires Partitioned(ph, n)
    ensures |ph.parts| == n && n > 1 && |ph.pivots| >= n && AllSorted(ph.parts)
    ensures forall m :: 1 <= m < n - 1 ==> ph.pivots[m].key <= ph.pivots[m + 1].key
  {
    forall m | 1 <= m < n - 1 ensures ph.pivots[m].key <= ph.pivots[m + 1].key {
      assert KeysOf(ph.pivots)[m] <= KeysOf(ph.pivots)[m + 1];
    }
  }

  // ----- Which boundaries are right -----

  ghost predicate AllDivided(ph: Phases, n: nat)
    requires Partitioned(ph, n)
  {
    forall i :: 0 <= i < n ==>
      Divided(KeysOf(ph.local[i]), KeysOf(ph.pivots), ph.sub[i], 0, |ph.local[i]|, 1, n - 1)
  }

  /** The search for boundary `m` of list `i` went far enough: it ran to the end of the list, or stopped at an
      element that is not below the pivot. */
  ghost predicate Reached(ph: Phases, n: nat, i: nat, m: nat)
    requires Partitioned(ph, n) && i < n && 1 <= m < n
  {
    var s := ph.local[i];
    var cap := Cap(ph.sub[i], 0, |s|, 1, n - 1, m);
    cap < |s| ==> ph.pivots[m].key <= s[cap].key
  }

  lemma RightIff(ph: Phases, n: nat, i: nat, m: nat)
    requires Partitioned(ph, n) && AllDivided(ph, n) && i < n && 1 <= m < n
    ensures RightAt(ph, n, i, m) <==> Reached(ph, n, i, m)
  {
    hide SplitsAt, Placed, Cap;
    var s, row := ph.local[i], ph.sub[i];
    var cap := Cap(row, 0, |s|, 1, n - 1, m);
    assert Sorted(s);
    assert Divided(KeysOf(s), KeysOf(ph.pivots), row, 0, |s|, 1, n - 1);
    BoundaryExact(KeysOf(s), KeysOf(ph.pivots)[m], row[m], 0, cap);
    assert cap < |s| ==> KeysOf(s)[cap] == s[cap].key;
  }

  // ----- The whole sort -----

  /** The main core sorts so few elements alone. */
  predicate Small(total: nat, n: nat) {
    n == 1 || total < n * n * n
  }

  ghost predicate Sampled(a: seq<seq<Elem>>, n: nat, ph: Phases) {
    && Partitioned(ph, n) && AllDivided(ph, n) && NoneEmpty(ph.local)
    && (forall i :: 0 <= i < n ==> multiset(ph.local[i]) == multiset(SliceOf(a, n, i)))
    && Sorted(ph.sorted) && multiset(ph.sorted) == multiset(Sent(ph.local, n)) && Selected(ph.sorted, n, ph.pivots)
  }

  lemma SlicesNotEmpty(a: seq<seq<Elem>>, n: nat, local: seq<seq<Elem>>)
    requires n > 0 && |Flat(a)| >= n * n * n && |local| == n
    requires forall i :: 0 <= i < n ==> multiset(local[i]) == multiset(SliceOf(a, n, i))
    ensures NoneEmpty(local)
  {
    hide Flat, SliceStart, Share;
    forall i | 0 <= i < n ensures local[i] != [] {
      SliceBounds(|Flat(a)|, n, i);
      SliceIsFull(|Flat(a)|, n, i);
      SameLength(local[i], SliceOf(a, n, i));
    }
  }

  method DivideAll(local: seq<seq<Elem>>, pivots: seq<Elem>, n: nat) returns (sub: seq<seq<nat>>)
    requires n > 1 && |local| == n && NoneEmpty(local) && AllSorted(local)
    requires |pivots| >= n && Ordered(KeysOf(pivots), 1, n - 1)
    ensures Bounds(local, sub, n)
    ensures forall i :: 0 <= i < n ==> Divided(KeysOf(local[i]), KeysOf(pivots), sub[i], 0, |local[i]|, 1, n - 1)
  {
    hide Divided, KeysOf;
    sub := [];
    for i := 0 to n
      invariant |sub| == i && forall k :: 0 <= k < i ==> RowOk(local[k], sub[k], n)
      invariant forall k :: 0 <= k < i ==>
        Divided(KeysOf(local[k]), KeysOf(pivots), sub[k], 0, |local[k]|, 1, n - 1)
    {
      var row := DivideList(local[i], KeysOf(pivots), n);
      sub := sub + [row];
    }
  }

  /** The phases for many elements. Between barriers the cores work on data of their own, so they are taken one
      after the other. */
  method Sample(a: seq<seq<Elem>>, n: nat) returns (ph: Phases, output: seq<Elem>)
    requires n > 1 && |Flat(a)| >= n * n * n
    ensures Sampled(a, n, ph) && output == Flat(ph.parts) && multiset(output) == multiset(Flat(a))
  {
    hide Flat, SliceOf, Sorted, KeysOf, Divided, Selected, Sent, Bag, Pieces;
    var local := SortSlices(a, n);
    SlicesNotEmpty(a, n, local);
    var sorted, pivots := ChoosePivots(local, n);
    EnoughPivots(sorted, n, pivots);
    var sub := DivideAll(local, pivots, n);
    var parts;
    parts, output := MergeParts(local, sub, n);
    ph := Phases(local, sorted, pivots, sub, parts);
  }

  lemma EnoughPivots(sorted: seq<Elem>, n: nat, pivots: seq<Elem>)
    requires n > 1 && Selected(sorted, n, pivots)
    ensures |pivots| >= n
  {
    Monotone(n, 1, n - 1);
  }

  /** The result has the elements of the input and consists of the `n` sorted partitions that the cores
      return. With few elements or one core it is in order; otherwise it is in order if every search went
      far enough. */
  method DoPsrs(a: seq<seq<Elem>>, n: nat) returns (ph: Phases, output: seq<Elem>)
    requires n > 0
    ensures |ph.parts| == n && AllSorted(ph.parts) && output == Flat(ph.parts)
    ensures multiset(output) == multiset(Flat(a)) && |output| == |Flat(a)|
    ensures Small(|Flat(a)|, n) ==>
              Sorted(output) && ph.parts[0] == output && forall i :: 1 <= i < n ==> ph.parts[i] == []
    ensures !Small(|Flat(a)|, n) ==> Sampled(a, n, ph)
    ensures !Small(|Flat(a)|, n) && AllReached(ph, n) ==> Sorted(output)
  {
    hide Flat, Sorted, Partitioned, AllDivided, AllRight, RightAt, Reached;
    var total := Total(a);
    if Small(total, n) {
      var all := CopyElem(a, 0, total);
      output := LocalSort(all);
      ph := Phases([output], [], [], [], [output] + seq(n - 1, _ => []));
      assert all == Flat(a);
      FlatRest(output, n - 1);
      assert Sorted([]) by { SortedNone(); }
    } else {
      ph, output := Sample(a, n);
      PartitionedShape(ph, n);
      if AllReached(ph, n) {
        ReachedIsRight(ph, n);
        PartsInOrder(ph, n, n);
        assert ph.parts[..n] == ph.parts;
      }
    }
    SameLength(output, Flat(a));
  }

  ghost predicate AllReached(ph: Phases, n: nat) {
    Partitioned(ph, n) && forall i, m :: 0 <= i < n && 1 <= m < n ==> Reached(ph, n, i, m)
  }

  lemma ReachedIsRight(ph: Phases, n: nat)
    requires Partitioned(ph, n) && AllDivided(ph, n) && AllReached(ph, n)
    ensures AllRight(ph, n)
  {
    hide Partitioned, AllDivided, RightAt, Reached;
    forall i, m | 0 <= i < n && 1 <= m < n ensures RightAt(ph, n, i, m) {
      RightIff(ph, n, i, m);
    }
  }

  lemma {:induction false} FlatRest(s: seq<Elem>, k: nat)
    ensures Flat([s] + seq(k, _ => [])) == s
  {
    var all := [s] + seq(k, _ => []);
    if k == 0 {
      assert all[..0] == [];
      FlatNone();
    } else {
      FlatRest(s, k - 1);
      assert all[..k] == [s] + seq(k - 1, _ => []);
    }
  }
}
