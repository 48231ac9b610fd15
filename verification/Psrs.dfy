/** Parallel sorting by regular sampling: no element is lost or duplicated on the way, and the result is in
    order whenever the boundaries between the partitions are right. */
module Psrs {
  import opened MergeSort
  import opened PsrsDivide

  function Flat(a: seq<seq<Elem>>): seq<Elem> {
    if a == [] then [] else Flat(a[..|a| - 1]) + a[|a| - 1]
  }

  lemma {:induction false} FlatBag(a: seq<seq<Elem>>)
    ensures multiset(Flat(a)) == Bag(a) && |Flat(a)| == Size(a)
  {
    if a != [] {
      FlatBag(a[..|a| - 1]);
    }
  }

  lemma FlatPrefix(a: seq<seq<Elem>>, i: nat)
    requires i < |a|
    ensures Flat(a[..i + 1]) == Flat(a[..i]) + a[i]
  {
    assert a[..i + 1][..i] == a[..i];
  }

  lemma {:induction false} FlatLength(a: seq<seq<Elem>>, i: nat)
    requires i <= |a|
    ensures |Flat(a[..i])| <= |Flat(a)| && Flat(a[..i]) == Flat(a)[..|Flat(a[..i])|]
  {
    if i == |a| {
      assert a[..i] == a;
    } else {
      FlatLength(a[..|a| - 1], i);
      assert a[..|a| - 1][..i] == a[..i];
    }
  }

  // ----- Slices of the input -----

  /** The elements from `dstStart` up to but not including `dstEnd`, with all arrays seen as one. */
  method CopyElem(a: seq<seq<Elem>>, dstStart: nat, dstEnd: nat) returns (out: seq<Elem>)
    requires dstStart <= dstEnd <= |Flat(a)|
    ensures out == Flat(a)[dstStart..dstEnd]
  {
    hide Flat;
    out := [];
    var glbStart: nat := 0;
    FlatNone();
    assert a[..0] == [];
    for i := 0 to |a|
      invariant glbStart == |Flat(a[..i])|
      invariant out == Cut(Flat(a[..i]), dstStart, dstEnd)
    {
      FlatPrefix(a, i);
      CutAppend(Flat(a[..i]), a[i], dstStart, dstEnd);
      if |a[i]| != 0 {
        var glbEnd := glbStart + |a[i]|;
        if glbStart < dstEnd && glbEnd > dstStart {
          var locStart := (if dstStart > glbStart then dstStart else glbStart) - glbStart;
          var locEnd := (if dstEnd < glbEnd then dstEnd else glbEnd) - glbStart;
          out := out + a[i][locStart..locEnd];
        }
        glbStart := glbEnd;
      }
    }
    assert a[..|a|] == a;
  }

  lemma FlatNone()
    ensures Flat([]) == []
  {
  }

  function Min(x: int, y: int): int {
    if x < y then x else y
  }

  /** What a prefix has of a range. */
  function Cut(s: seq<Elem>, from: nat, to: nat): seq<Elem>
    requires from <= to
  {
    s[Min(from, |s|)..Min(to, |s|)]
  }

  lemma CutAppend(s: seq<Elem>, t: seq<Elem>, from: nat, to: nat)
    requires from <= to
    ensures var g := |s|;
            Cut(s + t, from, to) == Cut(s, from, to)
              + (if g < to && g + |t| > from
                 then t[(if from > g then from else g) - g..(if to < g + |t| then to else g + |t|) - g] else [])
  {
  }

  function Share(total: nat, n: nat): nat
    requires n > 0
  {
    (total + n - 1) / n
  }

  /** Where the slice of core `me` starts; that of the next core starts where it ends. */
  function SliceStart(total: nat, n: nat, me: nat): nat
    requires n > 0
  {
    Min(Share(total, n) * me, total)
  }

  lemma SliceBounds(total: nat, n: nat, me: nat)
    requires n > 0 && me < n
    ensures SliceStart(total, n, 0) == 0 && SliceStart(total, n, n) == total
    ensures SliceStart(total, n, me) <= SliceStart(total, n, me + 1) <= total
  {
    var w := Share(total, n);
    assert w * (me + 1) == w * me + w;
    var r := (total + n - 1) % n;
    assert w * n + r == total + n - 1;
    assert w * n >= total;
  }

  /** With enough elements the range that a core computes for itself is its slice, and no slice is empty. */
  lemma SliceIsFull(total: nat, n: nat, me: nat)
    requires n > 0 && me < n && total >= n * n * n
    ensures Share(total, n) * me < total
    ensures SliceStart(total, n, me) < SliceStart(total, n, me + 1)
  {
    var w := Share(total, n);
    var r := (total + n - 1) % n;
    assert w * n + r == total + n - 1;
    LargeShare(total, n);
    assert w * me <= w * (n - 1) by { Monotone(w, me, n - 1); }
    assert w * (n - 1) == w * n - w;
    assert w * (me + 1) == w * me + w;
  }

  lemma Monotone(w: nat, a: nat, b: nat)
    requires a <= b
    ensures w * a <= w * b
  {
  }

  lemma LargeShare(total: nat, n: nat)
    requires n > 0 && total >= n * n * n
    ensures Share(total, n) >= n
  {
    var w := Share(total, n);
    var r := (total + n - 1) % n;
    assert w * n + r == total + n - 1 && r <= n - 1;
    assert n * n * n >= n * n by { Monotone(n * n, 1, n); }
    AtLeast(w, n, n);
  }

  lemma AtLeast(w: nat, k: nat, n: nat)
    requires n > 0 && w * n >= k * n
    ensures w >= k
  {
  }

  function SliceOf(a: seq<seq<Elem>>, n: nat, me: nat): seq<Elem>
    requires n > 0 && me < n
  {
    SliceBounds(|Flat(a)|, n, me);
    Flat(a)[SliceStart(|Flat(a)|, n, me)..SliceStart(|Flat(a)|, n, me + 1)]
  }

  // ----- Partitions -----

  /** Boundaries of all lists: each row goes from zero to the length of its list without decreasing. */
  predicate Bounds(local: seq<seq<Elem>>, sub: seq<seq<nat>>, n: nat) {
    && |sub| == |local|
    && forall i :: 0 <= i < |local| ==> RowOk(local[i], sub[i], n)
  }

  predicate RowOk(s: seq<Elem>, row: seq<nat>, n: nat) {
    && |row| == n + 1 && row[0] == 0 && row[n] == |s|
    && forall j :: 0 <= j < n ==> row[j] <= row[j + 1]
  }

  lemma {:induction false} RowInside(s: seq<Elem>, row: seq<nat>, n: nat, j: nat)
    requires RowOk(s, row, n) && j <= n
    ensures row[j] <= |s|
    decreases n - j
  {
    if j < n {
      RowInside(s, row, n, j + 1);
    }
  }

  /** The piece of every list that belongs to partition `me`. */
  function Pieces(local: seq<seq<Elem>>, sub: seq<seq<nat>>, n: nat, me: nat): (p: seq<seq<Elem>>)
    requires Bounds(local, sub, n) && me < n
    ensures |p| == |local|
  {
    seq(|local|,
      i requires 0 <= i < |local| => RowInside(local[i], sub[i], n, me + 1); local[i][sub[i][me]..sub[i][me + 1]])
  }

  /** Everything below boundary `m`. */
  function Below(local: seq<seq<Elem>>, sub: seq<seq<nat>>, n: nat, m: nat): (p: seq<seq<Elem>>)
    requires Bounds(local, sub, n) && m <= n
    ensures |p| == |local|
  {
    seq(|local|, i requires 0 <= i < |local| => RowInside(local[i], sub[i], n, m); local[i][..sub[i][m]])
  }

  lemma {:induction false} BagSum(a: seq<seq<Elem>>, b: seq<seq<Elem>>, c: seq<seq<Elem>>)
    requires |a| == |b| == |c| && forall i :: 0 <= i < |a| ==> c[i] == a[i] + b[i]
    ensures Bag(c) == Bag(a) + Bag(b)
  {
    if a != [] {
      var n := |a| - 1;
      BagSum(a[..n], b[..n], c[..n]);
    }
  }

  lemma NextBoundary(local: seq<seq<Elem>>, sub: seq<seq<nat>>, n: nat, m: nat)
    requires Bounds(local, sub, n) && m < n
    ensures Bag(Below(local, sub, n, m + 1)) == Bag(Below(local, sub, n, m)) + Bag(Pieces(local, sub, n, m))
  {
    var a, b, c := Below(local, sub, n, m), Pieces(local, sub, n, m), Below(local, sub, n, m + 1);
    forall i | 0 <= i < |a| ensures c[i] == a[i] + b[i] {
      assert RowOk(local[i], sub[i], n);
      RowInside(local[i], sub[i], n, m + 1);
    }
    BagSum(a, b, c);
  }

  lemma {:induction false} EmptyLists(p: seq<seq<Elem>>)
    requires forall i :: 0 <= i < |p| ==> p[i] == []
    ensures Bag(p) == multiset{}
  {
    if p != [] {
      EmptyLists(p[..|p| - 1]);
    }
  }

  lemma BoundaryEnds(local: seq<seq<Elem>>, sub: seq<seq<nat>>, n: nat)
    requires Bounds(local, sub, n)
    ensures Bag(Below(local, sub, n, 0)) == multiset{} && Below(local, sub, n, n) == local
  {
    forall i | 0 <= i < |local| ensures Below(local, sub, n, 0)[i] == [] && Below(local, sub, n, n)[i] == local[i] {
      assert RowOk(local[i], sub[i], n);
    }
    EmptyLists(Below(local, sub, n, 0));
  }

  // ----- The whole sort -----

  /** Sorts one slice. */
  method LocalSort(s: seq<Elem>) returns (r: seq<Elem>)
    ensures Sorted(r) && multiset(r) == multiset(s)
  {
    var singles := seq(|s|, i requires 0 <= i < |s| => [s[i]]);
    Singles(s);
    r := MergeSortImpl(singles, |s|);
  }

  lemma {:induction false} Singles(s: seq<Elem>)
    ensures var singles := seq(|s|, i requires 0 <= i < |s| => [s[i]]);
            Size(singles) == |s| && Bag(singles) == multiset(s)
  {
    if s != [] {
      var n := |s| - 1;
      Singles(s[..n]);
      var singles := seq(|s|, i requires 0 <= i < |s| => [s[i]]);
      assert singles[..n] == seq(n, i requires 0 <= i < n => [s[..n][i]]);
      assert s == s[..n] + [s[n]];
    }
  }

  function KeysOf(s: seq<Elem>): (k: seq<int>)
    ensures |k| == |s|
  {
    seq(|s|, i requires 0 <= i < |s| => s[i].key)
  }

  /** One row of boundaries, for any pivots. */
  method DivideList(s: seq<Elem>, pivots: seq<int>, n: nat) returns (row: seq<nat>)
    requires n > 1 && |pivots| >= n && s != []
    ensures RowOk(s, row, n)
    ensures Sorted(s) && Ordered(pivots, 1, n - 1) ==> Divided(KeysOf(s), pivots, row, 0, |s|, 1, n - 1)
  {
    hide Divided;
    var subsize := new nat[n + 1](_ => 0);
    subsize[0] := 0;
    subsize[n] := |s|;
    Divide(KeysOf(s), 0, |s| - 1, subsize, pivots, 1, n - 1);
    row := subsize[..];
  }

  method SortSlices(a: seq<seq<Elem>>, n: nat) returns (local: seq<seq<Elem>>)
    requires n > 0
    ensures |local| == n && AllSorted(local) && Bag(local) == multiset(Flat(a))
    ensures forall i :: 0 <= i < n ==> multiset(local[i]) == multiset(SliceOf(a, n, i))
  {
    hide Flat, SliceStart;
    local := [];
    EmptyBag();
    var total := Total(a);
    SliceBounds(total, n, 0);
    for me := 0 to n
      invariant |local| == me && AllSorted(local) && SliceStart(total, n, me) <= total
      invariant Bag(local) == multiset(Flat(a)[..SliceStart(total, n, me)])
      invariant forall i :: 0 <= i < me ==> multiset(local[i]) == multiset(SliceOf(a, n, i))
    {
      SliceBounds(total, n, me);
      var from, to := SliceStart(total, n, me), SliceStart(total, n, me + 1);
      var slice := CopyElem(a, from, to);
      var sorted := LocalSort(slice);
      assert Flat(a)[..to] == Flat(a)[..from] + slice;
      assert (local + [sorted])[..me] == local;
      local := local + [sorted];
    }
    assert Flat(a)[..total] == Flat(a);
  }

  method Total(a: seq<seq<Elem>>) returns (n: nat)
    ensures n == |Flat(a)|
  {
    n := 0;
    for i := 0 to |a|
      invariant n == |Flat(a[..i])|
    {
      FlatPrefix(a, i);
      n := n + |a[i]|;
    }
    assert a[..|a|] == a;
  }

  /** Every partition is merged from its pieces and written behind the partitions before it. */
  method MergeParts(local: seq<seq<Elem>>, sub: seq<seq<nat>>, n: nat)
    returns (parts: seq<seq<Elem>>, output: seq<Elem>)
    requires |local| == n && Bounds(local, sub, n) && AllSorted(local)
    ensures |parts| == n && AllSorted(parts) && output == Flat(parts) && multiset(output) == Bag(local)
    ensures forall m :: 0 <= m < n ==> multiset(parts[m]) == Bag(Pieces(local, sub, n, m))
  {
    hide Flat, Below, Pieces;
    parts, output := [], [];
    FlatNone();
    BoundaryEnds(local, sub, n);
    for me := 0 to n
      invariant |parts| == me && AllSorted(parts) && output == Flat(parts)
      invariant multiset(output) == Bag(Below(local, sub, n, me))
      invariant forall m :: 0 <= m < me ==> multiset(parts[m]) == Bag(Pieces(local, sub, n, m))
    {
      NextBoundary(local, sub, n, me);
      PiecesSorted(local, sub, n, me);
      var pieces := Pieces(local, sub, n, me);
      var size := SizeOf(pieces);
      var merged := MergeSortImpl(pieces, size);
      FlatAppend(parts, merged);
      parts := parts + [merged];
      output := output + merged;
    }
  }

  lemma FlatAppend(parts: seq<seq<Elem>>, s: seq<Elem>)
    ensures Flat(parts + [s]) == Flat(parts) + s
  {
    assert (parts + [s])[..|parts|] == parts;
  }

  lemma PiecesSorted(local: seq<seq<Elem>>, sub: seq<seq<nat>>, n: nat, me: nat)
    requires Bounds(local, sub, n) && me < n && AllSorted(local)
    ensures AllSorted(Pieces(local, sub, n, me))
  {
    forall i | 0 <= i < |local| ensures Sorted(Pieces(local, sub, n, me)[i]) {
      assert RowOk(local[i], sub[i], n);
      RowInside(local[i], sub[i], n, me + 1);
      assert Sorted(local[i]);
    }
  }

  method SizeOf(lists: seq<seq<Elem>>) returns (n: nat)
    ensures n == Size(lists)
  {
    n := 0;
    for i := 0 to |lists|
      invariant n == Size(lists[..i])
    {
      assert lists[..i + 1][..i] == lists[..i];
      n := n + |lists[i]|;
    }
    assert lists[..|lists|] == lists;
  }
}
