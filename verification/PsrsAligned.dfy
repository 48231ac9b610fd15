/** A condition on the sorted slices under which the sort by regular sampling does sort. */
module PsrsAligned {
  import opened BSearch
  import opened MergeSort
  import opened Partition
  import opened Psrs
  import opened PsrsDivide
  import opened PsrsSort
  import Sums

  // ----- Blocks -----

  /** Where block `j` of a list starts. The first element of block `j` is the `j`-th pivot that the list sends. */
  function Start(s: seq<Elem>, n: nat, j: nat): nat
    requires n > 0
  {
    if j == n then |s| else j * Interval(s, n)
  }

  /** All blocks have an element. */
  predicate Blocks(s: seq<Elem>, n: nat) {
    n > 1 && (n - 1) * Interval(s, n) < |s|
  }

  lemma BlockBounds(s: seq<Elem>, n: nat, j: nat)
    requires Blocks(s, n) && 1 <= j < n
    ensures 1 <= Start(s, n, j) < Start(s, n, j + 1) <= |s| && Start(s, n, j + 1) >= 2 && s != []
  {
    var w := Interval(s, n);
    DivPositive(|s|, n);
    assert j * w <= (n - 1) * w by { ScaleAtMost(w, j, n - 1); }
    assert (j + 1) * w == j * w + w;
    assert w <= j * w by { ScaleAtLeast(w, j); }
    if j + 1 < n {
      assert (j + 1) * w <= (n - 1) * w by { ScaleAtMost(w, j + 1, n - 1); }
    }
  }

  lemma DivPositive(x: nat, n: nat)
    requires n > 0 && x > 0
    ensures (x + n - 1) / n >= 1
  {
  }

  lemma StartsGrow(s: seq<Elem>, n: nat, i: nat, j: nat)
    requires Blocks(s, n) && 1 <= i <= j < n
    ensures Start(s, n, i) <= Start(s, n, j) < |s|
  {
    BlockBounds(s, n, j);
    ScaleAtMost(Interval(s, n), i, j);
  }

  /** The `j`-th pivot of `r` is above what comes before block `j` of `s` and not above the last element but one of
      that block. */
  predicate Meets(s: seq<Elem>, r: seq<Elem>, n: nat, j: nat)
    requires Blocks(s, n) && Blocks(r, n) && 1 <= j < n
  {
    BlockBounds(s, n, j);
    BlockBounds(r, n, j);
    s[Start(s, n, j) - 1].key < r[Start(r, n, j)].key <= s[Start(s, n, j + 1) - 2].key
  }

  /** The same of any pivot. */
  predicate MeetsAt(s: seq<Elem>, pivot: int, n: nat, m: nat)
    requires Blocks(s, n) && 1 <= m < n
  {
    BlockBounds(s, n, m);
    KeysOf(s)[Start(s, n, m) - 1] < pivot <= KeysOf(s)[Start(s, n, m + 1) - 2]
  }

  /** The blocks of all lists lie side by side. */
  predicate Aligned(local: seq<seq<Elem>>, n: nat) {
    && |local| == n > 1 && AllSorted(local) && (forall i :: 0 <= i < n ==> Blocks(local[i], n))
    && forall i, k, j :: 0 <= i < n && 0 <= k < n && 1 <= j < n ==> Meets(local[i], local[k], n, j)
  }

  // ----- Where the selected pivots lie -----

  function Below(t: int): Elem -> nat {
    (e: Elem) => if e.key < t then 1 else 0
  }

  lemma {:induction false} CountAll(s: seq<Elem>, t: int)
    requires forall i :: 0 <= i < |s| ==> s[i].key < t
    ensures Sums.Count(s, Below(t)) == |s|
  {
    if s != [] {
      CountAll(s[..|s| - 1], t);
    }
  }

  lemma {:induction false} CountSome(s: seq<Elem>, t: int)
    ensures Sums.Count(s, Below(t)) <= |s|
  {
    if s != [] {
      CountSome(s[..|s| - 1], t);
    }
  }

  lemma CountSplit(s: seq<Elem>, c: nat, t: int)
    requires c <= |s|
    ensures (forall i :: c <= i < |s| ==> s[i].key >= t) ==> Sums.Count(s, Below(t)) <= c
    ensures (forall i :: 0 <= i < c ==> s[i].key < t) ==> Sums.Count(s, Below(t)) >= c
  {
    assert s == s[..c] + s[c..];
    Sums.CountConcat(s[..c], s[c..], Below(t));
    CountSome(s[..c], t);
    if forall i :: c <= i < |s| ==> s[i].key >= t {
      Sums.CountZero(s[c..], Below(t));
    }
    if forall i :: 0 <= i < c ==> s[i].key < t {
      CountAll(s[..c], t);
    }
  }

  /** In a sorted list the elements below `t` come first. */
  lemma SortedCount(s: seq<Elem>, t: int, p: nat)
    requires Sorted(s) && p < |s|
    ensures p < Sums.Count(s, Below(t)) <==> s[p].key < t
  {
    if s[p].key < t {
      CountSplit(s, p + 1, t);
    } else {
      CountSplit(s, p, t);
    }
  }

  lemma {:induction false} CountPermuted(s: seq<Elem>, r: seq<Elem>, t: int)
    requires multiset(s) == multiset(r)
    ensures Sums.Count(s, Below(t)) == Sums.Count(r, Below(t))
  {
    SameLength(s, r);
    if s != [] {
      var k := |s| - 1;
      assert s[k] in multiset(r);
      var i :| 0 <= i < |r| && r[i] == s[k];
      Removed(r, i);
      Removed(s, k);
      assert s[..k] + s[k + 1..] == s[..k];
      CountPermuted(s[..k], r[..i] + r[i + 1..], t);
      Sums.CountRemove(r, i, Below(t));
    }
  }

  lemma OneMore(k: nat, c: nat)
    ensures (k + 1) * c == k * c + c
  {
  }

  lemma {:induction false} SentAtMost(local: seq<seq<Elem>>, n: nat, t: int, c: nat)
    requires n > 0 && NoneEmpty(local)
    requires forall k :: 0 <= k < |local| ==> Sums.Count(LocalPivots(local[k], n), Below(t)) <= c
    ensures Sums.Count(Sent(local, n), Below(t)) <= |local| * c
  {
    hide LocalPivots, Below;
    if local != [] {
      hide Sums.Count;
      var k := |local| - 1;
      SentAtMost(local[..k], n, t, c);
      Sums.CountConcat(Sent(local[..k], n), LocalPivots(local[k], n), Below(t));
      OneMore(k, c);
    }
  }

  lemma {:induction false} SentAtLeast(local: seq<seq<Elem>>, n: nat, t: int, c: nat)
    requires n > 0 && NoneEmpty(local)
    requires forall k :: 0 <= k < |local| ==> Sums.Count(LocalPivots(local[k], n), Below(t)) >= c
    ensures Sums.Count(Sent(local, n), Below(t)) >= |local| * c
  {
    hide LocalPivots, Below;
    if local != [] {
      hide Sums.Count;
      var k := |local| - 1;
      SentAtLeast(local[..k], n, t, c);
      Sums.CountConcat(Sent(local[..k], n), LocalPivots(local[k], n), Below(t));
      OneMore(k, c);
    }
  }

  lemma PivotOfBlock(s: seq<Elem>, n: nat, j: nat)
    requires Blocks(s, n) && 1 <= j < n
    ensures s != [] && Start(s, n, j) < |s| && LocalPivots(s, n)[j - 1] == s[Start(s, n, j)]
  {
    BlockBounds(s, n, j);
  }

  /** Every list sends fewer than `m` pivots that are not above what comes before block `m` of `s`... */
  lemma FewBelow(s: seq<Elem>, r: seq<Elem>, n: nat, m: nat)
    requires Blocks(s, n) && Blocks(r, n) && 1 <= m < n && Sorted(r) && Meets(s, r, n, m)
    ensures r != [] && 1 <= Start(s, n, m) <= |s|
    ensures Sums.Count(LocalPivots(r, n), Below(s[Start(s, n, m) - 1].key + 1)) <= m - 1
  {
    BlockBounds(s, n, m);
    BlockBounds(r, n, m);
    var t := s[Start(s, n, m) - 1].key + 1;
    var sent := LocalPivots(r, n);
    hide LocalPivots, Interval, Start;
    forall x | m - 1 <= x < |sent| ensures sent[x].key >= t {
      PivotOfBlock(r, n, x + 1);
      StartsGrow(r, n, m, x + 1);
    }
    CountSplit(sent, m - 1, t);
  }

  /** A list sends at least `m` pivots below whatever its pivot number `m` is below... */
  lemma BelowBound(r: seq<Elem>, n: nat, m: nat, u: int)
    requires Blocks(r, n) && 1 <= m < n && Sorted(r)
    requires Start(r, n, m) < |r| && r[Start(r, n, m)].key < u
    ensures r != [] && Sums.Count(LocalPivots(r, n), Below(u)) >= m
  {
    BlockBounds(r, n, m);
    var sent := LocalPivots(r, n);
    hide LocalPivots, Interval, Start;
    forall x | 0 <= x < m ensures sent[x].key < u {
      PivotOfBlock(r, n, x + 1);
      StartsGrow(r, n, x + 1, m);
    }
    CountSplit(sent, m, u);
  }

  /** ...so at least `m` that are not above the last element but one of block `m` of `s`. */
  lemma ManyBelow(s: seq<Elem>, r: seq<Elem>, n: nat, m: nat)
    requires Blocks(s, n) && Blocks(r, n) && 1 <= m < n && Sorted(r) && Meets(s, r, n, m)
    ensures r != [] && 2 <= Start(s, n, m + 1) <= |s|
    ensures Sums.Count(LocalPivots(r, n), Below(s[Start(s, n, m + 1) - 2].key + 1)) >= m
  {
    BlockBounds(s, n, m);
    BlockBounds(r, n, m);
    BelowBound(r, n, m, s[Start(s, n, m + 1) - 2].key + 1);
  }

  lemma AlignedFacts(local: seq<seq<Elem>>, n: nat, i: nat)
    requires Aligned(local, n) && i < n
    ensures Blocks(local[i], n) && Sorted(local[i]) && NoneEmpty(local)
  {
    forall k | 0 <= k < n ensures local[k] != [] {
      BlockBounds(local[k], n, 1);
    }
  }

  /** The selected pivot `m` meets every list as the pivots sent do. */
  lemma PivotMeets(local: seq<seq<Elem>>, n: nat, sorted: seq<Elem>, pivots: seq<Elem>, i: nat, m: nat)
    requires Aligned(local, n) && NoneEmpty(local) && i < n && 1 <= m < n && m < |pivots|
    requires Sorted(sorted) && multiset(sorted) == multiset(Sent(local, n)) && Selected(sorted, n, pivots)
    ensures Blocks(local[i], n) && MeetsAt(local[i], pivots[m].key, n, m)
  {
    hide LocalPivots, Interval, Start, Blocks, Sorted, Below, Selected, Sent;
    var s := local[i];
    AlignedFacts(local, n, i);
    BlockBounds(s, n, m);
    var t, u := s[Start(s, n, m) - 1].key + 1, s[Start(s, n, m + 1) - 2].key + 1;
    forall k | 0 <= k < n
      ensures Sums.Count(LocalPivots(local[k], n), Below(t)) <= m - 1
              && Sums.Count(LocalPivots(local[k], n), Below(u)) >= m
    {
      AlignedFacts(local, n, k);
      assert Meets(s, local[k], n, m);
      FewBelow(s, local[k], n, m);
      ManyBelow(s, local[k], n, m);
    }
    SelectedBetween(local, n, sorted, pivots, m, t, u);
  }

  lemma SelectedBetween(local: seq<seq<Elem>>, n: nat, sorted: seq<Elem>, pivots: seq<Elem>, m: nat, t: int, u: int)
    requires |local| == n && NoneEmpty(local) && 1 <= m < n && m < |pivots|
    requires Sorted(sorted) && multiset(sorted) == multiset(Sent(local, n)) && Selected(sorted, n, pivots)
    requires forall k :: 0 <= k < n ==> Sums.Count(LocalPivots(local[k], n), Below(t)) <= m - 1
    requires forall k :: 0 <= k < n ==> Sums.Count(LocalPivots(local[k], n), Below(u)) >= m
    ensures t <= pivots[m].key < u
  {
    hide LocalPivots, Sent, Sorted;
    SentAtMost(local, n, t, m - 1);
    SentAtLeast(local, n, u, m);
    CountPermuted(sorted, Sent(local, n), t);
    CountPermuted(sorted, Sent(local, n), u);
    var p := PivotAt(n, m);
    assert n * (m - 1) <= p < n * m;
    assert pivots[m] == sorted[p];
    SortedCount(sorted, t, p);
    SortedCount(sorted, u, p);
  }

  // ----- Every search goes far enough -----

  ghost predicate PivotsMeet(s: seq<Elem>, pivots: seq<int>, n: nat)
    requires Blocks(s, n) && |pivots| >= n
  {
    forall m :: 1 <= m < n ==> MeetsAt(s, pivots[m], n, m)
  }

  /** What `Divided` says of each boundary, without the left end of its call. */
  ghost predicate Searched(keys: seq<int>, pivots: seq<int>, row: seq<nat>, left: nat, right: nat, fp: nat, lp: nat)
    requires lp < |row| && lp < |pivots|
  {
    forall i :: fp <= i <= lp ==> Placed(keys, pivots[i], row[i], 0, Cap(row, left, right, fp, lp, i))
  }

  lemma SearchedParts(keys: seq<int>, pivots: seq<int>, row: seq<nat>, left: nat, right: nat, fp: nat, lp: nat)
    requires fp <= lp < |row| && lp < |pivots| && Searched(keys, pivots, row, left, right, fp, lp)
    ensures var mid := (fp + lp) / 2;
            && Placed(keys, pivots[mid], row[mid], 0, if left + 2 <= right then right - 2 else left)
            && (fp < mid ==> Searched(keys, pivots, row, left, row[mid], fp, mid - 1))
            && (mid < lp ==> Searched(keys, pivots, row, row[mid], right, mid + 1, lp))
  {
    hide Placed;
    var mid := (fp + lp) / 2;
    assert Cap(row, left, right, fp, lp, mid) == if left + 2 <= right then right - 2 else left;
    forall i | fp <= i < mid ensures Placed(keys, pivots[i], row[i], 0, Cap(row, left, row[mid], fp, mid - 1, i)) {
      assert Cap(row, left, right, fp, lp, i) == Cap(row, left, row[mid], fp, mid - 1, i);
    }
    forall i | mid < i <= lp ensures Placed(keys, pivots[i], row[i], 0, Cap(row, row[mid], right, mid + 1, lp, i)) {
      assert Cap(row, left, right, fp, lp, i) == Cap(row, row[mid], right, mid + 1, lp, i);
    }
  }

  /** The search for one boundary. */
  lemma OneReaches(s: seq<Elem>, pivot: int, n: nat, b: nat, left: nat, right: nat, m: nat)
    requires Blocks(s, n) && Sorted(s) && 1 <= m < n && MeetsAt(s, pivot, n, m) && Start(s, n, m + 1) <= right
    requires Placed(KeysOf(s), pivot, b, 0, if left + 2 <= right then right - 2 else left)
    ensures Start(s, n, m) <= b
  {
    hide Blocks, Start, Interval;
    BlockBounds(s, n, m);
    var cap := if left + 2 <= right then right - 2 else left;
    var at := Start(s, n, m + 1) - 2;
    if cap < |s| {
      assert s[at].key <= s[cap].key;
    }
    BoundaryExact(KeysOf(s), pivot, b, 0, cap);
  }

  /** A call whose right end is not before the block behind its last pivot searches for each boundary up to the last
      element but one of the block of its pivot. */
  lemma {:induction false} SearchesReach(s: seq<Elem>, pivots: seq<int>, n: nat, row: seq<nat>, left: nat, right: nat,
      fp: nat, lp: nat, i: nat)
    requires Blocks(s, n) && Sorted(s) && n <= |row| && n <= |pivots| && PivotsMeet(s, pivots, n)
    requires 1 <= fp <= i <= lp < n && Start(s, n, lp + 1) <= right
    requires Searched(KeysOf(s), pivots, row, left, right, fp, lp)
    ensures Start(s, n, i + 1) <= Cap(row, left, right, fp, lp, i) + 2
    decreases lp - fp
  {
    hide Start, Blocks, Placed, Searched, MeetsAt, Sorted, KeysOf;
    var mid := (fp + lp) / 2;
    SearchedParts(KeysOf(s), pivots, row, left, right, fp, lp);
    StartsOrdered(s, n, mid + 1, lp + 1);
    OneReaches(s, pivots[mid], n, row[mid], left, right, mid);
    if i < mid {
      SearchesReach(s, pivots, n, row, left, row[mid], fp, mid - 1, i);
    } else if mid < i {
      SearchesReach(s, pivots, n, row, row[mid], right, mid + 1, lp, i);
    }
  }

  lemma StartsOrdered(s: seq<Elem>, n: nat, i: nat, j: nat)
    requires Blocks(s, n) && 1 <= i <= j <= n
    ensures Start(s, n, i) <= Start(s, n, j)
  {
    if j < n {
      StartsGrow(s, n, i, j);
    } else if i < n {
      BlockBounds(s, n, i);
      StartsGrow(s, n, i, i);
    }
  }

  // ----- The result -----

  lemma DividedIsSearched(keys: seq<int>, pivots: seq<int>, row: seq<nat>, left: nat, right: nat, fp: nat, lp: nat)
    requires lp < |row| && lp < |pivots| && Divided(keys, pivots, row, left, right, fp, lp)
    ensures Searched(keys, pivots, row, left, right, fp, lp)
  {
    hide Cap;
  }

  /** Every search of every list goes up to the last element but one of the block of its pivot. */
  lemma AlignedCap(ph: Phases, n: nat, i: nat, m: nat)
    requires Partitioned(ph, n) && AllDivided(ph, n) && Aligned(ph.local, n) && NoneEmpty(ph.local)
    requires i < n && 1 <= m < n && Sorted(ph.sorted)
    requires multiset(ph.sorted) == multiset(Sent(ph.local, n)) && Selected(ph.sorted, n, ph.pivots)
    ensures |ph.sub| == n && |ph.sub[i]| == n + 1 && Blocks(ph.local[i], n)
    ensures MeetsAt(ph.local[i], ph.pivots[m].key, n, m)
    ensures Start(ph.local[i], n, m + 1) <= Cap(ph.sub[i], 0, |ph.local[i]|, 1, n - 1, m) + 2
  {
    hide Sent, Selected, Divided, Start, Blocks, Bounds, Pieces, Bag, MeetsAt;
    RowLength(ph, n, i);
    var s, row, keys := ph.local[i], ph.sub[i], KeysOf(ph.pivots);
    AlignedFacts(ph.local, n, i);
    forall k | 1 <= k < n ensures MeetsAt(s, keys[k], n, k) {
      PivotMeets(ph.local, n, ph.sorted, ph.pivots, i, k);
    }
    assert keys[m] == ph.pivots[m].key;
    assert Divided(KeysOf(s), keys, row, 0, |s|, 1, n - 1);
    DividedIsSearched(KeysOf(s), keys, row, 0, |s|, 1, n - 1);
    assert Start(s, n, n) == |s| by { StartEnd(s, n); }
    SearchesReach(s, keys, n, row, 0, |s|, 1, n - 1, m);
  }

  lemma AlignedRow(ph: Phases, n: nat, i: nat, m: nat)
    requires Partitioned(ph, n) && AllDivided(ph, n) && Aligned(ph.local, n) && NoneEmpty(ph.local)
    requires i < n && 1 <= m < n && Sorted(ph.sorted)
    requires multiset(ph.sorted) == multiset(Sent(ph.local, n)) && Selected(ph.sorted, n, ph.pivots)
    ensures Reached(ph, n, i, m)
  {
    hide Sent, Selected, AllDivided, Start, Blocks, Bounds, Pieces, Bag, MeetsAt;
    AlignedFacts(ph.local, n, i);
    AlignedCap(ph, n, i, m);
    FarEnough(ph.local[i], ph.pivots[m].key, n, m, Cap(ph.sub[i], 0, |ph.local[i]|, 1, n - 1, m));
  }

  lemma FarEnough(s: seq<Elem>, pivot: int, n: nat, m: nat, cap: nat)
    requires Blocks(s, n) && Sorted(s) && 1 <= m < n && MeetsAt(s, pivot, n, m) && Start(s, n, m + 1) <= cap + 2
    ensures cap < |s| ==> pivot <= s[cap].key
  {
    hide Blocks, Start;
    BlockBounds(s, n, m);
  }

  lemma StartEnd(s: seq<Elem>, n: nat)
    requires n > 0
    ensures Start(s, n, n) == |s|
  {
  }

  lemma RowLength(ph: Phases, n: nat, i: nat)
    requires Partitioned(ph, n) && i < n
    ensures |ph.sub| == n && |ph.sub[i]| == n + 1
  {
    assert RowOk(ph.local[i], ph.sub[i], n);
  }

  /** If the sorted slices are aligned, every search goes far enough and the whole result is in order. */
  lemma AlignedSorts(a: seq<seq<Elem>>, n: nat, ph: Phases)
    requires n > 0 && Sampled(a, n, ph) && Aligned(ph.local, n)
    ensures AllReached(ph, n) && Sorted(Flat(ph.parts))
  {
    hide Partitioned, AllDivided, Aligned, Reached, Selected, Sent, Sorted, SliceOf, Flat, AllRight;
    forall i, m | 0 <= i < n && 1 <= m < n ensures Reached(ph, n, i, m) {
      AlignedRow(ph, n, i, m);
    }
    ReachedIsRight(ph, n);
    PartitionedShape(ph, n);
    PartsInOrder(ph, n, n);
    assert ph.parts[..n] == ph.parts;
  }

  // ----- Strict alignment -----

  /** Every pivot that a list sends is below the last element but one of its block in every list, and no slice has
      a key twice. */
  predicate StrictlyAligned(local: seq<seq<Elem>>, n: nat) {
    && Aligned(local, n) && (forall i :: 0 <= i < n ==> Increasing(KeysOf(local[i])))
    && forall i, k, j :: 0 <= i < n && 0 <= k < n && 1 <= j < n ==> StrictlyMeets(local[i], local[k], n, j)
  }

  predicate StrictlyMeets(s: seq<Elem>, r: seq<Elem>, n: nat, j: nat)
    requires Blocks(s, n) && Blocks(r, n) && 1 <= j < n
  {
    BlockBounds(s, n, j);
    BlockBounds(r, n, j);
    r[Start(r, n, j)].key < s[Start(s, n, j + 1) - 2].key
  }

  lemma PivotStrict(local: seq<seq<Elem>>, n: nat, sorted: seq<Elem>, pivots: seq<Elem>, i: nat, m: nat)
    requires StrictlyAligned(local, n) && NoneEmpty(local) && i < n && 1 <= m < n && m < |pivots|
    requires Sorted(sorted) && multiset(sorted) == multiset(Sent(local, n)) && Selected(sorted, n, pivots)
    ensures Blocks(local[i], n) && 2 <= Start(local[i], n, m + 1) <= |local[i]|
    ensures pivots[m].key < local[i][Start(local[i], n, m + 1) - 2].key
  {
    hide LocalPivots, Interval, Start, Blocks, Sorted, Below, Selected, Sent, KeysOf;
    var s := local[i];
    AlignedFacts(local, n, i);
    BlockBounds(s, n, m);
    var t, u := s[Start(s, n, m) - 1].key + 1, s[Start(s, n, m + 1) - 2].key;
    forall k | 0 <= k < n
      ensures Sums.Count(LocalPivots(local[k], n), Below(t)) <= m - 1
              && Sums.Count(LocalPivots(local[k], n), Below(u)) >= m
    {
      AlignedFacts(local, n, k);
      assert Meets(s, local[k], n, m) && StrictlyMeets(s, local[k], n, m);
      FewBelow(s, local[k], n, m);
      BlockBounds(local[k], n, m);
      BelowBound(local[k], n, m, u);
    }
    SelectedBetween(local, n, sorted, pivots, m, t, u);
  }

  // ----- Well mixed input -----

  /** The slices of keys that are dealt out in turn. */
  predicate Dealt(local: seq<seq<Elem>>, n: nat) {
    |local| == n && forall i, k :: 0 <= i < n && 0 <= k < |local[i]| ==> local[i][k].key == k * n + i
  }

  lemma DealtStart(s: seq<Elem>, n: nat, w: nat, j: nat)
    requires n > 1 && w > 0 && |s| == n * w && j <= n
    ensures Interval(s, n) == w && Start(s, n, j) == j * w && Blocks(s, n)
  {
    DivModOf(n * w + n - 1, n, w, n - 1);
    assert (n - 1) * w == n * w - w;
  }

  lemma DealtMeets(s: seq<Elem>, r: seq<Elem>, n: nat, w: nat, i: nat, k: nat, j: nat)
    requires n > 1 && w > 2 && |s| == |r| == n * w && i < n && k < n && 1 <= j < n && Blocks(s, n) && Blocks(r, n)
    requires forall x :: 0 <= x < |s| ==> s[x].key == x * n + i
    requires forall x :: 0 <= x < |r| ==> r[x].key == x * n + k
    ensures Meets(s, r, n, j) && StrictlyMeets(s, r, n, j)
  {
    DealtStart(s, n, w, j);
    DealtStart(s, n, w, j + 1);
    DealtStart(r, n, w, j);
    BlockBounds(s, n, j);
    BlockBounds(r, n, j);
    hide Blocks, Start, Interval;
    var x := j * w;
    assert (j + 1) * w == x + w;
    assert (x - 1) * n == x * n - n;
    assert (x + w - 2) * n == x * n + (w - 2) * n;
    assert (w - 2) * n >= n by { ScaleAtMost(n, 1, w - 2); }
  }

  lemma DealtIncreasing(s: seq<Elem>, n: nat, i: nat)
    requires n > 0 && forall x :: 0 <= x < |s| ==> s[x].key == x * n + i
    ensures Increasing(KeysOf(s))
  {
    forall x, y | 0 <= x < y < |s| ensures KeysOf(s)[x] < KeysOf(s)[y] {
      ScaleAtMost(n, x + 1, y);
      assert (x + 1) * n == x * n + n;
    }
  }

  /** Keys that are dealt out in turn are strictly aligned, with three or more in each block. */
  lemma DealtIsAligned(local: seq<seq<Elem>>, n: nat, w: nat)
    requires n > 1 && w > 2 && Dealt(local, n) && AllSorted(local) && forall i :: 0 <= i < n ==> |local[i]| == n * w
    ensures StrictlyAligned(local, n)
  {
    hide Blocks, Meets, StrictlyMeets;
    forall i | 0 <= i < n ensures Increasing(KeysOf(local[i])) {
      DealtIncreasing(local[i], n, i);
    }
    forall i | 0 <= i < n ensures Blocks(local[i], n) {
      DealtStart(local[i], n, w, 0);
    }
    forall i, k, j | 0 <= i < n && 0 <= k < n && 1 <= j < n
      ensures Meets(local[i], local[k], n, j) && StrictlyMeets(local[i], local[k], n, j)
    {
      DealtMeets(local[i], local[k], n, w, i, k, j);
    }
  }
}
