/** Reducing straight from the parallel sort: every core groups the share that the sort leaves it. */
module MergeReduce {
  import opened BSearch
  import opened Group
  import opened MapValues
  import opened MergeSort
  import opened Psrs
  import opened PsrsAligned
  import opened PsrsDivide
  import opened PsrsSort
  import opened PsrsUnsorted

  /** What each sorted element stands for: a key with its values. */
  type Pairing = Elem -> Kvs

  ghost predicate Carries(app: App, pair: Pairing) {
    forall e :: pair(e).key == e.key && Full(app, pair(e))
  }

  function PairsOf(s: seq<Elem>, pair: Pairing): (r: seq<Kvs>)
    ensures |r| == |s| && forall i :: 0 <= i < |s| ==> r[i] == pair(s[i])
  {
    seq(|s|, i requires 0 <= i < |s| => pair(s[i]))
  }

  // ----- Values of a key -----

  function ValsOf(e: Elem, pair: Pairing, k: int): multiset<int> {
    if pair(e).key == k then multiset(pair(e).vals) else multiset{}
  }

  lemma ValsAppend(s: seq<Elem>, t: seq<Elem>, pair: Pairing, k: int)
    ensures Vals(PairsOf(s + t, pair), k) == Vals(PairsOf(s, pair), k) + Vals(PairsOf(t, pair), k)
  {
    assert PairsOf(s + t, pair) == PairsOf(s, pair) + PairsOf(t, pair);
    ValsConcat(PairsOf(s, pair), PairsOf(t, pair), k);
  }

  lemma ValsOne(e: Elem, pair: Pairing, k: int)
    ensures Vals(PairsOf([e], pair), k) == ValsOf(e, pair, k)
  {
    assert PairsOf([e], pair) == [pair(e)] && [pair(e)][..0] == [];
  }

  lemma ValsWithout(s: seq<Elem>, i: nat, pair: Pairing, k: int)
    requires i < |s|
    ensures Vals(PairsOf(s, pair), k) == Vals(PairsOf(s[..i] + s[i + 1..], pair), k) + ValsOf(s[i], pair, k)
  {
    hide Vals, PairsOf, ValsOf;
    assert s == s[..i] + ([s[i]] + s[i + 1..]);
    ValsAppend(s[..i], [s[i]] + s[i + 1..], pair, k);
    ValsAppend([s[i]], s[i + 1..], pair, k);
    ValsAppend(s[..i], s[i + 1..], pair, k);
    ValsOne(s[i], pair, k);
  }

  /** Sorting moves the pairs and leaves every key its values. */
  lemma {:induction false} ValsPermuted(s: seq<Elem>, r: seq<Elem>, pair: Pairing, k: int)
    requires multiset(s) == multiset(r)
    ensures Vals(PairsOf(s, pair), k) == Vals(PairsOf(r, pair), k)
  {
    hide Vals, PairsOf, ValsOf;
    SameLength(s, r);
    if s != [] {
      var n := |s| - 1;
      assert s[n] in multiset(r);
      var i :| 0 <= i < |r| && r[i] == s[n];
      Removed(r, i);
      Removed(s, n);
      ValsPermuted(s[..n] + s[n + 1..], r[..i] + r[i + 1..], pair, k);
      ValsWithout(s, n, pair, k);
      ValsWithout(r, i, pair, k);
    } else {
      assert r == s;
    }
  }

  // ----- Shares -----

  ghost predicate Contains(s: seq<Elem>, k: int) {
    exists e :: e in s && e.key == k
  }

  /** No two shares hold the same key. */
  ghost predicate Disjoint(parts: seq<seq<Elem>>) {
    forall i, j, k :: 0 <= i < |parts| && 0 <= j < |parts| && Contains(parts[i], k) && Contains(parts[j], k) ==> i == j
  }

  /** No key is reduced by two cores. */
  ghost predicate OnceEach(outs: seq<seq<Kvs>>) {
    forall i, j, k :: 0 <= i < |outs| && 0 <= j < |outs| && HasKey(outs[i], k) && HasKey(outs[j], k) ==> i == j
  }

  lemma ContainsKey(app: App, s: seq<Elem>, pair: Pairing, k: int)
    requires Carries(app, pair)
    ensures HasKey(PairsOf(s, pair), k) <==> Contains(s, k)
  {
    if Contains(s, k) {
      var e :| e in s && e.key == k;
      var i :| 0 <= i < |s| && s[i] == e;
      assert PairsOf(s, pair)[i].key == k;
    }
    if HasKey(PairsOf(s, pair), k) {
      var i :| 0 <= i < |s| && PairsOf(s, pair)[i].key == k;
      assert s[i] in s;
    }
  }

  lemma {:induction false} AllValsOnce(outs: seq<seq<Kvs>>, i: nat, k: int)
    requires i < |outs| && forall j :: 0 <= j < |outs| && j != i ==> Vals(outs[j], k) == multiset{}
    ensures AllVals(outs, k) == Vals(outs[i], k)
  {
    var n := |outs| - 1;
    if i < n {
      AllValsOnce(outs[..n], i, k);
    } else {
      AllValsNone(outs[..n], k);
    }
  }

  lemma {:induction false} AllValsNone(outs: seq<seq<Kvs>>, k: int)
    requires forall j :: 0 <= j < |outs| ==> Vals(outs[j], k) == multiset{}
    ensures AllVals(outs, k) == multiset{}
  {
    if outs != [] {
      AllValsNone(outs[..|outs| - 1], k);
    }
  }

  /** A key that one core alone reduces gets all its values. */
  lemma OnceGetsAll(outs: seq<seq<Kvs>>, i: nat, k: int)
    requires OnceEach(outs) && i < |outs| && HasKey(outs[i], k)
    ensures Vals(outs[i], k) == AllVals(outs, k)
  {
    hide Vals, AllVals;
    forall j | 0 <= j < |outs| && j != i ensures Vals(outs[j], k) == multiset{} {
      assert !HasKey(outs[j], k);
      ValsNone(outs[j], k);
    }
    AllValsOnce(outs, i, k);
  }

  lemma PairsSorted(s: seq<Elem>, pair: Pairing, app: App)
    requires Sorted(s) && Carries(app, pair)
    ensures KeysSorted(PairsOf(s, pair)) && AllFull(app, PairsOf(s, pair))
  {
  }

  /** The shares together have the values of the input. */
  lemma {:induction false} SharesKeep(parts: seq<seq<Elem>>, outs: seq<seq<Kvs>>, pair: Pairing, k: int)
    requires |outs| == |parts| && forall i :: 0 <= i < |parts| ==> Vals(outs[i], k) == Vals(PairsOf(parts[i], pair), k)
    ensures AllVals(outs, k) == Vals(PairsOf(Flat(parts), pair), k)
  {
    if parts == [] {
      assert PairsOf(Flat(parts), pair) == [];
    } else {
      hide Vals, PairsOf;
      var n := |parts| - 1;
      SharesKeep(parts[..n], outs[..n], pair, k);
      ValsAppend(Flat(parts[..n]), parts[n], pair, k);
    }
  }

  /** Every core reduces its share. No value is lost; each key is reduced once, with all its values, exactly if no
      two shares hold the same key. */
  method PsrsOutputAndReduce(app: App, a: seq<seq<Elem>>, n: nat, pair: Pairing)
    returns (ph: Phases, outs: seq<seq<Kvs>>)
    requires n > 0 && Lawful(app) && Carries(app, pair)
    ensures |ph.parts| == |outs| == n
    ensures forall i :: 0 <= i < n ==> Increasing(Keys(outs[i])) && AllFull(app, outs[i])
    ensures forall i, k :: 0 <= i < n ==> (HasKey(outs[i], k) <==> Contains(ph.parts[i], k))
    ensures forall k :: AllVals(outs, k) == Vals(PairsOf(Flat(a), pair), k)
    ensures OnceEach(outs) <==> Disjoint(ph.parts)
    ensures OnceEach(outs) ==>
              forall i, k :: 0 <= i < n && HasKey(outs[i], k) ==> Vals(outs[i], k) == Vals(PairsOf(Flat(a), pair), k)
    ensures Small(|Flat(a)|, n) ==> Disjoint(ph.parts)
    ensures !Small(|Flat(a)|, n) ==> Sampled(a, n, ph)
  {
    hide Flat, Vals, AllVals, PairsOf, Lawful, Carries, Full, Contains, HasKey, Sampled, AllReached, Sorted, Small;
    var output;
    ph, output := DoPsrs(a, n);
    outs := [];
    for i := 0 to n
      invariant |outs| == i
      invariant forall j :: 0 <= j < i ==> Increasing(Keys(outs[j])) && AllFull(app, outs[j])
      invariant forall j, k :: 0 <= j < i ==> Vals(outs[j], k) == Vals(PairsOf(ph.parts[j], pair), k)
      invariant forall j, k :: 0 <= j < i ==> (HasKey(outs[j], k) <==> Contains(ph.parts[j], k))
    {
      PairsSorted(ph.parts[i], pair, app);
      var out := GroupOneSorted(app, PairsOf(ph.parts[i], pair));
      forall k ensures HasKey(out, k) <==> Contains(ph.parts[i], k) {
        ContainsKey(app, ph.parts[i], pair, k);
      }
      outs := outs + [out];
    }
    forall k ensures AllVals(outs, k) == Vals(PairsOf(Flat(a), pair), k) {
      SharesKeep(ph.parts, outs, pair, k);
      ValsPermuted(output, Flat(a), pair, k);
    }
    SameKeys(ph.parts, outs);
    if OnceEach(outs) {
      forall i, k | 0 <= i < n && HasKey(outs[i], k) ensures Vals(outs[i], k) == AllVals(outs, k) {
        OnceGetsAll(outs, i, k);
      }
    }
    if Small(|Flat(a)|, n) {
      OneShare(ph.parts);
    }
  }

  lemma SameKeys(parts: seq<seq<Elem>>, outs: seq<seq<Kvs>>)
    requires |parts| == |outs|
    requires forall i, k :: 0 <= i < |outs| ==> (HasKey(outs[i], k) <==> Contains(parts[i], k))
    ensures OnceEach(outs) <==> Disjoint(parts)
  {
    hide HasKey, Contains;
  }

  lemma OneShare(parts: seq<seq<Elem>>)
    requires forall i :: 1 <= i < |parts| ==> parts[i] == []
    ensures Disjoint(parts)
  {
    forall i, k | 0 <= i < |parts| && Contains(parts[i], k) ensures i == 0 {
      var e :| e in parts[i] && e.key == k;
    }
  }

  // ----- When shares are disjoint -----

  /** All boundaries are the upper bounds of their pivots. */
  ghost predicate AllUpper(ph: Phases, n: nat)
    requires Partitioned(ph, n)
  {
    forall i, m :: 0 <= i < n && 1 <= m < n ==> UpperAt(ph, n, i, m)
  }

  predicate UpperAt(ph: Phases, n: nat, i: nat, m: nat)
    requires Partitioned(ph, n) && i < n && m < n
  {
    IsUpperBound(KeysOf(ph.local[i]), ph.pivots[m].key, ph.sub[i][m])
  }

  lemma StrictlyBetween(ph: Phases, n: nat, m: nat, x: Elem)
    requires Partitioned(ph, n) && AllUpper(ph, n) && m < n && x in ph.parts[m]
    ensures m > 0 ==> ph.pivots[m].key < x.key
    ensures m + 1 < n ==> x.key <= ph.pivots[m + 1].key
  {
    hide Pieces, Bag;
    var i, at := FromPiece(ph, n, m, x);
    assert KeysOf(ph.local[i])[at] == x.key;
    assert m > 0 ==> UpperAt(ph, n, i, m);
    assert m + 1 < n ==> UpperAt(ph, n, i, m + 1);
  }

  lemma ApartFrom(ph: Phases, n: nat, i: nat, j: nat, k: int)
    requires Partitioned(ph, n) && AllUpper(ph, n) && i < j < n && Contains(ph.parts[i], k)
    ensures !Contains(ph.parts[j], k)
  {
    hide AllUpper;
    var x :| x in ph.parts[i] && x.key == k;
    StrictlyBetween(ph, n, i, x);
    assert KeysOf(ph.pivots)[i + 1] <= KeysOf(ph.pivots)[j];
    forall y | y in ph.parts[j] ensures y.key != k {
      StrictlyBetween(ph, n, j, y);
    }
  }

  /** Upper bounds at all boundaries keep every key in one share. */
  lemma UpperBoundsSeparate(ph: Phases, n: nat)
    requires Partitioned(ph, n) && AllUpper(ph, n)
    ensures Disjoint(ph.parts)
  {
    hide Partitioned, AllUpper, Contains;
    PartitionedShape(ph, n);
    forall i, j, k | 0 <= i < n && 0 <= j < n && Contains(ph.parts[i], k) && Contains(ph.parts[j], k) ensures i == j {
      if i < j {
        ApartFrom(ph, n, i, j, k);
      } else if j < i {
        ApartFrom(ph, n, j, i, k);
      }
    }
  }

  /** The search for boundary `m` of list `i` ran to the end of the list, or stopped at an element above the pivot. */
  ghost predicate Passed(ph: Phases, n: nat, i: nat, m: nat)
    requires Partitioned(ph, n) && i < n && 1 <= m < n
  {
    var s := ph.local[i];
    var cap := Cap(ph.sub[i], 0, |s|, 1, n - 1, m);
    cap < |s| ==> ph.pivots[m].key < s[cap].key
  }

  /** In lists without equal keys a boundary is the upper bound exactly if its search passed the pivot. */
  lemma UpperIff(ph: Phases, n: nat, i: nat, m: nat)
    requires Partitioned(ph, n) && AllDivided(ph, n) && i < n && 1 <= m < n && Increasing(KeysOf(ph.local[i]))
    ensures UpperAt(ph, n, i, m) <==> Passed(ph, n, i, m)
  {
    hide IsUpperBound, SplitsAt, Placed, Cap;
    var s, row := ph.local[i], ph.sub[i];
    var cap := Cap(row, 0, |s|, 1, n - 1, m);
    assert Divided(KeysOf(s), KeysOf(ph.pivots), row, 0, |s|, 1, n - 1);
    BoundaryExact(KeysOf(s), KeysOf(ph.pivots)[m], row[m], 0, cap);
    assert cap < |s| ==> KeysOf(s)[cap] == s[cap].key;
  }

  /** So slices without equal keys, in which every search passes its pivot, have each key reduced once. */
  lemma PassedSeparates(ph: Phases, n: nat)
    requires Partitioned(ph, n) && AllDivided(ph, n)
    requires forall i :: 0 <= i < n ==> Increasing(KeysOf(ph.local[i]))
    requires forall i, m :: 0 <= i < n && 1 <= m < n ==> Passed(ph, n, i, m)
    ensures Disjoint(ph.parts)
  {
    hide Partitioned, AllDivided, Passed, UpperAt, KeysOf, Disjoint;
    PartitionedSize(ph, n);
    forall i, m | 0 <= i < n && 1 <= m < n ensures UpperAt(ph, n, i, m) {
      UpperIff(ph, n, i, m);
    }
    UpperBoundsSeparate(ph, n);
  }

  lemma PartitionedSize(ph: Phases, n: nat)
    requires Partitioned(ph, n)
    ensures |ph.local| == n
  {
  }

  /** A condition on the sorted slices alone: strictly aligned slices without equal keys have each key reduced once. */
  lemma StrictlyAlignedOnce(a: seq<seq<Elem>>, n: nat, ph: Phases)
    requires n > 0 && Sampled(a, n, ph) && StrictlyAligned(ph.local, n)
    ensures Disjoint(ph.parts)
  {
    hide Partitioned, AllDivided, Selected, Sent, Sorted, SliceOf, Disjoint, Passed, Aligned, KeysOf, StrictlyMeets;
    forall i, m | 0 <= i < n && 1 <= m < n ensures Passed(ph, n, i, m) {
      StrictRow(ph, n, i, m);
    }
    PassedSeparates(ph, n);
  }

  lemma StrictRow(ph: Phases, n: nat, i: nat, m: nat)
    requires Partitioned(ph, n) && AllDivided(ph, n) && StrictlyAligned(ph.local, n) && NoneEmpty(ph.local)
    requires i < n && 1 <= m < n && Sorted(ph.sorted)
    requires multiset(ph.sorted) == multiset(Sent(ph.local, n)) && Selected(ph.sorted, n, ph.pivots)
    ensures Passed(ph, n, i, m)
  {
    hide Sent, Selected, AllDivided, Start, Blocks, Bounds, Pieces, Bag, StrictlyMeets;
    var s := ph.local[i];
    AlignedFacts(ph.local, n, i);
    BlockBounds(s, n, m);
    AlignedCap(ph, n, i, m);
    PivotStrict(ph.local, n, ph.sorted, ph.pivots, i, m);
  }

  // ----- A key that is reduced twice -----

  /** On two lists of four no key is reduced twice exactly if neither of the first two keys of the second list is one
      of the last two of the first. */
  lemma TwoOnceIff(low: seq<Elem>, high: seq<Elem>, ph: Phases)
    requires TwoLists(low, high) && Sampled([low, high], 2, ph)
    ensures Disjoint(ph.parts) <==> forall x, y :: x in high[..2] && y in low[2..] ==> x.key != y.key
  {
    hide Sampled;
    TwoParts(low, high, ph);
    var p, q := ph.parts[0], ph.parts[1];
    if x, y :| x in high[..2] && y in low[2..] && x.key == y.key {
      assert Contains(p, x.key) && Contains(q, x.key);
    } else {
      forall x, y | x in p && y in q ensures x.key != y.key {
        HalvesApart(low, high, x, y);
      }
      TwoApart(ph.parts);
    }
  }

  lemma HalvesApart(low: seq<Elem>, high: seq<Elem>, x: Elem, y: Elem)
    requires TwoLists(low, high) && (forall x, y :: x in high[..2] && y in low[2..] ==> x.key != y.key)
    requires (x in low[..2] || x in high[..2]) && (y in low[2..] || y in high[2..])
    ensures x.key != y.key
  {
    if x in low[..2] {
      assert x.key <= low[1].key && y.key >= low[2].key;
    } else if y in high[2..] {
      assert x.key <= high[1].key && y.key >= high[2].key;
    }
  }

  lemma TwoApart(parts: seq<seq<Elem>>)
    requires |parts| == 2 && forall x, y :: x in parts[0] && y in parts[1] ==> x.key != y.key
    ensures Disjoint(parts)
  {
    forall i, j, k | 0 <= i < 2 && 0 <= j < 2 && Contains(parts[i], k) && Contains(parts[j], k) ensures i == j {
      var x :| x in parts[i] && x.key == k;
      var y :| y in parts[j] && y.key == k;
    }
  }

  function First(): seq<Elem> {
    [E(1), E(2), E(3), E(4)]
  }

  function Second(): seq<Elem> {
    [E(3), E(5), E(6), E(7)]
  }

  /** Two cores get 1, 2, 3, 4 and 3, 5, 6, 7. Each of them reduces the key three, with some of its values. */
  method ReducesThreeTwice(app: App, pair: Pairing) returns (outs: seq<seq<Kvs>>)
    requires Lawful(app) && Carries(app, pair)
    ensures |outs| == 2 && HasKey(outs[0], 3) && HasKey(outs[1], 3) && !OnceEach(outs)
  {
    hide Flat, Vals, AllVals, PairsOf, Lawful, Carries, Full, HasKey, Sampled, Small;
    TwoSlices(First(), Second());
    var ph;
    ph, outs := PsrsOutputAndReduce(app, [First(), Second()], 2, pair);
    TwoParts(First(), Second(), ph);
    assert First()[2..][0] == E(3) && Second()[..2][0] == E(3);
    assert Contains(ph.parts[0], 3) && Contains(ph.parts[1], 3);
  }
}
