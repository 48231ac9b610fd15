/** Inputs of two cores with four elements each: what the sort by regular sampling makes of them, and one that it
    leaves out of order. */
module PsrsUnsorted {
  import opened MergeSort
  import opened PsrsDivide
  import opened Psrs
  import opened PsrsSort

  // ----- Uniqueness of the sorted order -----

  predicate Distinct(s: seq<Elem>) {
    forall i, j :: 0 <= i < j < |s| ==> s[i].key < s[j].key
  }

  lemma LeastFirst(s: seq<Elem>, r: seq<Elem>)
    requires Distinct(s) && Sorted(r) && multiset(r) == multiset(s) && s != [] && r != []
    ensures r[0] == s[0]
  {
    assert s[0] in multiset(r) && r[0] in multiset(s);
    var j :| 0 <= j < |s| && s[j] == r[0];
    var k :| 0 <= k < |r| && r[k] == s[0];
  }

  lemma RestBag(s: seq<Elem>)
    requires s != []
    ensures multiset(s[1..]) == multiset(s) - multiset{s[0]}
  {
    assert s == [s[0]] + s[1..];
  }

  /** Without equal keys there is one sorted order. */
  lemma {:induction false} SortedSame(s: seq<Elem>, r: seq<Elem>)
    requires Distinct(s) && Sorted(r) && multiset(r) == multiset(s)
    ensures r == s
  {
    SameLength(r, s);
    if s != [] {
      LeastFirst(s, r);
      RestBag(s);
      RestBag(r);
      SortedSame(s[1..], r[1..]);
    }
  }

  // ----- The phases on two lists -----

  /** Two lists in order, where the second sends the greater pivot. */
  predicate TwoLists(low: seq<Elem>, high: seq<Elem>) {
    |low| == |high| == 4 && Distinct(low) && Distinct(high) && low[2].key < high[2].key
  }

  lemma FlatTwo(parts: seq<seq<Elem>>)
    requires |parts| == 2
    ensures Flat(parts) == parts[0] + parts[1]
  {
    hide Flat;
    FlatNone();
    FlatAppend([], parts[0]);
    FlatAppend([parts[0]], parts[1]);
    assert [] + [parts[0]] == [parts[0]] && [parts[0]] + [parts[1]] == parts;
  }

  lemma TwoSlices(low: seq<Elem>, high: seq<Elem>)
    requires |low| == |high| == 4
    ensures Flat([low, high]) == low + high && !Small(|Flat([low, high])|, 2)
    ensures SliceOf([low, high], 2, 0) == low && SliceOf([low, high], 2, 1) == high
  {
    hide Flat;
    FlatTwo([low, high]);
    assert Share(8, 2) == 4;
    assert (low + high)[0..4] == low && (low + high)[4..8] == high;
  }

  lemma TwoLocal(low: seq<Elem>, high: seq<Elem>, ph: Phases)
    requires TwoLists(low, high) && Sampled([low, high], 2, ph)
    ensures ph.local == [low, high]
  {
    hide SliceOf, Flat, AllDivided, Selected, Sent, Bounds, Bag, Pieces;
    TwoSlices(low, high);
    assert multiset(ph.local[0]) == multiset(SliceOf([low, high], 2, 0));
    assert multiset(ph.local[1]) == multiset(SliceOf([low, high], 2, 1));
    SortedSame(low, ph.local[0]);
    SortedSame(high, ph.local[1]);
  }

  lemma TwoSent(low: seq<Elem>, high: seq<Elem>)
    requires |low| == |high| == 4
    ensures NoneEmpty([low, high]) && Sent([low, high], 2) == [low[2], high[2]]
  {
    assert Interval(low, 2) == 2 && Interval(high, 2) == 2;
    assert LocalPivots(low, 2) == [low[2]] && LocalPivots(high, 2) == [high[2]];
    assert [low, high][..1] == [low] && [low][..0] == [];
    assert Sent([low], 2) == Sent([], 2) + [low[2]];
  }

  /** The pivot between the two partitions is the one that the second list sends. */
  lemma TwoPivot(low: seq<Elem>, high: seq<Elem>, ph: Phases)
    requires TwoLists(low, high) && Sampled([low, high], 2, ph)
    ensures |ph.pivots| == 2 && ph.pivots[1] == high[2]
  {
    hide SliceOf, Flat, AllDivided, Partitioned, Sent, Sorted;
    TwoLocal(low, high, ph);
    TwoSent(low, high);
    SortedSame([low[2], high[2]], ph.sorted);
    assert PivotAt(2, 1) == 1;
  }

  /** A list whose first two keys are below the pivot is cut after them, since the search leaves out the last
      two. */
  lemma CutInTwo(s: seq<Elem>, pivots: seq<int>, row: seq<nat>)
    requires |s| == 4 && |pivots| == 2 && RowOk(s, row, 2) && s[1].key < pivots[1]
    requires Divided(KeysOf(s), pivots, row, 0, 4, 1, 1)
    ensures row == [0, 2, 4]
  {
    assert Placed(KeysOf(s), pivots[1], row[1], 0, Cap(row, 0, 4, 1, 1, 1));
    assert Cap(row, 0, 4, 1, 1, 1) == 2;
    assert KeysOf(s)[1] == s[1].key;
  }

  lemma TwoBoundary(low: seq<Elem>, high: seq<Elem>, ph: Phases, i: nat)
    requires TwoLists(low, high) && Sampled([low, high], 2, ph) && i < 2
    ensures |ph.sub| == 2 && ph.sub[i] == [0, 2, 4]
  {
    hide SliceOf, Flat, Divided, Selected, Sent, Bag, Pieces, Sorted, Cap, Placed;
    TwoLocal(low, high, ph);
    TwoPivot(low, high, ph);
    assert RowOk(ph.local[i], ph.sub[i], 2);
    assert Divided(KeysOf(ph.local[i]), KeysOf(ph.pivots), ph.sub[i], 0, |ph.local[i]|, 1, 1);
    CutInTwo(ph.local[i], KeysOf(ph.pivots), ph.sub[i]);
  }

  lemma TwoPieces(low: seq<Elem>, high: seq<Elem>, ph: Phases)
    requires Partitioned(ph, 2) && |low| == |high| == 4 && ph.local == [low, high] && ph.sub == [[0, 2, 4], [0, 2, 4]]
    ensures forall x :: x in ph.parts[0] <==> x in low[..2] || x in high[..2]
    ensures forall x :: x in ph.parts[1] <==> x in low[2..] || x in high[2..]
  {
    var first, second := Pieces(ph.local, ph.sub, 2, 0), Pieces(ph.local, ph.sub, 2, 1);
    assert first[0] == low[..2] && first[1] == high[..2] && second[0] == low[2..] && second[1] == high[2..];
    forall x
      ensures x in ph.parts[0] <==> x in low[..2] || x in high[..2]
      ensures x in ph.parts[1] <==> x in low[2..] || x in high[2..]
    {
      InBag(first, x);
      InBag(second, x);
      assert x in ph.parts[0] <==> x in multiset(ph.parts[0]);
      assert x in ph.parts[1] <==> x in multiset(ph.parts[1]);
    }
  }

  /** Each core gets the first or the second half of both lists, whatever the keys are. */
  lemma TwoParts(low: seq<Elem>, high: seq<Elem>, ph: Phases)
    requires TwoLists(low, high) && Sampled([low, high], 2, ph)
    ensures |ph.parts| == 2
    ensures forall x :: x in ph.parts[0] <==> x in low[..2] || x in high[..2]
    ensures forall x :: x in ph.parts[1] <==> x in low[2..] || x in high[2..]
  {
    hide SliceOf, Flat, AllDivided, Selected, Sent, Bag, Pieces, Sorted, RowOk;
    TwoLocal(low, high, ph);
    TwoBoundary(low, high, ph, 0);
    TwoBoundary(low, high, ph, 1);
    assert ph.sub == [[0, 2, 4], [0, 2, 4]];
    TwoPieces(low, high, ph);
  }

  // ----- An input that comes out unsorted -----

  lemma GreaterFirst(p: seq<Elem>, q: seq<Elem>, x: Elem, y: Elem)
    requires x in p && y in q && x.key > y.key
    ensures !Sorted(p + q)
  {
    var i :| 0 <= i < |p| && p[i] == x;
    var j :| 0 <= j < |q| && q[j] == y;
    assert (p + q)[i] == x && (p + q)[|p| + j] == y;
  }

  /** On two lists of four the result is in order exactly if the second element of the second list is not above the
      third of the first. */
  lemma TwoSortedIff(low: seq<Elem>, high: seq<Elem>, ph: Phases)
    requires TwoLists(low, high) && Sampled([low, high], 2, ph)
    ensures Sorted(Flat(ph.parts)) <==> high[1].key <= low[2].key
  {
    hide Flat, Sorted, SliceOf, Selected, Sent;
    TwoParts(low, high, ph);
    FlatTwo(ph.parts);
    var p, q := ph.parts[0], ph.parts[1];
    assert high[..2][1] == high[1] && low[2..][0] == low[2];
    if high[1].key > low[2].key {
      GreaterFirst(p, q, high[1], low[2]);
    } else {
      forall x, y | x in p && y in q ensures x.key <= y.key {
        HalvesInOrder(low, high, x, y);
      }
      SortedConcat(p, q);
    }
  }

  lemma HalvesInOrder(low: seq<Elem>, high: seq<Elem>, x: Elem, y: Elem)
    requires TwoLists(low, high) && high[1].key <= low[2].key
    requires (x in low[..2] || x in high[..2]) && (y in low[2..] || y in high[2..])
    ensures x.key <= y.key
  {
    assert x.key <= low[1].key || x.key <= high[1].key;
    assert y.key >= low[2].key || y.key >= high[2].key;
  }

  function E(k: int): Elem {
    Elem(k, 0)
  }

  function Low(): seq<Elem> {
    [E(1), E(2), E(3), E(4)]
  }

  function High(): seq<Elem> {
    [E(5), E(6), E(7), E(8)]
  }

  /** Two cores sort one to eight, and the result is not in order. */
  method SortsEightWrongly() returns (output: seq<Elem>)
    ensures multiset(output) == multiset(Low() + High()) && !Sorted(output)
  {
    hide Flat, Sampled, SliceOf, AllReached, Small;
    TwoSlices(Low(), High());
    var ph;
    ph, output := DoPsrs([Low(), High()], 2);
    TwoSortedIff(Low(), High(), ph);
  }
}
