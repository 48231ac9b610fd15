/** Merging any number of lists by repeated selection of the least head. */
module MergeSort {
  import Partition

  /** An element is compared by its key only. */
  datatype Elem = Elem(key: int, tag: int)

  function Bag(lists: seq<seq<Elem>>): multiset<Elem> {
    if lists == [] then multiset{} else Bag(lists[..|lists| - 1]) + multiset(lists[|lists| - 1])
  }

  function Size(lists: seq<seq<Elem>>): nat {
    if lists == [] then 0 else Size(lists[..|lists| - 1]) + |lists[|lists| - 1]|
  }

  lemma {:induction false} BagSize(lists: seq<seq<Elem>>)
    ensures |Bag(lists)| == Size(lists)
  {
    if lists != [] {
      BagSize(lists[..|lists| - 1]);
      assert |multiset(lists[|lists| - 1])| == |lists[|lists| - 1]|;
    }
  }

  lemma {:induction false} BagConcat(a: seq<seq<Elem>>, b: seq<seq<Elem>>)
    ensures Bag(a + b) == Bag(a) + Bag(b)
  {
    if b == [] {
      assert a + b == a;
    } else {
      assert (a + b)[..|a + b| - 1] == a + b[..|b| - 1];
      BagConcat(a, b[..|b| - 1]);
    }
  }

  lemma BagOne(s: seq<Elem>)
    ensures Bag([s]) == multiset(s)
  {
    assert [s][..0] == [];
  }

  /** A list in the middle contributes its elements. */
  lemma BagAt(lists: seq<seq<Elem>>, i: nat)
    requires i < |lists|
    ensures Bag(lists) == Bag(lists[..i]) + multiset(lists[i]) + Bag(lists[i + 1..])
  {
    hide Bag;
    assert lists == lists[..i] + ([lists[i]] + lists[i + 1..]);
    BagConcat(lists[..i], [lists[i]] + lists[i + 1..]);
    BagConcat([lists[i]], lists[i + 1..]);
    BagOne(lists[i]);
  }

  lemma {:induction false} InBag(lists: seq<seq<Elem>>, x: Elem)
    ensures x in Bag(lists) <==> exists i :: 0 <= i < |lists| && x in lists[i]
  {
    if lists != [] {
      var n := |lists| - 1;
      InBag(lists[..n], x);
      if exists i :: 0 <= i < |lists| && x in lists[i] {
        var i :| 0 <= i < |lists| && x in lists[i];
        if i < n {
          assert lists[..n][i] == lists[i];
        }
      }
    }
  }

  predicate Sorted(s: seq<Elem>) {
    forall i, j :: 0 <= i < j < |s| ==> s[i].key <= s[j].key
  }

  predicate AllSorted(lists: seq<seq<Elem>>) {
    forall i :: 0 <= i < |lists| ==> Sorted(lists[i])
  }

  predicate NoneEmpty(lists: seq<seq<Elem>>) {
    forall i :: 0 <= i < |lists| ==> lists[i] != []
  }

  /** The rest of the lists after the head of list `i` was taken. */
  function Advance(ai: seq<seq<Elem>>, i: nat): seq<seq<Elem>>
    requires i < |ai| && ai[i] != []
  {
    if |ai[i]| == 1 then ai[..i] + ai[i + 1..] else ai[i := ai[i][1..]]
  }

  lemma AdvanceBag(ai: seq<seq<Elem>>, i: nat)
    requires i < |ai| && ai[i] != []
    ensures Bag(ai) == Bag(Advance(ai, i)) + multiset{ai[i][0]}
  {
    hide Bag;
    BagAt(ai, i);
    var head, rest := ai[i][0], ai[i][1..];
    assert ai[i] == [head] + rest;
    if rest == [] {
      BagConcat(ai[..i], ai[i + 1..]);
    } else {
      var ai' := ai[i := rest];
      BagAt(ai', i);
      assert ai'[..i] == ai[..i] && ai'[i + 1..] == ai[i + 1..];
    }
  }

  lemma AdvanceKeeps(ai: seq<seq<Elem>>, i: nat)
    requires i < |ai| && NoneEmpty(ai)
    ensures NoneEmpty(Advance(ai, i))
    ensures AllSorted(ai) ==> AllSorted(Advance(ai, i))
    ensures forall k :: 0 <= k < |Advance(ai, i)| ==> exists m :: 0 <= m < |ai| && Advance(ai, i)[k][0] in ai[m]
  {
    var ai' := Advance(ai, i);
    forall k | 0 <= k < |ai'|
      ensures ai'[k] != [] && (AllSorted(ai) ==> Sorted(ai'[k])) && exists m :: 0 <= m < |ai| && ai'[k][0] in ai[m]
    {
      var m := if |ai[i]| == 1 && k >= i then k + 1 else k;
      assert ai'[k] == ai[m] || ai'[k] == ai[m][1..];
      assert ai'[k][0] in ai[m];
    }
  }

  /** Nothing written so far is above anything left. */
  ghost predicate Above(out: seq<Elem>, ai: seq<seq<Elem>>) {
    forall i, k, n :: 0 <= i < |out| && 0 <= k < |ai| && 0 <= n < |ai[k]| ==> out[i].key <= ai[k][n].key
  }

  /** The list with the least head, the first one among equals. */
  method LeastHead(ai: seq<seq<Elem>>) returns (min: nat)
    requires ai != [] && NoneEmpty(ai)
    ensures min < |ai| && forall k :: 0 <= k < |ai| ==> ai[min][0].key <= ai[k][0].key
  {
    min := 0;
    for i := 1 to |ai|
      invariant min < |ai| && forall k :: 0 <= k < i ==> ai[min][0].key <= ai[k][0].key
    {
      if ai[min][0].key > ai[i][0].key {
        min := i;
      }
    }
  }

  lemma TakeLeast(out: seq<Elem>, ai: seq<seq<Elem>>, min: nat)
    requires NoneEmpty(ai) && AllSorted(ai) && Sorted(out) && Above(out, ai)
    requires min < |ai| && forall k :: 0 <= k < |ai| ==> ai[min][0].key <= ai[k][0].key
    ensures Sorted(out + [ai[min][0]]) && Above(out + [ai[min][0]], Advance(ai, min))
  {
    var ai': seq<seq<Elem>> := Advance(ai, min);
    var out' := out + [ai[min][0]];
    forall i, k, n | 0 <= i < |out'| && 0 <= k < |ai'| && 0 <= n < |ai'[k]| ensures out'[i].key <= ai'[k][n].key {
      var m := if |ai[min]| == 1 && k >= min then k + 1 else k;
      var d := if |ai[min]| > 1 && k == min then 1 else 0;
      assert ai'[k][n] == ai[m][n + d];
      assert ai[min][0].key <= ai[m][0].key <= ai[m][n + d].key;
    }
    assert forall i :: 0 <= i < |out| ==> out[i].key <= ai[min][0].key;
  }

  /** Merges lists into an output of exactly their total size. No list is left over at the end, the
      output is a permutation of the input, and it is sorted if every list is. */
  method MergeSortImpl(lists: seq<seq<Elem>>, size: nat) returns (out: seq<Elem>)
    requires size == Size(lists)
    ensures |out| == size && multiset(out) == Bag(lists)
    ensures AllSorted(lists) ==> Sorted(out)
  {
    hide Bag, Size, Above, Sorted;
    var ai := Started(lists);
    out := [];
    BagSize(lists);
    NothingAbove(ai);
    while |out| < size
      invariant |out| <= size && multiset(out) + Bag(ai) == Bag(lists)
      invariant NoneEmpty(ai)
      invariant AllSorted(lists) ==> AllSorted(ai) && Sorted(out) && Above(out, ai)
    {
      SomeLeft(ai);
      assert |multiset(out)| == |out|;
      var min := LeastHead(ai);
      AdvanceBag(ai, min);
      AdvanceKeeps(ai, min);
      if AllSorted(lists) {
        TakeLeast(out, ai, min);
      }
      out := out + [ai[min][0]];
      ai := Advance(ai, min);
    }
    assert |multiset(out)| == |out|;
    SomeLeft(ai);
    assert ai == [];
    EmptyBag();
  }

  lemma EmptyBag()
    ensures Bag([]) == multiset{} && Size([]) == 0
  {
  }

  lemma NothingAbove(ai: seq<seq<Elem>>)
    ensures Above([], ai) && Sorted([])
  {
  }

  lemma SomeLeft(ai: seq<seq<Elem>>)
    requires NoneEmpty(ai)
    ensures |Bag(ai)| == 0 <==> ai == []
  {
    if ai != [] {
      var n := |ai| - 1;
      assert ai[n][0] in multiset(ai[n]);
      assert ai[n][0] in Bag(ai);
    }
  }

  /** Iterators on the lists that have elements. */
  function Started(lists: seq<seq<Elem>>): (ai: seq<seq<Elem>>)
    ensures NoneEmpty(ai) && Bag(ai) == Bag(lists) && (AllSorted(lists) ==> AllSorted(ai))
  {
    if lists == [] then []
    else
      var n := |lists| - 1;
      var front := Started(lists[..n]);
      if lists[n] == [] then front
      else
        var ai := front + [lists[n]];
        assert ai[..|front|] == front;
        ai
  }

  // ----- The strided form -----

  /** The elements of the lists below `n` whose number leaves remainder `first`. */
  function TakenBelow(a: seq<seq<Elem>>, step: nat, first: nat, n: nat): multiset<Elem>
    requires step > 0
  {
    if n == 0 then multiset{}
    else TakenBelow(a, step, first, n - 1)
         + if n - 1 < |a| && (n - 1) % step == first then multiset(a[n - 1]) else multiset{}
  }

  lemma {:induction false} NoneTaken(a: seq<seq<Elem>>, step: nat, first: nat, n: nat, m: nat)
    requires step > 0 && n <= m && forall k :: n <= k < m ==> k >= |a| || k % step != first
    ensures TakenBelow(a, step, first, m) == TakenBelow(a, step, first, n)
    decreases m
  {
    if n < m {
      NoneTaken(a, step, first, n, m - 1);
    }
  }

  /** Between one list taken and the next there is none. */
  lemma NextTaken(a: seq<seq<Elem>>, step: nat, first: nat, i: nat, at: nat)
    requires first < step && at == first + i * step
    ensures TakenBelow(a, step, first, at + step)
            == TakenBelow(a, step, first, at) + if at < |a| then multiset(a[at]) else multiset{}
  {
    Partition.DivModOf(at, step, i, first);
    forall k | at + 1 <= k < at + step ensures k % step != first {
      OtherRemainder(step, first, i, k, k - at);
    }
    NoneTaken(a, step, first, at + 1, at + step);
  }

  lemma OtherRemainder(step: nat, first: nat, i: nat, k: nat, d: nat)
    requires first < step && 0 < d < step && k == first + i * step + d
    ensures k % step != first
  {
    if first + d < step {
      Partition.DivModOf(k, step, i, first + d);
    } else {
      assert (i + 1) * step == i * step + step;
      Partition.DivModOf(k, step, i + 1, first + d - step);
    }
  }

  lemma FirstTaken(a: seq<seq<Elem>>, step: nat, first: nat)
    requires first < step
    ensures TakenBelow(a, step, first, first) == multiset{}
  {
    forall k | 0 <= k < first ensures k % step != first {
      Partition.DivModOf(k, step, 0, k);
    }
    NoneTaken(a, step, first, 0, first);
  }

  /** The lists counted are inside, and the next one would be outside. */
  lemma StrideFits(n: nat, step: nat, first: nat, mine: nat)
    requires first < step && mine == Count(n, step, first)
    ensures forall i :: 0 <= i < mine ==> first + i * step < n
    ensures first + mine * step >= n
  {
    var q, r := n / step, n % step;
    assert n == q * step + r;
    forall i | 0 <= i < mine ensures first + i * step < n {
      Below(q, r, step, first, i);
    }
    assert (q + 1) * step == q * step + step;
  }

  lemma Below(q: nat, r: nat, step: nat, first: nat, i: nat)
    requires first < step && (i < q || (i == q && first < r))
    ensures first + i * step < q * step + r
  {
    if i < q {
      assert (i + 1) * step == i * step + step;
      Partition.ScaleAtMost(step, i + 1, q);
    }
  }

  /** The lists that a core takes, and their total size. */
  method Collect(a: seq<seq<Elem>>, step: nat, first: nat) returns (mine: seq<seq<Elem>>, np: nat)
    requires first < step
    ensures np == Size(mine) && Bag(mine) == TakenBelow(a, step, first, |a|) && (AllSorted(a) ==> AllSorted(mine))
  {
    hide Bag, Size, TakenBelow;
    var count := Count(|a|, step, first);
    StrideFits(|a|, step, first, count);
    mine, np := [], 0;
    EmptyBag();
    FirstTaken(a, step, first);
    var at := first;
    for i := 0 to count
      invariant np == Size(mine) && at == first + i * step && Bag(mine) == TakenBelow(a, step, first, at)
      invariant AllSorted(a) ==> AllSorted(mine)
    {
      NextTaken(a, step, first, i, at);
      OneMore(mine, a[at]);
      NextMultiple(i, step);
      mine, np := mine + [a[at]], np + |a[at]|;
      at := at + step;
    }
    NoneTaken(a, step, first, |a|, at);
  }

  function Count(n: nat, step: nat, first: nat): nat
    requires step > 0
  {
    n / step + if first < n % step then 1 else 0
  }

  lemma NextMultiple(i: nat, step: nat)
    ensures (i + 1) * step == i * step + step
  {
  }

  /** Merges the lists at `first`, `first + step`, and so on: exactly those whose number leaves remainder
      `first`, so the cores together take every list once. */
  method MergeSortStrided(a: seq<seq<Elem>>, step: nat, first: nat) returns (out: seq<Elem>)
    requires first < step
    ensures multiset(out) == TakenBelow(a, step, first, |a|)
    ensures AllSorted(a) ==> Sorted(out)
  {
    hide Bag, Size, Sorted, TakenBelow;
    var mine, np := Collect(a, step, first);
    if np == 0 {
      out := [];
      BagSize(mine);
      NothingAbove([]);
    } else {
      out := MergeSortImpl(mine, np);
    }
  }

  lemma OneMore(lists: seq<seq<Elem>>, list: seq<Elem>)
    ensures Bag(lists + [list]) == Bag(lists) + multiset(list) && Size(lists + [list]) == Size(lists) + |list|
  {
    assert (lists + [list])[..|lists|] == lists;
  }
}
