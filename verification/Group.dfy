/** Grouping pairs by key: what comes out has every key once, in increasing order, with all its values. */
module Group {
  import opened BSearch
  import opened MapValues

  function Keys(s: seq<Kvs>): (ks: seq<int>)
    ensures |ks| == |s| && forall i :: 0 <= i < |s| ==> ks[i] == s[i].key
  {
    seq(|s|, i requires 0 <= i < |s| => s[i].key)
  }

  // ----- Values of a key -----

  /** All values of key `k`, as often as they occur. */
  function Vals(s: seq<Kvs>, k: int): multiset<int> {
    if s == [] then multiset{}
    else Vals(s[..|s| - 1], k) + (if s[|s| - 1].key == k then multiset(s[|s| - 1].vals) else multiset{})
  }

  function AllVals(lists: seq<seq<Kvs>>, k: int): multiset<int> {
    if lists == [] then multiset{} else AllVals(lists[..|lists| - 1], k) + Vals(lists[|lists| - 1], k)
  }

  lemma {:induction false} ValsConcat(a: seq<Kvs>, b: seq<Kvs>, k: int)
    ensures Vals(a + b, k) == Vals(a, k) + Vals(b, k)
  {
    if b == [] {
      assert a + b == a;
    } else {
      assert (a + b)[..|a + b| - 1] == a + b[..|b| - 1];
      ValsConcat(a, b[..|b| - 1], k);
    }
  }

  lemma ValsFirst(s: seq<Kvs>, k: int)
    requires s != []
    ensures Vals(s, k) == (if s[0].key == k then multiset(s[0].vals) else multiset{}) + Vals(s[1..], k)
  {
    assert s == [s[0]] + s[1..];
    ValsConcat([s[0]], s[1..], k);
    assert [s[0]][..0] == [];
  }

  lemma {:induction false} ValsNone(s: seq<Kvs>, k: int)
    requires forall i :: 0 <= i < |s| ==> s[i].key != k
    ensures Vals(s, k) == multiset{}
  {
    if s != [] {
      ValsNone(s[..|s| - 1], k);
    }
  }

  lemma {:induction false} AllValsUpdate(lists: seq<seq<Kvs>>, i: nat, s: seq<Kvs>, k: int, more: multiset<int>)
    requires i < |lists| && Vals(lists[i], k) == more + Vals(s, k)
    ensures AllVals(lists, k) == more + AllVals(lists[i := s], k)
  {
    var n := |lists| - 1;
    if i == n {
      assert lists[i := s][..n] == lists[..n];
    } else {
      assert lists[i := s][..n] == lists[..n][i := s];
      AllValsUpdate(lists[..n], i, s, k, more);
    }
  }

  lemma {:induction false} AllValsEmpty(lists: seq<seq<Kvs>>, k: int)
    requires forall i :: 0 <= i < |lists| ==> lists[i] == []
    ensures AllVals(lists, k) == multiset{}
  {
    if lists != [] {
      AllValsEmpty(lists[..|lists| - 1], k);
    }
  }

  lemma {:induction false} AllValsSame(a: seq<seq<Kvs>>, b: seq<seq<Kvs>>, k: int)
    requires |a| == |b| && forall i :: 0 <= i < |a| ==> Vals(a[i], k) == Vals(b[i], k)
    ensures AllVals(a, k) == AllVals(b, k)
  {
    if a != [] {
      var n := |a| - 1;
      AllValsSame(a[..n], b[..n], k);
    }
  }

  predicate KeysSorted(s: seq<Kvs>) {
    forall i, j :: 0 <= i < j < |s| ==> s[i].key <= s[j].key
  }

  ghost predicate HasKey(s: seq<Kvs>, k: int) {
    exists i :: 0 <= i < |s| && s[i].key == k
  }

  // ----- One sorted list -----

  /** Runs of equal keys become one pair each. */
  method GroupOneSorted(app: App, a: seq<Kvs>) returns (out: seq<Kvs>)
    requires KeysSorted(a) && Lawful(app) && AllFull(app, a)
    ensures Increasing(Keys(out))
            && (forall k :: Vals(out, k) == Vals(a, k)) && forall k :: HasKey(out, k) <==> HasKey(a, k)
    ensures AllFull(app, out)
  {
    hide Vals, Lawful, Full;
    out := [];
    var i := 0;
    assert a[..0] == [];
    while i < |a|
      invariant 0 <= i <= |a| && Increasing(Keys(out)) && AllFull(app, out)
      invariant forall k :: Vals(out, k) == Vals(a[..i], k)
      invariant forall k :: HasKey(out, k) <==> HasKey(a[..i], k)
      invariant forall j, n :: 0 <= j < |out| && i <= n < |a| ==> out[j].key < a[n].key
    {
      var start := i;
      var dst := FirstOf(app, a[i]);
      assert a[start..i + 1] == [a[i]];
      i := i + 1;
      while i < |a| && a[i].key == dst.key
        invariant start < i <= |a| && dst.key == a[start].key && Full(app, dst)
        invariant forall n :: start <= n < i ==> a[n].key == dst.key
        invariant forall k :: Vals([dst], k) == Vals(a[start..i], k)
      {
        FullHolds(app, dst);
        MovedFull(app, dst, a[i]);
        var more := Moved(app, dst, a[i]);
        MoveVals(app, dst, a[i]);
        forall k ensures Vals([more], k) == Vals(a[start..i + 1], k) {
          assert a[start..i + 1] == a[start..i] + [a[i]];
          ValsConcat(a[start..i], [a[i]], k);
        }
        dst := more;
        i := i + 1;
      }
      CloseRun(a, out, start, i, dst);
      out := out + [dst];
    }
    assert a[..|a|] == a;
  }

  /** A fresh array takes over the first values. */
  method FirstOf(app: App, e: Kvs) returns (dst: Kvs)
    requires Lawful(app) && Full(app, e)
    ensures dst.key == e.key && Full(app, dst) && forall k :: Vals([dst], k) == Vals([e], k)
  {
    hide Vals, Lawful;
    var none := Kvs(e.key, [], []);
    MovedFull(app, none, e);
    dst := Moved(app, none, e);
    MoveVals(app, none, e);
    OneVals(none);
  }

  lemma FullHolds(app: App, e: Kvs)
    requires Full(app, e)
    ensures Holds(app, e.arr, e.vals) && e.arr != []
  {
  }

  lemma OneVals(e: Kvs)
    ensures forall k :: Vals([e], k) == if e.key == k then multiset(e.vals) else multiset{}
  {
    assert [e][..0] == [];
  }

  lemma MoveVals(app: App, dst: Kvs, src: Kvs)
    requires dst.key == src.key && src.arr != []
    ensures forall k :: Vals([Moved(app, dst, src)], k) == Vals([dst], k) + Vals([src], k)
  {
    OneVals(dst);
    OneVals(src);
    OneVals(Moved(app, dst, src));
  }

  lemma CloseRun(a: seq<Kvs>, out: seq<Kvs>, start: nat, i: nat, dst: Kvs)
    requires KeysSorted(a) && start < i <= |a| && Increasing(Keys(out))
    requires forall n :: start <= n < i ==> a[n].key == dst.key
    requires i < |a| ==> a[i].key != dst.key
    requires (forall k :: Vals([dst], k) == Vals(a[start..i], k)) && forall k :: Vals(out, k) == Vals(a[..start], k)
    requires forall k :: HasKey(out, k) <==> HasKey(a[..start], k)
    requires forall j, n :: 0 <= j < |out| && start <= n < |a| ==> out[j].key < a[n].key
    ensures Increasing(Keys(out + [dst])) && forall k :: Vals(out + [dst], k) == Vals(a[..i], k)
    ensures forall k :: HasKey(out + [dst], k) <==> HasKey(a[..i], k)
    ensures forall j, n :: 0 <= j < |out + [dst]| && i <= n < |a| ==> (out + [dst])[j].key < a[n].key
  {
    hide Vals;
    var out' := out + [dst];
    forall k ensures Vals(out', k) == Vals(a[..i], k) {
      assert a[..i] == a[..start] + a[start..i];
      ValsConcat(out, [dst], k);
      ValsConcat(a[..start], a[start..i], k);
    }
    forall k ensures HasKey(out', k) <==> HasKey(a[..i], k) {
      RunKeys(a, out, start, i, dst, k);
    }
    assert dst.key == a[start].key;
    forall x, y | 0 <= x < y < |out'| ensures Keys(out')[x] < Keys(out')[y] {
      if y < |out| {
        assert Keys(out)[x] < Keys(out)[y];
      } else {
        assert out[x].key < a[start].key;
      }
    }
  }

  lemma RunKeys(a: seq<Kvs>, out: seq<Kvs>, start: nat, i: nat, dst: Kvs, k: int)
    requires start < i <= |a|
             && (forall n :: start <= n < i ==> a[n].key == dst.key) && (HasKey(out, k) <==> HasKey(a[..start], k))
    ensures HasKey(out + [dst], k) <==> HasKey(a[..i], k)
  {
    HasConcat(out, [dst], k);
    assert a[..i] == a[..start] + a[start..i];
    HasConcat(a[..start], a[start..i], k);
    assert [dst][0] == dst && a[start..i][0] == a[start];
  }

  lemma HasConcat(a: seq<Kvs>, b: seq<Kvs>, k: int)
    ensures HasKey(a + b, k) <==> HasKey(a, k) || HasKey(b, k)
  {
    if HasKey(a, k) {
      var i :| 0 <= i < |a| && a[i].key == k;
      assert (a + b)[i].key == k;
    }
    if HasKey(b, k) {
      var i :| 0 <= i < |b| && b[i].key == k;
      assert (a + b)[|a| + i].key == k;
    }
  }

  // ----- Several sorted lists -----

  ghost predicate SomeHasKey(lists: seq<seq<Kvs>>, k: int) {
    exists i :: 0 <= i < |lists| && HasKey(lists[i], k)
  }

  predicate Positions(nodes: seq<seq<Kvs>>, it: seq<nat>) {
    |it| == |nodes| && forall i :: 0 <= i < |it| ==> it[i] <= |nodes[i]|
  }

  /** What the iterators have not passed yet. */
  function Rest(nodes: seq<seq<Kvs>>, it: seq<nat>): (r: seq<seq<Kvs>>)
    requires Positions(nodes, it)
    ensures |r| == |nodes| && forall i :: 0 <= i < |r| ==> r[i] == nodes[i][it[i]..]
  {
    seq(|nodes|, i requires 0 <= i < |nodes| => nodes[i][it[i]..])
  }

  /** Finds the least key and marks the iterators that stand at it. Marks below the last one given out
      belong to larger keys met earlier. */
  method FindMinimum(nodes: seq<seq<Kvs>>, it: seq<nat>) returns (minIdx: int, marked: seq<bool>)
    requires Positions(nodes, it)
    ensures |marked| == |nodes| && -1 <= minIdx < |nodes|
    ensures minIdx == -1 <==> forall i :: 0 <= i < |nodes| ==> it[i] == |nodes[i]|
    ensures minIdx >= 0 ==> it[minIdx] < |nodes[minIdx]| && marked[minIdx]
    ensures minIdx >= 0 ==> forall i :: 0 <= i < |nodes| && it[i] < |nodes[i]| ==>
              nodes[minIdx][it[minIdx]].key <= nodes[i][it[i]].key
    ensures minIdx >= 0 ==> forall i :: 0 <= i < |nodes| ==>
              (marked[i] <==> it[i] < |nodes[i]| && nodes[i][it[i]].key == nodes[minIdx][it[minIdx]].key)
  {
    minIdx := -1;
    var m := 0;
    var marks := seq(|nodes|, _ => 0);
    for i := 0 to |nodes|
      invariant |marks| == |nodes| && -1 <= minIdx < i && (minIdx == -1 <==> m == 0) && m >= 0
      invariant forall k :: 0 <= k < |nodes| ==> 0 <= marks[k] <= m && (k >= i ==> marks[k] == 0)
      invariant minIdx == -1 ==> forall k :: 0 <= k < i ==> it[k] == |nodes[k]|
      invariant minIdx >= 0 ==> it[minIdx] < |nodes[minIdx]|
      invariant minIdx >= 0 ==>
                  forall k :: 0 <= k < i && it[k] < |nodes[k]| ==> nodes[minIdx][it[minIdx]].key <= nodes[k][it[k]].key
      invariant minIdx >= 0 ==> forall k :: 0 <= k < i ==>
                  (marks[k] == m <==> it[k] < |nodes[k]| && nodes[k][it[k]].key == nodes[minIdx][it[minIdx]].key)
    {
      if it[i] != |nodes[i]| {
        if minIdx < 0 || nodes[minIdx][it[minIdx]].key > nodes[i][it[i]].key {
          m := m + 1;
          marks := marks[i := m];
          minIdx := i;
        } else if nodes[minIdx][it[minIdx]].key == nodes[i][it[i]].key {
          marks := marks[i := m];
        }
      }
    }
    marked := seq(|nodes|, i requires 0 <= i < |nodes| => marks[i] == m);
  }

  /** Moves the values of a run of equal keys at the front of a list. */
  method TakeRun(app: App, node: seq<Kvs>, at: nat, dst: Kvs) returns (at': nat, dst': Kvs)
    requires KeysSorted(node) && at < |node| && node[at].key == dst.key
    requires Lawful(app) && AllFull(app, node) && Holds(app, dst.arr, dst.vals)
    ensures Full(app, dst')
    ensures at < at' <= |node| && dst'.key == dst.key
    ensures forall k :: Vals([dst'], k) == Vals([dst], k) + Vals(node[at..at'], k)
    ensures forall n :: at' <= n < |node| ==> node[n].key > dst.key
    ensures forall n :: at <= n < at' ==> node[n].key == dst.key
  {
    hide Vals, Lawful, Full, Holds;
    at', dst' := at, dst;
    assert node[at..at] == [];
    NoVals();
    while at' < |node| && node[at'].key == dst.key
      invariant at <= at' <= |node| && dst'.key == dst.key
      invariant Holds(app, dst'.arr, dst'.vals) && (at' > at ==> Full(app, dst'))
      invariant forall n :: at <= n < at' ==> node[n].key == dst.key
      invariant forall k :: Vals([dst'], k) == Vals([dst], k) + Vals(node[at..at'], k)
    {
      MovedFull(app, dst', node[at']);
      var more := Moved(app, dst', node[at']);
      FullHolds(app, more);
      MoveVals(app, dst', node[at']);
      forall k ensures Vals([more], k) == Vals([dst], k) + Vals(node[at..at' + 1], k) {
        assert node[at..at' + 1] == node[at..at'] + [node[at']];
        ValsConcat(node[at..at'], [node[at']], k);
      }
      dst' := more;
      at' := at' + 1;
    }
  }

  ghost predicate AllKeysSorted(nodes: seq<seq<Kvs>>) {
    forall i :: 0 <= i < |nodes| ==> KeysSorted(nodes[i])
  }

  /** Everything left lies above key `k`, in the lists up to `n`; in the others at or above it. */
  ghost predicate LeftAbove(nodes: seq<seq<Kvs>>, it: seq<nat>, k: int, n: nat)
    requires Positions(nodes, it)
  {
    forall i, j :: 0 <= i < |nodes| && it[i] <= j < |nodes[i]| ==>
        k <= nodes[i][j].key && (i < n ==> k < nodes[i][j].key)
  }

  /** Collects all values of the least key. */
  method MergeKey(app: App, nodes: seq<seq<Kvs>>, it: seq<nat>, marked: seq<bool>, key: int)
    returns (it': seq<nat>, dst: Kvs)
    requires Lawful(app) && forall i :: 0 <= i < |nodes| ==> AllFull(app, nodes[i])
    requires Positions(nodes, it) && AllKeysSorted(nodes) && |marked| == |nodes|
    requires forall i :: 0 <= i < |nodes| && it[i] < |nodes[i]| ==> key <= nodes[i][it[i]].key
    requires forall i :: 0 <= i < |nodes| ==> (marked[i] <==> it[i] < |nodes[i]| && nodes[i][it[i]].key == key)
    requires true in marked
    ensures Positions(nodes, it') && dst.key == key && Full(app, dst)
    ensures forall k :: Vals([dst], k) + AllVals(Rest(nodes, it'), k) == AllVals(Rest(nodes, it), k)
    ensures LeftAbove(nodes, it', key, |nodes|)
    ensures forall i :: 0 <= i < |nodes| ==>
              it[i] <= it'[i] && (forall n :: it[i] <= n < it'[i] ==> nodes[i][n].key == key)
    ensures exists i :: 0 <= i < |nodes| && it[i] < it'[i]
  {
    hide Vals, AllVals, KeysSorted, Lawful, Full, Holds, AllFull;
    it', dst := it, Kvs(key, [], []);
    NothingHeld(app);
    OneVals(dst);
    StartAbove(nodes, it, key);
    for i := 0 to |nodes|
      invariant Positions(nodes, it') && dst.key == key && Holds(app, dst.arr, dst.vals)
      invariant (exists x :: 0 <= x < i && marked[x]) ==> Full(app, dst)
      invariant forall k :: Vals([dst], k) + AllVals(Rest(nodes, it'), k) == AllVals(Rest(nodes, it), k)
      invariant LeftAbove(nodes, it', key, i)
      invariant forall n :: i <= n < |nodes| ==> it'[n] == it[n]
      invariant forall x :: 0 <= x < |nodes| ==>
                  it[x] <= it'[x] && (forall n :: it[x] <= n < it'[x] ==> nodes[x][n].key == key)
      invariant forall x :: 0 <= x < i && marked[x] ==> it[x] < it'[x]
    {
      if marked[i] {
        var at, dst' := TakeRun(app, nodes[i], it'[i], dst);
        FullHolds(app, dst');
        ghost var before, after := Rest(nodes, it'), Rest(nodes, it'[i := at]);
        assert after == before[i := nodes[i][at..]];
        forall k ensures Vals([dst'], k) + AllVals(after, k) == Vals([dst], k) + AllVals(before, k) {
          assert before[i] == nodes[i][it'[i]..at] + nodes[i][at..];
          MovedVals(before, i, nodes[i][it'[i]..at], nodes[i][at..], dst, dst', k);
        }
        it' := it'[i := at];
        dst := dst';
      } else {
        UnmarkedAbove(nodes, it', key, i);
      }
    }
    var x :| 0 <= x < |marked| && marked[x];
    assert it[x] < it'[x];
  }

  lemma NothingHeld(app: App)
    ensures Holds(app, [], [])
  {
  }

  lemma StartAbove(nodes: seq<seq<Kvs>>, it: seq<nat>, key: int)
    requires Positions(nodes, it) && AllKeysSorted(nodes)
    requires forall i :: 0 <= i < |nodes| && it[i] < |nodes[i]| ==> key <= nodes[i][it[i]].key
    ensures LeftAbove(nodes, it, key, 0)
  {
    forall i, j | 0 <= i < |nodes| && it[i] <= j < |nodes[i]| ensures key <= nodes[i][j].key {
      assert KeysSorted(nodes[i]);
      assert it[i] < j ==> nodes[i][it[i]].key <= nodes[i][j].key;
    }
  }

  lemma UnmarkedAbove(nodes: seq<seq<Kvs>>, it: seq<nat>, key: int, i: nat)
    requires Positions(nodes, it) && AllKeysSorted(nodes) && i < |nodes| && LeftAbove(nodes, it, key, i)
    requires it[i] < |nodes[i]| ==> nodes[i][it[i]].key != key
    ensures LeftAbove(nodes, it, key, i + 1)
  {
    assert KeysSorted(nodes[i]);
    forall j | it[i] <= j < |nodes[i]| ensures key < nodes[i][j].key {
      assert nodes[i][it[i]].key <= nodes[i][j].key;
      assert key <= nodes[i][it[i]].key;
    }
  }

  lemma MovedVals(lists: seq<seq<Kvs>>, i: nat, run: seq<Kvs>, s: seq<Kvs>, dst: Kvs, dst': Kvs, k: int)
    requires i < |lists| && lists[i] == run + s && Vals([dst'], k) == Vals([dst], k) + Vals(run, k)
    ensures Vals([dst'], k) + AllVals(lists[i := s], k) == Vals([dst], k) + AllVals(lists, k)
  {
    hide Vals, AllVals;
    ValsConcat(run, s, k);
    AllValsUpdate(lists, i, s, k, Vals(run, k));
  }

  lemma NoVals()
    ensures forall k :: Vals([], k) == multiset{}
  {
  }

  ghost predicate OutBelow(out: seq<Kvs>, nodes: seq<seq<Kvs>>, it: seq<nat>)
    requires Positions(nodes, it)
  {
    forall x, i, j :: 0 <= x < |out| && 0 <= i < |nodes| && it[i] <= j < |nodes[i]| ==> out[x].key < nodes[i][j].key
  }

  /** The keys written so far are those that some iterator has passed. */
  ghost predicate PassedKeys(out: seq<Kvs>, nodes: seq<seq<Kvs>>, it: seq<nat>)
    requires Positions(nodes, it)
  {
    && (forall i, j :: 0 <= i < |nodes| && 0 <= j < it[i] ==> HasKey(out, nodes[i][j].key))
    && (forall x :: 0 <= x < |out| ==> Passed(nodes, it, out[x].key))
  }

  ghost predicate Passed(nodes: seq<seq<Kvs>>, it: seq<nat>, k: int)
    requires Positions(nodes, it)
  {
    exists i, j :: 0 <= i < |nodes| && 0 <= j < it[i] && nodes[i][j].key == k
  }

  function Unseen(nodes: seq<seq<Kvs>>, it: seq<nat>): nat
    requires Positions(nodes, it)
  {
    if nodes == [] then 0
    else var n := |nodes| - 1; Unseen(nodes[..n], it[..n]) + (|nodes[n]| - it[n])
  }

  lemma {:induction false} UnseenLess(nodes: seq<seq<Kvs>>, it: seq<nat>, it': seq<nat>)
    requires Positions(nodes, it) && Positions(nodes, it') && forall i :: 0 <= i < |nodes| ==> it[i] <= it'[i]
    ensures Unseen(nodes, it') <= Unseen(nodes, it)
    ensures (exists i :: 0 <= i < |nodes| && it[i] < it'[i]) ==> Unseen(nodes, it') < Unseen(nodes, it)
  {
    if nodes != [] {
      var n := |nodes| - 1;
      UnseenLess(nodes[..n], it[..n], it'[..n]);
      if exists i :: 0 <= i < |nodes| && it[i] < it'[i] {
        var i :| 0 <= i < |nodes| && it[i] < it'[i];
        if i < n {
          assert it[..n][i] < it'[..n][i];
        }
      }
    }
  }

  lemma AppendKey(nodes: seq<seq<Kvs>>, it: seq<nat>, it': seq<nat>, out: seq<Kvs>, dst: Kvs)
    requires Positions(nodes, it) && Positions(nodes, it') && Increasing(Keys(out))
    requires OutBelow(out, nodes, it) && PassedKeys(out, nodes, it)
    requires LeftAbove(nodes, it', dst.key, |nodes|)
    requires forall i :: 0 <= i < |nodes| ==>
               it[i] <= it'[i] && (forall n :: it[i] <= n < it'[i] ==> nodes[i][n].key == dst.key)
    requires exists i :: 0 <= i < |nodes| && it[i] < it'[i]
    ensures Increasing(Keys(out + [dst])) && OutBelow(out + [dst], nodes, it') && PassedKeys(out + [dst], nodes, it')
  {
    var out' := out + [dst];
    var m :| 0 <= m < |nodes| && it[m] < it'[m];
    assert nodes[m][it[m]].key == dst.key;
    forall x, y | 0 <= x < y < |out'| ensures Keys(out')[x] < Keys(out')[y] {
      if y < |out| {
        assert Keys(out)[x] < Keys(out)[y];
      }
    }
    forall i, j | 0 <= i < |nodes| && 0 <= j < it'[i] ensures HasKey(out', nodes[i][j].key) {
      HasConcat(out, [dst], nodes[i][j].key);
      assert [dst][0] == dst;
    }
    forall x | 0 <= x < |out'| ensures Passed(nodes, it', out'[x].key) {
      if x < |out| {
        assert Passed(nodes, it, out[x].key);
        var i, j :| 0 <= i < |nodes| && 0 <= j < it[i] && nodes[i][j].key == out[x].key;
        assert j < it'[i];
      }
    }
  }

  /** Merges sorted lists key by key. */
  method GroupSorted(app: App, nodes: seq<seq<Kvs>>) returns (out: seq<Kvs>)
    requires AllKeysSorted(nodes) && Lawful(app) && forall i :: 0 <= i < |nodes| ==> AllFull(app, nodes[i])
    ensures AllFull(app, out)
    ensures Increasing(Keys(out)) && (forall k :: Vals(out, k) == AllVals(nodes, k))
    ensures forall k :: HasKey(out, k) <==> SomeHasKey(nodes, k)
  {
    hide Vals, AllVals, AllKeysSorted, OutBelow, PassedKeys, Lawful, Full;
    out := [];
    var it: seq<nat> := seq(|nodes|, _ => 0);
    NoVals();
    assert Rest(nodes, it) == nodes;
    NothingYet(nodes, it);
    while true
      invariant Positions(nodes, it) && Increasing(Keys(out)) && OutBelow(out, nodes, it) && PassedKeys(out, nodes, it)
      invariant AllFull(app, out)
      invariant forall k :: Vals(out, k) + AllVals(Rest(nodes, it), k) == AllVals(nodes, k)
      decreases Unseen(nodes, it)
    {
      var minIdx, marked := FindMinimum(nodes, it);
      if minIdx < 0 {
        break;
      }
      var key := nodes[minIdx][it[minIdx]].key;
      assert marked[minIdx];
      var it', dst := MergeKey(app, nodes, it, marked, key);
      AppendKey(nodes, it, it', out, dst);
      UnseenLess(nodes, it, it');
      forall k ensures Vals(out + [dst], k) + AllVals(Rest(nodes, it'), k) == AllVals(nodes, k) {
        ValsConcat(out, [dst], k);
      }
      it := it';
      out := out + [dst];
    }
    Exhausted(nodes, it, out);
  }

  lemma NothingYet(nodes: seq<seq<Kvs>>, it: seq<nat>)
    requires Positions(nodes, it) && forall i :: 0 <= i < |it| ==> it[i] == 0
    ensures OutBelow([], nodes, it) && PassedKeys([], nodes, it)
  {
  }

  lemma Exhausted(nodes: seq<seq<Kvs>>, it: seq<nat>, out: seq<Kvs>)
    requires Positions(nodes, it) && PassedKeys(out, nodes, it) && forall i :: 0 <= i < |nodes| ==> it[i] == |nodes[i]|
    ensures forall k :: AllVals(Rest(nodes, it), k) == multiset{}
    ensures forall k :: HasKey(out, k) <==> SomeHasKey(nodes, k)
  {
    forall k ensures AllVals(Rest(nodes, it), k) == multiset{} {
      AllValsEmpty(Rest(nodes, it), k);
    }
    forall k ensures HasKey(out, k) <==> SomeHasKey(nodes, k) {
      if HasKey(out, k) {
        var x :| 0 <= x < |out| && out[x].key == k;
        assert Passed(nodes, it, out[x].key);
        var i, j :| 0 <= i < |nodes| && 0 <= j < it[i] && nodes[i][j].key == k;
        assert HasKey(nodes[i], k);
      }
      if SomeHasKey(nodes, k) {
        var i :| 0 <= i < |nodes| && HasKey(nodes[i], k);
        var j :| 0 <= j < |nodes[i]| && nodes[i][j].key == k;
        assert HasKey(out, nodes[i][j].key);
      }
    }
  }

  // ----- Unsorted lists -----

  /** What the library's sort does to pairs. */
  ghost predicate Sorts(sort: seq<Kvs> -> seq<Kvs>) {
    forall s :: KeysSorted(sort(s)) && multiset(sort(s)) == multiset(s)
  }

  /** The values of a key do not depend on the order of the pairs. */
  lemma {:induction false} ValsPermuted(a: seq<Kvs>, b: seq<Kvs>, k: int)
    requires multiset(a) == multiset(b)
    ensures Vals(a, k) == Vals(b, k)
  {
    hide Vals;
    if a == [] {
      assert |multiset(b)| == 0;
    } else {
      var n := |a| - 1;
      var x := a[n];
      assert x in multiset(b);
      var i :| 0 <= i < |b| && b[i] == x;
      var l, r := b[..i], b[i + 1..];
      assert a == a[..n] + [x] && b == l + [x] + r;
      SameRest(a[..n], l, r, x);
      ValsPermuted(a[..n], l + r, k);
      ValsMoved(a[..n], x, l, r, k);
    }
  }

  lemma SameRest(a: seq<Kvs>, l: seq<Kvs>, r: seq<Kvs>, x: Kvs)
    requires multiset(a + [x]) == multiset(l + [x] + r)
    ensures multiset(a) == multiset(l + r)
  {
    assert multiset(a) == multiset(a + [x]) - multiset{x};
    assert multiset(l + r) == multiset(l + [x] + r) - multiset{x};
  }

  lemma ValsMoved(a: seq<Kvs>, x: Kvs, l: seq<Kvs>, r: seq<Kvs>, k: int)
    requires Vals(a, k) == Vals(l + r, k)
    ensures Vals(a + [x], k) == Vals(l + [x] + r, k)
  {
    hide Vals;
    ValsConcat(a, [x], k);
    ValsConcat(l, r, k);
    ValsConcat(l + [x], r, k);
    ValsConcat(l, [x], k);
  }

  lemma SortedSame(s: seq<Kvs>, t: seq<Kvs>)
    requires multiset(s) == multiset(t)
    ensures forall k :: Vals(s, k) == Vals(t, k)
    ensures forall k :: HasKey(s, k) <==> HasKey(t, k)
  {
    forall k ensures Vals(s, k) == Vals(t, k) && (HasKey(s, k) <==> HasKey(t, k)) {
      ValsPermuted(s, t, k);
      if HasKey(s, k) {
        HasPermuted(s, t, k);
      }
      if HasKey(t, k) {
        HasPermuted(t, s, k);
      }
    }
  }

  lemma HasPermuted(s: seq<Kvs>, t: seq<Kvs>, k: int)
    requires multiset(s) == multiset(t) && HasKey(s, k)
    ensures HasKey(t, k)
  {
    var i :| 0 <= i < |s| && s[i].key == k;
    assert s[i] in multiset(t);
  }

  /** Lists in any order are joined and sorted first. */
  method GroupUnsorted(app: App, a: seq<seq<Kvs>>, sort: seq<Kvs> -> seq<Kvs>) returns (out: seq<Kvs>)
    requires Sorts(sort) && Lawful(app) && forall i :: 0 <= i < |a| ==> AllFull(app, a[i])
    ensures AllFull(app, out)
    ensures Increasing(Keys(out)) && (forall k :: Vals(out, k) == AllVals(a, k))
    ensures forall k :: HasKey(out, k) <==> SomeHasKey(a, k)
  {
    hide Vals, AllVals, HasKey, SomeHasKey, Lawful, Full;
    if |a| == 1 {
      SortedSame(a[0], sort(a[0]));
      SortedFull(app, a[0], sort(a[0]));
      out := GroupOneSorted(app, sort(a[0]));
      Single(a);
    } else {
      var one := JoinAll(app, a);
      SortedSame(one, sort(one));
      SortedFull(app, one, sort(one));
      out := GroupOneSorted(app, sort(one));
    }
  }

  lemma SortedFull(app: App, s: seq<Kvs>, t: seq<Kvs>)
    requires multiset(s) == multiset(t) && AllFull(app, s)
    ensures AllFull(app, t)
  {
    forall i | 0 <= i < |t| ensures Full(app, t[i]) {
      assert t[i] in multiset(s);
    }
  }

  lemma Single(a: seq<seq<Kvs>>)
    requires |a| == 1
    ensures forall k :: AllVals(a, k) == Vals(a[0], k) && (SomeHasKey(a, k) <==> HasKey(a[0], k))
  {
    hide Vals, HasKey;
    forall k ensures AllVals(a, k) == Vals(a[0], k) && (SomeHasKey(a, k) <==> HasKey(a[0], k)) {
      assert AllVals(a[..0], k) == multiset{};
      assert HasKey(a[0], k) ==> SomeHasKey(a, k);
    }
  }

  method JoinAll(ghost app: App, a: seq<seq<Kvs>>) returns (one: seq<Kvs>)
    requires forall i :: 0 <= i < |a| ==> AllFull(app, a[i])
    ensures AllFull(app, one)
    ensures forall k :: Vals(one, k) == AllVals(a, k) && (HasKey(one, k) <==> SomeHasKey(a, k))
  {
    hide Vals, HasKey, SomeHasKey, Full;
    one := [];
    NoVals();
    assert a[..0] == [];
    NoneHas();
    for i := 0 to |a|
      invariant AllFull(app, one)
      invariant forall k :: Vals(one, k) == AllVals(a[..i], k) && (HasKey(one, k) <==> SomeHasKey(a[..i], k))
    {
      forall k ensures Vals(one + a[i], k) == AllVals(a[..i + 1], k)
                       && (HasKey(one + a[i], k) <==> SomeHasKey(a[..i + 1], k))
      {
        assert a[..i + 1][..i] == a[..i];
        ValsConcat(one, a[i], k);
        HasConcat(one, a[i], k);
        SomeMore(a, i, k);
      }
      one := one + a[i];
    }
    assert a[..|a|] == a;
  }

  lemma NoneHas()
    ensures forall k :: !HasKey([], k) && !SomeHasKey([], k)
  {
  }

  lemma SomeMore(a: seq<seq<Kvs>>, i: nat, k: int)
    requires i < |a|
    ensures SomeHasKey(a[..i + 1], k) <==> SomeHasKey(a[..i], k) || HasKey(a[i], k)
  {
    hide HasKey;
    if SomeHasKey(a[..i], k) {
      var j :| 0 <= j < i && HasKey(a[..i][j], k);
      assert a[..i + 1][j] == a[..i][j];
    }
    assert a[..i + 1][i] == a[i];
    if SomeHasKey(a[..i + 1], k) {
      var j :| 0 <= j < i + 1 && HasKey(a[..i + 1][j], k);
      assert j < i ==> a[..i][j] == a[..i + 1][j];
    }
  }
}
