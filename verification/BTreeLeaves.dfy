/** The pairs of a B+ tree in order: what an insertion means, and the chain of leaves. */
module BTreeLeaves {
  import opened BSearch
  import opened BTreeModel

  // ----- Sorted lists of pairs -----

  /** Adds values to a key of a sorted list, or the key where it belongs. */
  function Put(s: seq<Pair>, k: int, vs: seq<int>): seq<Pair> {
    if s == [] then [Pair(k, vs)]
    else if s[0].key < k then [s[0]] + Put(s[1..], k, vs)
    else if s[0].key == k then [Pair(k, s[0].vals + vs)] + s[1..]
    else [Pair(k, vs)] + s
  }

  function Meaning(s: seq<Pair>): map<int, seq<int>> {
    if s == [] then map[] else Meaning(s[1..])[s[0].key := s[0].vals]
  }

  lemma {:induction false} MeaningKeys(s: seq<Pair>, k: int)
    ensures k in Meaning(s) <==> exists i :: 0 <= i < |s| && s[i].key == k
  {
    if s != [] {
      MeaningKeys(s[1..], k);
      if exists i :: 0 <= i < |s| && s[i].key == k {
        var i :| 0 <= i < |s| && s[i].key == k;
        if i > 0 {
          assert s[1..][i - 1].key == k;
        }
      }
    }
  }

  lemma IncreasingTail(s: seq<Pair>)
    requires s != [] && Increasing(Keys(s))
    ensures Increasing(Keys(s[1..])) && forall i :: 0 <= i < |s[1..]| ==> s[0].key < s[1..][i].key
  {
    assert forall i :: 0 <= i < |s[1..]| ==> Keys(s[1..])[i] == Keys(s)[i + 1];
  }

  /** On sorted lists an insertion is a map update, and the list stays sorted. */
  lemma {:induction false} PutMeaning(s: seq<Pair>, k: int, vs: seq<int>)
    requires Increasing(Keys(s))
    ensures Meaning(Put(s, k, vs)) == Meaning(s)[k := (if k in Meaning(s) then Meaning(s)[k] else []) + vs]
    ensures Increasing(Keys(Put(s, k, vs)))
    ensures |Put(s, k, vs)| == |s| + if k in Meaning(s) then 0 else 1
    ensures s != [] ==> Put(s, k, vs)[0].key == if k < s[0].key then k else s[0].key
  {
    hide Increasing, Meaning, Put, Keys;
    PutOrder(s, k, vs);
    PutUnfold(s, k, vs);
    NoMeaning();
    assert [] + vs == vs;
    if s == [] {
      MeaningCons(Pair(k, vs), []);
      assert [Pair(k, vs)] + [] == [Pair(k, vs)];
    } else {
      IncreasingTail(s);
      var e, t := s[0], s[1..];
      assert s == [e] + t;
      MeaningCons(e, t);
      if e.key < k {
        PutMeaning(t, k, vs);
        MeaningCons(e, Put(t, k, vs));
        Commute(Meaning(t), k, (if k in Meaning(t) then Meaning(t)[k] else []) + vs, e.key, e.vals);
      } else if e.key == k {
        MeaningCons(Pair(k, e.vals + vs), t);
        Again(Meaning(t), k, e.vals, e.vals + vs);
      } else {
        TooSmall(s, k);
        MeaningCons(Pair(k, vs), s);
      }
    }
  }

  lemma PutUnfold(s: seq<Pair>, k: int, vs: seq<int>)
    ensures s == [] ==> Put(s, k, vs) == [Pair(k, vs)]
    ensures s != [] && s[0].key < k ==> Put(s, k, vs) == [s[0]] + Put(s[1..], k, vs)
    ensures s != [] && s[0].key == k ==> Put(s, k, vs) == [Pair(k, s[0].vals + vs)] + s[1..]
    ensures s != [] && s[0].key > k ==> Put(s, k, vs) == [Pair(k, vs)] + s
  {
  }

  lemma Commute(m: map<int, seq<int>>, k: int, v: seq<int>, k': int, v': seq<int>)
    requires k != k'
    ensures m[k := v][k' := v'] == m[k' := v'][k := v]
  {
  }

  lemma Again(m: map<int, seq<int>>, k: int, v: seq<int>, w: seq<int>)
    ensures m[k := v][k := w] == m[k := w]
  {
  }

  lemma TooSmall(s: seq<Pair>, k: int)
    requires Increasing(Keys(s)) && s != [] && k < s[0].key
    ensures k !in Meaning(s)
  {
    MeaningKeys(s, k);
    assert forall i :: 0 <= i < |s| ==> Keys(s)[0] <= Keys(s)[i];
  }

  lemma NoMeaning()
    ensures Meaning([]) == map[]
  {
  }

  lemma MeaningCons(e: Pair, t: seq<Pair>)
    ensures Meaning([e] + t) == Meaning(t)[e.key := e.vals]
  {
    assert ([e] + t)[1..] == t;
  }

  lemma {:induction false} PutOrder(s: seq<Pair>, k: int, vs: seq<int>)
    requires Increasing(Keys(s))
    ensures Increasing(Keys(Put(s, k, vs)))
    ensures s != [] ==> Put(s, k, vs)[0].key == if k < s[0].key then k else s[0].key
  {
    hide Increasing, Meaning;
    if s == [] {
      OneIncreasing(Pair(k, vs));
    } else {
      IncreasingTail(s);
      var t := s[1..];
      if s[0].key < k {
        PutOrder(t, k, vs);
        PutCons(s[0], Put(t, k, vs));
      } else if s[0].key == k {
        PutCons(Pair(k, s[0].vals + vs), t);
      } else {
        PutCons(Pair(k, vs), s);
      }
    }
  }

  lemma OneIncreasing(e: Pair)
    ensures Increasing(Keys([e]))
  {
  }

  lemma PutCons(e: Pair, t: seq<Pair>)
    requires Increasing(Keys(t)) && (t != [] ==> e.key < t[0].key)
    ensures Increasing(Keys([e] + t))
  {
    assert forall i :: 0 <= i < |t| ==> t[0].key == Keys(t)[0] <= Keys(t)[i];
  }

  lemma {:induction false} PutAfter(a: seq<Pair>, b: seq<Pair>, k: int, vs: seq<int>)
    requires forall i :: 0 <= i < |a| ==> a[i].key < k
    ensures Put(a + b, k, vs) == a + Put(b, k, vs)
  {
    if a == [] {
      assert a + b == b;
    } else {
      assert (a + b)[1..] == a[1..] + b;
      PutAfter(a[1..], b, k, vs);
    }
  }

  lemma {:induction false} PutBefore(a: seq<Pair>, b: seq<Pair>, k: int, vs: seq<int>)
    requires forall i :: 0 <= i < |b| ==> k < b[i].key
    ensures Put(a + b, k, vs) == Put(a, k, vs) + b
  {
    if a == [] {
      assert a + b == b;
    } else {
      assert (a + b)[1..] == a[1..] + b;
      if a[0].key < k {
        PutBefore(a[1..], b, k, vs);
      }
    }
  }

  /** What the search in a leaf is good for. */
  lemma PutAt(es: seq<Pair>, k: int, vs: seq<int>, pos: nat)
    requires Increasing(Keys(es)) && IsLowerBound(Keys(es), k, pos)
    ensures Put(es, k, vs) == if pos < |es| && es[pos].key == k then es[pos := Pair(k, es[pos].vals + vs)]
                              else es[..pos] + [Pair(k, vs)] + es[pos..]
  {
    hide Put, Increasing, IsLowerBound, Keys;
    Sides(es, k, pos);
    var a, b := es[..pos], es[pos..];
    assert es == a + b;
    PutAfter(a, b, k, vs);
    PutFirst(b, k, vs);
    if pos < |es| && es[pos].key == k {
      PlaceAt(es, pos, Pair(k, es[pos].vals + vs));
    } else {
      Assoc(a, [Pair(k, vs)], b);
    }
  }

  lemma PlaceAt(es: seq<Pair>, pos: nat, e: Pair)
    requires pos < |es|
    ensures es[pos := e] == es[..pos] + ([e] + es[pos..][1..])
  {
  }

  lemma Sides(es: seq<Pair>, k: int, pos: nat)
    requires IsLowerBound(Keys(es), k, pos)
    ensures pos <= |es| && (forall i :: 0 <= i < pos ==> es[..pos][i].key < k)
    ensures pos < |es| ==> es[pos..][0] == es[pos] && es[pos].key >= k
  {
    assert forall i :: 0 <= i < |es| ==> es[i].key == Keys(es)[i];
  }

  lemma PutFirst(b: seq<Pair>, k: int, vs: seq<int>)
    requires b != [] ==> b[0].key >= k
    ensures Put(b, k, vs) == if b != [] && b[0].key == k then [Pair(k, b[0].vals + vs)] + b[1..] else [Pair(k, vs)] + b
  {
  }

  // ----- The chain of leaves -----

  predicate AllLeaves(h: Heap, leaves: seq<Ptr>) {
    forall i :: 0 <= i < |leaves| ==> leaves[i] in h && h[leaves[i]].Leaf?
  }

  function Contents(h: Heap, leaves: seq<Ptr>): seq<Pair>
    requires AllLeaves(h, leaves)
  {
    if leaves == [] then [] else h[leaves[0]].es + Contents(h, leaves[1..])
  }

  function NextOf(leaves: seq<Ptr>, i: nat): Ptr {
    if i + 1 < |leaves| then leaves[i + 1] else NULL
  }

  /** Where the interval of leaf `i` starts if the intervals are adjacent. */
  function StartOf(g: Infos, leaves: seq<Ptr>, i: nat): Ext {
    if 0 < i <= |leaves| && leaves[i - 1] in g then g[leaves[i - 1]].hi else NegInf
  }

  ghost predicate Link(h: Heap, g: Infos, leaves: seq<Ptr>, i: nat)
    requires i < |leaves|
  {
    && leaves[i] in h && leaves[i] in g && h[leaves[i]].Leaf? && h[leaves[i]].next == NextOf(leaves, i)
    && g[leaves[i]].lo == StartOf(g, leaves, i) && (i == |leaves| - 1 ==> g[leaves[i]].hi == PosInf)
  }

  /** All leaves in order, each linked to the next, their intervals adjacent and covering everything. */
  ghost predicate Chain(h: Heap, g: Infos, leaves: seq<Ptr>) {
    && |leaves| > 0 && AllLeaves(h, leaves)
    && (forall i :: 0 <= i < |leaves| ==> Link(h, g, leaves, i))
    && (forall p :: p in h && h[p].Leaf? ==> p in leaves)
  }

  lemma {:induction false} ContentsConcat(h: Heap, a: seq<Ptr>, b: seq<Ptr>)
    requires AllLeaves(h, a) && AllLeaves(h, b)
    ensures AllLeaves(h, a + b) && Contents(h, a + b) == Contents(h, a) + Contents(h, b)
  {
    if a == [] {
      assert a + b == b;
    } else {
      assert (a + b)[1..] == a[1..] + b && (a + b)[0] == a[0];
      ContentsConcat(h, a[1..], b);
      Assoc(h[a[0]].es, Contents(h, a[1..]), Contents(h, b));
    }
  }

  lemma Assoc(a: seq<Pair>, b: seq<Pair>, c: seq<Pair>)
    ensures a + (b + c) == a + b + c
  {
  }

  lemma {:induction false} ContentsFrame(h: Heap, h': Heap, a: seq<Ptr>)
    requires AllLeaves(h, a) && AllLeaves(h', a) && forall i :: 0 <= i < |a| ==> h'[a[i]].es == h[a[i]].es
    ensures Contents(h', a) == Contents(h, a)
  {
    if a != [] {
      ContentsFrame(h, h', a[1..]);
    }
  }

  lemma ContentsAt(h: Heap, leaves: seq<Ptr>, j: nat)
    requires AllLeaves(h, leaves) && j < |leaves|
    ensures AllLeaves(h, leaves[..j]) && AllLeaves(h, leaves[j + 1..])
    ensures Contents(h, leaves) == Contents(h, leaves[..j]) + h[leaves[j]].es + Contents(h, leaves[j + 1..])
  {
    assert leaves == leaves[..j] + leaves[j..];
    ContentsConcat(h, leaves[..j], leaves[j..]);
    assert leaves[j..][1..] == leaves[j + 1..];
  }

  ghost predicate Ordered(h: Heap, g: Infos, leaves: seq<Ptr>) {
    && AllLeaves(h, leaves)
    && (forall i :: 0 <= i < |leaves| ==> leaves[i] in g && Shape(h, g, leaves[i]))
    && (forall i :: 0 <= i < |leaves| - 1 ==> g[leaves[i]].hi == g[leaves[i + 1]].lo)
  }

  /** The pairs in adjacent leaves lie in the interval from the first to the last of them. */
  lemma {:induction false} ContentsWithin(h: Heap, g: Infos, leaves: seq<Ptr>)
    requires Ordered(h, g, leaves) && leaves != []
    ensures forall e :: e in Contents(h, leaves) ==> Within(e.key, g[leaves[0]].lo, g[leaves[|leaves| - 1]].hi)
    ensures Less(g[leaves[0]].lo, g[leaves[|leaves| - 1]].hi)
  {
    var p, n := leaves[0], |leaves| - 1;
    assert Shape(h, g, p);
    if n == 0 {
      assert leaves[1..] == [];
      assert Contents(h, leaves) == h[p].es;
    } else {
      var rest := leaves[1..];
      assert Ordered(h, g, rest) by {
        assert forall i :: 0 <= i < |rest| ==> rest[i] == leaves[i + 1];
      }
      ContentsWithin(h, g, rest);
      assert rest[0] == leaves[1] && rest[|rest| - 1] == leaves[n];
      assert g[p].hi == g[rest[0]].lo;
    }
  }

  lemma OrderedPart(h: Heap, g: Infos, leaves: seq<Ptr>, i: nat, j: nat)
    requires Ordered(h, g, leaves) && i <= j <= |leaves|
    ensures Ordered(h, g, leaves[i..j])
  {
    var part := leaves[i..j];
    assert forall k :: 0 <= k < |part| ==> part[k] == leaves[i + k];
  }

  /** An insertion into the leaf responsible for the key is an insertion into the whole. */
  lemma PutInLeaf(h: Heap, g: Infos, leaves: seq<Ptr>, j: nat, k: int, vs: seq<int>)
    requires Ordered(h, g, leaves) && j < |leaves| && Within(k, g[leaves[j]].lo, g[leaves[j]].hi)
    ensures Put(Contents(h, leaves), k, vs)
            == Contents(h, leaves[..j]) + Put(h[leaves[j]].es, k, vs) + Contents(h, leaves[j + 1..])
  {
    hide Put, Contents, Ordered;
    OrderedLeaves(h, g, leaves);
    var before, es, after := Contents(h, leaves[..j]), h[leaves[j]].es, Contents(h, leaves[j + 1..]);
    Outside(h, g, leaves, j, k);
    ContentsAt(h, leaves, j);
    Assoc(before, es, after);
    PutAfter(before, es + after, k, vs);
    PutBefore(es, after, k, vs);
    Assoc(before, Put(es, k, vs), after);
  }

  lemma OrderedLeaves(h: Heap, g: Infos, leaves: seq<Ptr>)
    requires Ordered(h, g, leaves)
    ensures AllLeaves(h, leaves)
  {
  }

  predicate AllBelow(s: seq<Pair>, k: int) {
    forall i :: 0 <= i < |s| ==> s[i].key < k
  }

  predicate AllAbove(s: seq<Pair>, k: int) {
    forall i :: 0 <= i < |s| ==> k < s[i].key
  }

  /** The keys in the leaves before and after the responsible one are smaller and greater. */
  lemma Outside(h: Heap, g: Infos, leaves: seq<Ptr>, j: nat, k: int)
    requires Ordered(h, g, leaves) && j < |leaves| && Within(k, g[leaves[j]].lo, g[leaves[j]].hi)
    ensures AllBelow(Contents(h, leaves[..j]), k) && AllAbove(Contents(h, leaves[j + 1..]), k)
  {
    hide Shape;
    var a, b := leaves[..j], leaves[j + 1..];
    var before, after := Contents(h, a), Contents(h, b);
    OrderedPart(h, g, leaves, 0, j);
    OrderedPart(h, g, leaves, j + 1, |leaves|);
    assert leaves[0..j] == a && leaves[j + 1..|leaves|] == b;
    if a != [] {
      ContentsWithin(h, g, a);
      assert g[a[j - 1]].hi == g[leaves[j]].lo;
    }
    forall i | 0 <= i < |before| ensures before[i].key < k {
      assert before[i] in before;
    }
    if b != [] {
      ContentsWithin(h, g, b);
      assert g[b[0]].lo == g[leaves[j]].hi;
    }
    forall i | 0 <= i < |after| ensures k < after[i].key {
      assert after[i] in after;
    }
  }

  lemma {:induction false} ContentsIncreasing(h: Heap, g: Infos, leaves: seq<Ptr>)
    requires Ordered(h, g, leaves)
    ensures Increasing(Keys(Contents(h, leaves)))
  {
    if leaves != [] {
      var p, rest := leaves[0], leaves[1..];
      OrderedPart(h, g, leaves, 1, |leaves|);
      assert leaves[1..|leaves|] == rest;
      ContentsIncreasing(h, g, rest);
      assert Shape(h, g, p);
      var es, later := h[p].es, Contents(h, rest);
      if rest != [] {
        ContentsWithin(h, g, rest);
        assert g[p].hi == g[rest[0]].lo;
      }
      forall i, j | 0 <= i < |es| && 0 <= j < |later| ensures es[i].key < later[j].key {
        assert later[j] in later;
        assert Within(es[i].key, g[p].lo, g[p].hi);
      }
      AppendIncreasing(es, later);
    }
  }

  lemma AppendIncreasing(a: seq<Pair>, b: seq<Pair>)
    requires Increasing(Keys(a)) && Increasing(Keys(b))
             && forall i, j :: 0 <= i < |a| && 0 <= j < |b| ==> a[i].key < b[j].key
    ensures Increasing(Keys(a + b))
  {
    var s := a + b;
    forall i, j | 0 <= i < j < |s| ensures Keys(s)[i] < Keys(s)[j] {
      if j < |a| {
        assert Keys(a)[i] < Keys(a)[j];
      } else if i >= |a| {
        assert Keys(b)[i - |a|] < Keys(b)[j - |a|];
      } else {
        assert a[i].key < b[j - |a|].key;
      }
    }
  }
}
