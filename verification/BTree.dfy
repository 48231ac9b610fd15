/** The B+ tree that indexes intermediate pairs. */
module BTree {
  import opened BSearch
  import opened BTreeModel
  import opened BTreeLeaves
  import opened Bits

  // ----- What an insertion into inner nodes leaves alone -----

  /** Nodes below `left` stay as they are; nodes beside it keep their content, and their intervals with
      the split accounted for; no leaf appears or disappears. */
  ghost predicate Untouched(h: Heap, g: Infos, h': Heap, g': Infos, left: Ptr, right: Ptr, key: int)
    requires left in g
  {
    && Grows(h, h')
    && (forall p :: p in g && g[p].level < g[left].level ==> Same(h, g, h', g', p))
    && (forall p :: (p in g && g[p].level == g[left].level) || p == right ==>
          Beside(h, g, h', g', left, right, key, p))
  }

  ghost predicate Grows(h: Heap, h': Heap) {
    && h.Keys <= h'.Keys
    && (forall p :: p in h' && p !in h ==> h'[p].Inner?)
    && (forall p :: p in h && h[p].Inner? ==> h'[p].Inner?)
  }

  ghost predicate Same(h: Heap, g: Infos, h': Heap, g': Infos, p: Ptr) {
    p in h && p in h' && p in g && p in g' && h'[p] == h[p] && g'[p] == g[p]
  }

  ghost predicate Beside(h: Heap, g: Infos, h': Heap, g': Infos, left: Ptr, right: Ptr, key: int, p: Ptr)
    requires left in g
  {
    && p in h && p in h' && p in g' && p in JoinInfo(g, left, right, key)
    && SetParent(h'[p], NULL) == SetParent(h[p], NULL)
    && SameInterval(g'[p], JoinInfo(g, left, right, key)[p])
  }

  lemma UntouchedNewRoot(h: Heap, g: Infos, left: Ptr, right: Ptr, key: int, r: Ptr)
    requires h.Keys == g.Keys + {right} && left in g && right !in g && r !in h
    ensures Untouched(h, g, NewRootHeap(h, left, right, key, r), NewRootInfo(g, left, right, key, r), left, right, key)
  {
  }

  lemma UntouchedJoin(h: Heap, g: Infos, left: Ptr, right: Ptr, key: int, q: Ptr, i: nat)
    requires h.Keys == g.Keys + {right} && left in g && right !in g && q in g && g[q].level == g[left].level + 1
    requires h[q].Inner? && i <= |h[q].keys| && i < |h[q].kids|
    ensures Untouched(h, g, JoinHeap(h, q, i, key, right), JoinInfo(g, left, right, key), left, right, key)
  {
  }

  lemma UntouchedSplit(h: Heap, g: Infos, h1: Heap, g1: Infos, left: Ptr, right: Ptr, key: int, q: Ptr, nq: Ptr,
                       key': int, h3: Heap, g3: Infos)
    requires left in g && Untouched(h, g, h1, g1, left, right, key)
    requires h1.Keys == g1.Keys && q in h1 && h1[q].Inner? && |h1[q].keys| == FANOUT - 1 && |h1[q].kids| == FANOUT
    requires Shape(h1, g1, q) && g1[q].level == g[left].level + 1 && nq !in h1
    requires Untouched(SplitHeap(h1, q, nq), MovedInfo(g1, h1[q].kids[ORDER + 1..], nq), h3, g3, q, nq, key')
    requires g1.Keys == g.Keys + {right} && right !in g
    ensures Untouched(h, g, Repaired(h3, h1[q].kids[ORDER + 1..], nq), g3, left, right, key)
  {
    hide Covers, Beside, Grows, Same, Repaired, SplitHeap, MovedInfo;
    var moved := h1[q].kids[ORDER + 1..];
    var h2, g2, h4 := SplitHeap(h1, q, nq), MovedInfo(g1, moved, nq), Repaired(h3, moved, nq);
    SplitGrows(h, h1, h3, q, nq, moved);
    SplitAt(h1, g1, q, nq, moved);
    forall p | p in g && g[p].level < g[left].level ensures Same(h, g, h4, g3, p) {
      assert Same(h, g, h1, g1, p);
      SameLevel(h, g, h1, g1, p);
      assert SameInterval(g2[p], g1[p]);
      assert Same(h2, g2, h3, g3, p);
      SameSplit(h, g, h1, g1, q, nq, h3, g3, p);
    }
    forall p | (p in g && g[p].level == g[left].level) || p == right ensures Beside(h, g, h4, g3, left, right, key, p) {
      assert Beside(h, g, h1, g1, left, right, key, p);
      BesideLater(h, g, h1, g1, left, right, key, p);
      assert SameInterval(g2[p], g1[p]);
      assert Same(h2, g2, h3, g3, p);
      BesideSplit(h, g, h1, g1, left, right, key, q, nq, h3, g3, p);
    }
  }

  lemma SameLevel(h: Heap, g: Infos, h1: Heap, g1: Infos, p: Ptr)
    requires Same(h, g, h1, g1, p)
    ensures p in g && p in g1 && p in h && p in h1 && g1[p] == g[p]
  {
  }

  lemma SplitGrows(h: Heap, h1: Heap, h3: Heap, q: Ptr, nq: Ptr, moved: seq<Ptr>)
    requires Grows(h, h1) && q in h1 && h1[q].Inner? && |h1[q].keys| == FANOUT - 1 && |h1[q].kids| == FANOUT
             && nq !in h1
    requires Grows(SplitHeap(h1, q, nq), h3)
    ensures Grows(h, Repaired(h3, moved, nq))
  {
    var h2 := SplitHeap(h1, q, nq);
    assert h1.Keys <= h2.Keys;
    forall p | p in h3 && p !in h ensures h3[p].Inner? {
      if p in h2 {
        assert h2[p].Inner?;
      }
    }
  }

  lemma SameSplit(h: Heap, g: Infos, h1: Heap, g1: Infos, q: Ptr, nq: Ptr, h3: Heap, g3: Infos, p: Ptr)
    requires Same(h, g, h1, g1, p)
    requires q in h1 && q in g1 && h1[q].Inner? && |h1[q].keys| == FANOUT - 1 && |h1[q].kids| == FANOUT && p != q
             && nq !in h1
    requires Shape(h1, g1, q) && g1[p].level + 1 < g1[q].level
    requires Same(SplitHeap(h1, q, nq), MovedInfo(g1, h1[q].kids[ORDER + 1..], nq), h3, g3, p)
    ensures Same(h, g, Repaired(h3, h1[q].kids[ORDER + 1..], nq), g3, p)
  {
    hide Covers;
    var moved := h1[q].kids[ORDER + 1..];
    if p in moved {
      assert p in h1[q].kids;
      KidIs(h1[q], g1, q, g1[q].level, g1[q].lo, g1[q].hi, p);
    }
  }

  lemma BesideLater(h: Heap, g: Infos, h1: Heap, g1: Infos, left: Ptr, right: Ptr, key: int, p: Ptr)
    requires left in g && Beside(h, g, h1, g1, left, right, key, p)
             && ((p in g && g[p].level == g[left].level) || p == right)
    ensures p in g1 && p in h1 && g1[p].level == g[left].level
  {
  }

  lemma BesideSplit(h: Heap, g: Infos, h1: Heap, g1: Infos, left: Ptr, right: Ptr, key: int, q: Ptr, nq: Ptr, h3: Heap,
      g3: Infos, p: Ptr)
    requires left in g && Beside(h, g, h1, g1, left, right, key, p)
    requires q in h1 && h1[q].Inner? && |h1[q].keys| == FANOUT - 1 && |h1[q].kids| == FANOUT && p != q && nq !in h1
    requires Same(SplitHeap(h1, q, nq), MovedInfo(g1, h1[q].kids[ORDER + 1..], nq), h3, g3, p)
    ensures Beside(h, g, Repaired(h3, h1[q].kids[ORDER + 1..], nq), g3, left, right, key, p)
  {
  }

  ghost predicate Below(h: Heap, top: Ptr) {
    NULL < top && forall p :: p in h ==> p < top
  }

  // ----- Leaves: inserting and splitting -----

  /** The tree after pairs were put into a leaf with room. */
  lemma LeafPut(h: Heap, g: Infos, root: Ptr, nlevel: nat, leaf: Ptr, es: seq<Pair>)
    requires Tree(h, g, root, nlevel, {}) && leaf in h && h[leaf].Leaf?
    requires Covers(h[leaf].(es := es), g, leaf, g[leaf].level, g[leaf].lo, g[leaf].hi)
    requires |h[leaf].es| <= |es| < FANOUT
    ensures Tree(h[leaf := h[leaf].(es := es)], g, root, nlevel, {})
  {
    hide Covers, Ups;
    var h' := h[leaf := h[leaf].(es := es)];
    forall p | p in g ensures Shape(h', g, p) {
      assert Shape(h, g, p);
    }
    UpsKept(h, h', g, root, nlevel);
    assert Filled(h[leaf], leaf == root);
  }

  function SplitLeafHeap(h: Heap, leaf: Ptr, es: seq<Pair>, right: Ptr): Heap
    requires leaf in h && h[leaf].Leaf? && |es| == FANOUT
  {
    h[leaf := Leaf(h[leaf].parent, es[..ORDER + 1], right)][right := Leaf(NULL, es[ORDER + 1..], h[leaf].next)]
  }

  /** The tree after a leaf overflowed and was split. */
  lemma LeafSplit(h: Heap, g: Infos, root: Ptr, nlevel: nat, leaf: Ptr, es: seq<Pair>, right: Ptr)
    requires Tree(h, g, root, nlevel, {}) && leaf in h && h[leaf].Leaf? && |es| == FANOUT && right !in h
             && right != NULL
    requires Covers(h[leaf].(es := es), g, leaf, g[leaf].level, g[leaf].lo, g[leaf].hi)
    ensures Pending(SplitLeafHeap(h, leaf, es, right), g, root, nlevel, {}, leaf, right, es[ORDER + 1].key)
  {
    var h', key := SplitLeafHeap(h, leaf, es, right), es[ORDER + 1].key;
    hide Covers, Ups, Fills, SplitLeafHeap;
    LeafSplitAt(h, leaf, es, right, root);
    HalvesCover(h[leaf], g, leaf, right, g[leaf].level, g[leaf].lo, g[leaf].hi, es);
    forall p | p in g && p != leaf ensures Shape(h', g, p) {
      assert Shape(h, g, p);
    }
    UpsKept(h, h', g, root, nlevel);
  }

  lemma LeafSplitAt(h: Heap, leaf: Ptr, es: seq<Pair>, right: Ptr, root: Ptr)
    requires leaf in h && h[leaf].Leaf? && |es| == FANOUT && right !in h && root in h && Fills(h, root)
    ensures var h' := SplitLeafHeap(h, leaf, es, right);
            && h'.Keys == h.Keys + {right}
            && h'[leaf] == Leaf(h[leaf].parent, es[..ORDER + 1], right)
            && h'[right] == Leaf(NULL, es[ORDER + 1..], h[leaf].next)
            && (forall p :: p in h && p != leaf ==> h'[p] == h[p])
            && Fills(h', root) && Filled(h'[leaf], false)
  {
  }

  lemma UpsKept(h: Heap, h': Heap, g: Infos, root: Ptr, nlevel: nat)
    requires g.Keys <= h.Keys <= h'.Keys && Ups(h, g, root, nlevel, {})
    requires forall p :: p in h ==> h'[p].parent == h[p].parent && (h[p].Inner? ==> h'[p] == h[p])
    ensures Ups(h', g, root, nlevel, {})
  {
    forall p | p in g ensures Placed(h', g, root, nlevel, p) && Linked(h', g, {}, p) {
      assert Placed(h, g, root, nlevel, p) && Linked(h, g, {}, p);
    }
  }

  lemma HalvesCover(n: Node, g: Infos, leaf: Ptr, right: Ptr, level: nat, lo: Ext, hi: Ext, es: seq<Pair>)
    requires n.Leaf? && |es| == FANOUT && Covers(n.(es := es), g, leaf, level, lo, hi)
    ensures Covers(Leaf(n.parent, es[..ORDER + 1], right), g, leaf, level, lo, Fin(es[ORDER + 1].key))
    ensures Covers(Leaf(NULL, es[ORDER + 1..], n.next), g, right, level, Fin(es[ORDER + 1].key), hi)
  {
    var ks, a, b, key := Keys(es), es[..ORDER + 1], es[ORDER + 1..], es[ORDER + 1].key;
    assert ks[0] < ks[ORDER + 1];
    assert forall i :: 0 <= i < |a| ==> Keys(a)[i] == ks[i];
    assert forall i :: 0 <= i < |b| ==> Keys(b)[i] == b[i].key == es[ORDER + 1 + i].key == ks[ORDER + 1 + i];
    assert Within(es[0].key, lo, hi) && Within(key, lo, hi);
    forall i | 0 <= i < |b| ensures Within(b[i].key, Fin(key), hi) {
      assert Within(es[ORDER + 1 + i].key, lo, hi);
      if i > 0 {
        assert ks[ORDER + 1] < ks[ORDER + 1 + i];
      }
    }
    forall i | 0 <= i < |a| ensures Within(a[i].key, lo, Fin(key)) {
      assert Within(es[i].key, lo, hi);
      assert ks[i] < ks[ORDER + 1];
    }
  }

  /** A leaf covers its interval also after a key of that interval was put into it. */
  lemma PutCovers(n: Node, g: Infos, p: Ptr, level: nat, lo: Ext, hi: Ext, k: int, vs: seq<int>)
    requires n.Leaf? && Covers(n, g, p, level, lo, hi) && Within(k, lo, hi)
    ensures Covers(n.(es := Put(n.es, k, vs)), g, p, level, lo, hi)
    ensures |n.es| <= |Put(n.es, k, vs)| <= |n.es| + 1
  {
    PutMeaning(n.es, k, vs);
    PutWithin(n.es, k, vs, lo, hi);
  }

  lemma {:induction false} PutWithin(s: seq<Pair>, k: int, vs: seq<int>, lo: Ext, hi: Ext)
    requires Within(k, lo, hi) && forall i :: 0 <= i < |s| ==> Within(s[i].key, lo, hi)
    ensures var t := Put(s, k, vs); forall i :: 0 <= i < |t| ==> Within(t[i].key, lo, hi)
  {
    if s != [] && s[0].key < k {
      PutWithin(s[1..], k, vs, lo, hi);
      assert Put(s, k, vs) == [s[0]] + Put(s[1..], k, vs);
    }
  }

  // ----- The chain after an insertion -----

  lemma TreeOrders(h: Heap, g: Infos, root: Ptr, nlevel: nat, leaves: seq<Ptr>)
    requires Tree(h, g, root, nlevel, {}) && Chain(h, g, leaves)
    ensures Ordered(h, g, leaves)
  {
    hide Covers, Ups, Fills;
    forall i | 0 <= i < |leaves| ensures Shape(h, g, leaves[i]) && (i > 0 ==> g[leaves[i - 1]].hi == g[leaves[i]].lo) {
      assert Link(h, g, leaves, i) && (i > 0 ==> Link(h, g, leaves, i - 1));
    }
    forall i | 0 <= i < |leaves| - 1 ensures g[leaves[i]].hi == g[leaves[i + 1]].lo {
      assert Link(h, g, leaves, i + 1);
    }
  }

  /** Each leaf occurs once in the chain. */
  lemma {:induction false} LeavesDiffer(h: Heap, g: Infos, leaves: seq<Ptr>, i: nat, j: nat)
    requires Ordered(h, g, leaves) && i < j < |leaves|
    ensures leaves[i] != leaves[j]
  {
    OrderedPart(h, g, leaves, i, j);
    var part := leaves[i..j];
    ContentsWithin(h, g, part);
    assert part[0] == leaves[i] && part[|part| - 1] == leaves[j - 1];
    assert g[leaves[j - 1]].hi == g[leaves[j]].lo;
  }

  lemma ChainPut(h: Heap, g: Infos, leaves: seq<Ptr>, j: nat, es: seq<Pair>)
    requires Ordered(h, g, leaves) && Chain(h, g, leaves) && j < |leaves|
    ensures var h' := h[leaves[j] := h[leaves[j]].(es := es)];
            && Chain(h', g, leaves)
            && Contents(h', leaves) == Contents(h, leaves[..j]) + es + Contents(h, leaves[j + 1..])
  {
    var p := leaves[j];
    var h' := h[p := h[p].(es := es)];
    forall i | 0 <= i < |leaves| && i != j ensures leaves[i] != p {
      LeavesDiffer(h, g, leaves, if i < j then i else j, if i < j then j else i);
    }
    forall i | 0 <= i < |leaves| ensures Link(h', g, leaves, i) {
      assert Link(h, g, leaves, i);
    }
    ContentsAt(h', leaves, j);
    ContentsFrame(h, h', leaves[..j]);
    ContentsFrame(h, h', leaves[j + 1..]);
  }

  function InsertedLeaf(leaves: seq<Ptr>, j: nat, right: Ptr): seq<Ptr>
    requires j < |leaves|
  {
    leaves[..j + 1] + [right] + leaves[j + 1..]
  }

  /** The other leaves keep their pairs; the two halves have the pairs of the full leaf. */
  lemma SplitFrame(h: Heap, g: Infos, h': Heap, leaves: seq<Ptr>, j: nat, es: seq<Pair>, right: Ptr)
    requires Ordered(h, g, leaves) && j < |leaves| && |es| == FANOUT && right !in h
    requires forall p ::
               p in SplitLeafHeap(h, leaves[j], es, right) && SplitLeafHeap(h, leaves[j], es, right)[p].Leaf? ==>
               p in h' && SetParent(h'[p], NULL) == SetParent(SplitLeafHeap(h, leaves[j], es, right)[p], NULL)
    ensures AllLeaves(h, leaves) && AllLeaves(h', leaves) && right in h' && h'[right].Leaf?
    ensures h'[leaves[j]].es == es[..ORDER + 1] && h'[right].es == es[ORDER + 1..]
    ensures forall i :: 0 <= i < |leaves| && i != j ==> h'[leaves[i]].es == h[leaves[i]].es
  {
    hide Contents;
    var h2, leaf := SplitLeafHeap(h, leaves[j], es, right), leaves[j];
    assert leaf in h2 && right in h2;
    forall i | 0 <= i < |leaves| && i != j
      ensures leaves[i] in h' && h'[leaves[i]].Leaf? && h'[leaves[i]].es == h[leaves[i]].es
    {
      LeavesDiffer(h, g, leaves, if i < j then i else j, if i < j then j else i);
      assert leaves[i] in h2 && h2[leaves[i]] == h[leaves[i]];
    }
  }

  lemma SplitContents(h: Heap, g: Infos, h': Heap, leaves: seq<Ptr>, j: nat, es: seq<Pair>, right: Ptr)
    requires Ordered(h, g, leaves) && j < |leaves| && |es| == FANOUT && right !in h
    requires forall p ::
               p in SplitLeafHeap(h, leaves[j], es, right) && SplitLeafHeap(h, leaves[j], es, right)[p].Leaf? ==>
               p in h' && SetParent(h'[p], NULL) == SetParent(SplitLeafHeap(h, leaves[j], es, right)[p], NULL)
    ensures var new' := InsertedLeaf(leaves, j, right);
            && AllLeaves(h', new') && AllLeaves(h, leaves[..j]) && AllLeaves(h, leaves[j + 1..])
            && Contents(h', new') == Contents(h, leaves[..j]) + es + Contents(h, leaves[j + 1..])
  {
    hide Contents, Ordered, SplitLeafHeap;
    var leaf, new' := leaves[j], InsertedLeaf(leaves, j, right);
    SplitFrame(h, g, h', leaves, j, es, right);
    assert new' == leaves[..j] + ([leaf, right] + leaves[j + 1..]);
    ContentsConcat(h', leaves[..j], [leaf, right] + leaves[j + 1..]);
    ContentsConcat(h', [leaf, right], leaves[j + 1..]);
    ContentsFrame(h, h', leaves[..j]);
    ContentsFrame(h, h', leaves[j + 1..]);
    TwoLeaves(h', leaf, right);
    assert es == es[..ORDER + 1] + es[ORDER + 1..];
  }

  lemma TwoLeaves(h: Heap, a: Ptr, b: Ptr)
    requires a in h && b in h && h[a].Leaf? && h[b].Leaf?
    ensures Contents(h, [a, b]) == h[a].es + h[b].es
  {
    assert [a, b][1..] == [b];
    assert [b][1..] == [];
    assert Contents(h, [b]) == h[b].es + Contents(h, []);
  }

  /** Leaf `p` has this link and interval. */
  ghost predicate At(h: Heap, g: Infos, p: Ptr, next: Ptr, lo: Ext, hi: Ext) {
    p in h && p in g && h[p].Leaf? && h[p].next == next && g[p].lo == lo && g[p].hi == hi
  }

  ghost predicate OldAt(g: Infos, h': Heap, g': Infos, leaves: seq<Ptr>, j: nat, key: int, right: Ptr, i: nat)
    requires i < |leaves|
  {
    && leaves[i] in g
    && At(h', g', leaves[i], if i == j then right else NextOf(leaves, i), StartOf(g, leaves, i),
          if i == j then Fin(key) else g[leaves[i]].hi)
  }

  /** One link of the chain after `right` was inserted behind leaf `j` at `key`. */
  lemma NewLink(h: Heap, g: Infos, h': Heap, g': Infos, leaves: seq<Ptr>, j: nat, key: int, right: Ptr, i: nat)
    requires j < |leaves| && i <= |leaves| && forall i :: 0 <= i < |leaves| ==> Link(h, g, leaves, i)
    requires forall i :: 0 <= i < |leaves| ==> OldAt(g, h', g', leaves, j, key, right, i)
    requires leaves[j] in g && At(h', g', right, NextOf(leaves, j), Fin(key), g[leaves[j]].hi)
    ensures Link(h', g', InsertedLeaf(leaves, j, right), i)
  {
    var new' := InsertedLeaf(leaves, j, right);
    var old' := if i <= j then i else i - 1;
    assert OldAt(g, h', g', leaves, j, key, right, old') && Link(h, g, leaves, old');
    assert i <= j ==> new'[i] == leaves[i];
    assert i == j + 1 ==> new'[i] == right && new'[j] == leaves[j];
    assert i > j + 1 ==> new'[i] == leaves[i - 1];
    if i > 0 {
      assert i <= j + 1 ==> new'[i - 1] == leaves[i - 1];
      assert i == j + 2 ==> new'[i - 1] == right;
      assert i > j + 2 ==> new'[i - 1] == leaves[i - 2];
      if i <= j + 1 {
        assert OldAt(g, h', g', leaves, j, key, right, i - 1);
      } else if i > j + 2 {
        assert OldAt(g, h', g', leaves, j, key, right, i - 2);
      }
    }
  }

  /** The chain of a tree in which leaf `j` was split and the new leaf linked in. */
  lemma ChainSplit(h: Heap, g: Infos, h': Heap, g': Infos, leaves: seq<Ptr>, j: nat, es: seq<Pair>, right: Ptr)
    requires Ordered(h, g, leaves) && Chain(h, g, leaves) && h.Keys == g.Keys
    requires j < |leaves| && |es| == FANOUT && right !in h
    requires Untouched(SplitLeafHeap(h, leaves[j], es, right), g, h', g', leaves[j], right, es[ORDER + 1].key)
    ensures Chain(h', g', InsertedLeaf(leaves, j, right))
    ensures AllLeaves(h, leaves[..j]) && AllLeaves(h, leaves[j + 1..])
    ensures Contents(h', InsertedLeaf(leaves, j, right)) == Contents(h, leaves[..j]) + es + Contents(h, leaves[j + 1..])
  {
    hide Shape, Contents, SplitLeafHeap, InsertedLeaf, Link;
    var key, new' := es[ORDER + 1].key, InsertedLeaf(leaves, j, right);
    LeavesBeside(h, g, h', g', leaves, j, es, right);
    SplitContents(h, g, h', leaves, j, es, right);
    forall i | 0 <= i < |leaves| ensures OldAt(g, h', g', leaves, j, key, right, i) {
      OldLeafAt(h, g, h', g', leaves, j, es, right, i);
    }
    RightLeafAt(h, g, h', g', leaves, j, es, right);
    InsertedLength(leaves, j, right);
    forall i | 0 <= i < |new'| ensures Link(h', g', new', i) {
      NewLink(h, g, h', g', leaves, j, key, right, i);
    }
    forall p | p in h' && h'[p].Leaf? ensures p in new' {
      LeafKnown(h, h', leaves, j, es, right, p);
    }
  }

  lemma InsertedLength(leaves: seq<Ptr>, j: nat, right: Ptr)
    requires j < |leaves|
    ensures |InsertedLeaf(leaves, j, right)| == |leaves| + 1
  {
  }

  lemma LeavesBeside(h: Heap, g: Infos, h': Heap, g': Infos, leaves: seq<Ptr>, j: nat, es: seq<Pair>, right: Ptr)
    requires Ordered(h, g, leaves) && Chain(h, g, leaves) && j < |leaves| && |es| == FANOUT && right !in h
    requires Untouched(SplitLeafHeap(h, leaves[j], es, right), g, h', g', leaves[j], right, es[ORDER + 1].key)
    ensures var h2 := SplitLeafHeap(h, leaves[j], es, right);
            forall p :: p in h2 && h2[p].Leaf? ==> p in h' && SetParent(h'[p], NULL) == SetParent(h2[p], NULL)
                                                   && Beside(h2, g, h', g', leaves[j], right, es[ORDER + 1].key, p)
  {
    hide Link, Grows;
    var h2 := SplitLeafHeap(h, leaves[j], es, right);
    forall p | p in h2 && h2[p].Leaf? ensures Beside(h2, g, h', g', leaves[j], right, es[ORDER + 1].key, p) {
      LeafLevel(h, g, leaves, leaves[j]);
      if p != right {
        LeafLevel(h, g, leaves, p);
      }
    }
  }

  lemma LeafLevel(h: Heap, g: Infos, leaves: seq<Ptr>, p: Ptr)
    requires Ordered(h, g, leaves) && Chain(h, g, leaves) && p in h && h[p].Leaf?
    ensures p in g && g[p].level == 1
  {
    var i :| 0 <= i < |leaves| && leaves[i] == p;
    assert Shape(h, g, leaves[i]);
  }

  lemma LeafKnown(h: Heap, h': Heap, leaves: seq<Ptr>, j: nat, es: seq<Pair>, right: Ptr, p: Ptr)
    requires j < |leaves| && |es| == FANOUT && right !in h && leaves[j] in h && h[leaves[j]].Leaf?
    requires (forall q :: q in h && h[q].Leaf? ==> q in leaves) && Grows(SplitLeafHeap(h, leaves[j], es, right), h')
    requires p in h' && h'[p].Leaf?
    ensures p in InsertedLeaf(leaves, j, right)
  {
    if p == right {
      assert InsertedLeaf(leaves, j, right)[j + 1] == p;
    } else {
      KidStays(leaves, j, right, p);
      assert InsertedLeaf(leaves, j, right) == InsertedKids(leaves, j, right);
    }
  }

  lemma OldLeafAt(h: Heap, g: Infos, h': Heap, g': Infos, leaves: seq<Ptr>, j: nat, es: seq<Pair>, right: Ptr, i: nat)
    requires Ordered(h, g, leaves) && j < |leaves| && i < |leaves| && |es| == FANOUT && right !in h
             && Link(h, g, leaves, i)
    requires var h2 := SplitLeafHeap(h, leaves[j], es, right);
             leaves[j] in g
               && forall p :: p in h2 && h2[p].Leaf? ==> Beside(h2, g, h', g', leaves[j], right, es[ORDER + 1].key, p)
    ensures OldAt(g, h', g', leaves, j, es[ORDER + 1].key, right, i)
  {
    hide Shape;
    if i != j {
      LeavesDiffer(h, g, leaves, if i < j then i else j, if i < j then j else i);
    }
    var h2 := SplitLeafHeap(h, leaves[j], es, right);
    assert leaves[i] in h2 && h2[leaves[i]].Leaf?;
    assert Beside(h2, g, h', g', leaves[j], right, es[ORDER + 1].key, leaves[i]);
  }

  lemma RightLeafAt(h: Heap, g: Infos, h': Heap, g': Infos, leaves: seq<Ptr>, j: nat, es: seq<Pair>, right: Ptr)
    requires Ordered(h, g, leaves) && j < |leaves| && |es| == FANOUT && right !in h && Link(h, g, leaves, j)
    requires var h2 := SplitLeafHeap(h, leaves[j], es, right);
             leaves[j] in g
               && forall p :: p in h2 && h2[p].Leaf? ==> Beside(h2, g, h', g', leaves[j], right, es[ORDER + 1].key, p)
    ensures leaves[j] in g && At(h', g', right, NextOf(leaves, j), Fin(es[ORDER + 1].key), g[leaves[j]].hi)
  {
    hide Shape;
    var h2 := SplitLeafHeap(h, leaves[j], es, right);
    assert right in h2 && h2[right].Leaf?;
    assert Beside(h2, g, h', g', leaves[j], right, es[ORDER + 1].key, right);
  }

  // ----- How many keys a tree of some height has at least -----

  function CountIn(s: seq<Pair>, lo: Ext, hi: Ext): nat {
    if s == [] then 0 else (if InInterval(s[0].key, lo, hi) then 1 else 0) + CountIn(s[1..], lo, hi)
  }

  predicate InInterval(k: int, lo: Ext, hi: Ext) {
    !Less(Fin(k), lo) && Less(Fin(k), hi)
  }

  lemma {:induction false} CountSplits(s: seq<Pair>, lo: Ext, mid: Ext, hi: Ext)
    requires !Less(mid, lo) && !Less(hi, mid)
    ensures CountIn(s, lo, hi) == CountIn(s, lo, mid) + CountIn(s, mid, hi)
  {
    if s != [] {
      CountSplits(s[1..], lo, mid, hi);
    }
  }

  lemma {:induction false} CountConcat(a: seq<Pair>, b: seq<Pair>, lo: Ext, hi: Ext)
    ensures CountIn(a + b, lo, hi) == CountIn(a, lo, hi) + CountIn(b, lo, hi)
  {
    if a == [] {
      assert a + b == b;
    } else {
      assert (a + b)[1..] == a[1..] + b;
      CountConcat(a[1..], b, lo, hi);
    }
  }

  lemma {:induction false} CountAll(s: seq<Pair>, lo: Ext, hi: Ext)
    requires forall i :: 0 <= i < |s| ==> Within(s[i].key, lo, hi)
    ensures CountIn(s, lo, hi) == |s|
  {
    if s != [] {
      CountAll(s[1..], lo, hi);
    }
  }

  /** Children `i` and up of a node together hold this many keys. */
  lemma {:induction false} CountKids(h: Heap, g: Infos, root: Ptr, nlevel: nat, leaves: seq<Ptr>, p: Ptr, i: nat)
    requires Tree(h, g, root, nlevel, {}) && Chain(h, g, leaves) && p in h && h[p].Inner? && i <= |h[p].keys|
    ensures g[p].level >= 2
    ensures CountIn(Contents(h, leaves), LoAt(g[p].lo, h[p].keys, i), g[p].hi)
            >= (|h[p].keys| + 1 - i) * Pow4(g[p].level - 1)
    decreases g[p].level, 0, |h[p].keys| - i
  {
    hide Link, Contents, Pow4, CountIn, Ups, Fills;
    var n, x, s := h[p], g[p], Contents(h, leaves);
    assert Shape(h, g, p);
    KidAt(n, g, p, x.level, x.lo, x.hi, i);
    var kid := n.kids[i];
    RootIs(h, g, root, nlevel, {});
    CountNode(h, g, root, nlevel, leaves, kid);
    if i < |n.keys| {
      CountKids(h, g, root, nlevel, leaves, p, i + 1);
      CountSplits(s, LoAt(x.lo, n.keys, i), Fin(n.keys[i]), x.hi);
      assert (|n.keys| + 1 - i) * Pow4(x.level - 1) == (|n.keys| + 1 - (i + 1)) * Pow4(x.level - 1) + Pow4(x.level - 1);
    }
  }

  /** A node below the root holds at least four to the power of its height many keys. */
  lemma {:induction false} CountNode(h: Heap, g: Infos, root: Ptr, nlevel: nat, leaves: seq<Ptr>, p: Ptr)
    requires Tree(h, g, root, nlevel, {}) && Chain(h, g, leaves) && p in h && p != root
    ensures CountIn(Contents(h, leaves), g[p].lo, g[p].hi) >= Pow4(g[p].level)
    decreases g[p].level, 1, 0
  {
    hide Tree, Link, Contents, CountIn;
    NodeFacts(h, g, root, nlevel, p);
    if h[p].Leaf? {
      CountLeaf(h, leaves, p, g[p].lo, g[p].hi);
    } else {
      CountKids(h, g, root, nlevel, leaves, p, 0);
      AtLeastFour(|h[p].keys| + 1, Pow4(g[p].level - 1));
    }
  }

  lemma NodeFacts(h: Heap, g: Infos, root: Ptr, nlevel: nat, p: Ptr)
    requires Tree(h, g, root, nlevel, {}) && p in h && p != root
    ensures p in g
    ensures h[p].Leaf? ==>
              && g[p].level == 1 && |h[p].es| >= 4
              && forall i :: 0 <= i < |h[p].es| ==> Within(h[p].es[i].key, g[p].lo, g[p].hi)
    ensures h[p].Inner? ==> g[p].level >= 2 && |h[p].keys| >= 3
  {
    assert Shape(h, g, p) && Filled(h[p], false);
  }

  lemma AtLeastFour(n: nat, x: nat)
    requires n >= 4
    ensures n * x >= 4 * x
  {
  }

  lemma CountLeaf(h: Heap, leaves: seq<Ptr>, p: Ptr, lo: Ext, hi: Ext)
    requires AllLeaves(h, leaves) && p in leaves && forall i :: 0 <= i < |h[p].es| ==> Within(h[p].es[i].key, lo, hi)
    ensures CountIn(Contents(h, leaves), lo, hi) >= |h[p].es|
  {
    hide Within;
    var j :| 0 <= j < |leaves| && leaves[j] == p;
    ContentsAt(h, leaves, j);
    var a, es, b := Contents(h, leaves[..j]), h[p].es, Contents(h, leaves[j + 1..]);
    CountConcat(a + es, b, lo, hi);
    CountConcat(a, es, lo, hi);
    CountAll(es, lo, hi);
  }

  /** The height of the tree is logarithmic in the number of keys: two levels hold at least eight keys,
      and each further level four times as many. */
  lemma HeightBound(h: Heap, g: Infos, root: Ptr, nlevel: nat, leaves: seq<Ptr>)
    requires Tree(h, g, root, nlevel, {}) && Chain(h, g, leaves) && AllLeaves(h, leaves) && nlevel >= 2
    ensures |Contents(h, leaves)| >= 2 * Pow4(nlevel - 1)
  {
    hide Chain, Contents, CountIn, Tree, Pow4;
    RootInner(h, g, root, nlevel);
    CountKids(h, g, root, nlevel, leaves, root, 0);
    CountAll(Contents(h, leaves), NegInf, PosInf);
    AtLeastTwo(|h[root].keys| + 1, Pow4(nlevel - 1));
  }

  lemma AtLeastTwo(n: nat, x: nat)
    requires n >= 2
    ensures n * x >= 2 * x
  {
  }

  lemma RootInner(h: Heap, g: Infos, root: Ptr, nlevel: nat)
    requires Tree(h, g, root, nlevel, {}) && nlevel >= 2
    ensures root in h && root in g && h[root].Inner? && |h[root].keys| >= 1
            && g[root] == Info(nlevel, NegInf, PosInf, NULL)
  {
    hide Ups;
    RootIs(h, g, root, nlevel, {});
    assert Shape(h, g, root) && Filled(h[root], true);
  }

  // ----- The tree -----

  class BPlusTree {
    var heap: Heap
    var root: Ptr
    var nk: nat
    var nlevel: nat
    var top: Ptr
    ghost var info: Infos
    ghost var leaves: seq<Ptr>

    ghost predicate Valid()
      reads this
    {
      && Below(heap, top)
      && if nlevel == 0 then heap == map[] && leaves == [] && nk == 0
         else Tree(heap, info, root, nlevel, {}) && Chain(heap, info, leaves) && nk == |Contents(heap, leaves)|
    }

    /** The pairs in key order. */
    ghost function Pairs(): seq<Pair>
      reads this
      requires Valid()
    {
      Contents(heap, leaves)
    }

    constructor ()
      ensures Valid() && Pairs() == []
    {
      heap, root, nk, nlevel, top, info, leaves := map[], NULL, 0, 0, 1, map[], [];
    }

    ghost predicate Sound()
      reads this
    {
      Below(heap, top) && Tree(heap, info, root, nlevel, {}) && Chain(heap, info, leaves) && nlevel > 0
    }

    /** Finds the leaf responsible for a key; an empty tree gets its first leaf. */
    method GetLeaf(k: int) returns (leaf: Ptr)
      requires Valid()
      modifies this`heap, this`root, this`nlevel, this`top, this`info, this`leaves
      ensures Sound() && Contents(heap, leaves) == old(Pairs())
      ensures leaf in heap && leaf in info && heap[leaf].Leaf? && Within(k, info[leaf].lo, info[leaf].hi)
    {
      if nlevel == 0 {
        FirstLeafTree(top);
        heap, info, leaves := map[top := Leaf(NULL, [], NULL)], map[top := Info(1, NegInf, PosInf, NULL)], [top];
        root, nlevel, top := top, 1, top + 1;
        return root;
      }
      hide Chain, Contents, Below, Tree;
      leaf := Descend(k);
    }

    method Descend(k: int) returns (leaf: Ptr)
      requires Tree(heap, info, root, nlevel, {}) && nlevel > 0
      ensures leaf in heap && leaf in info && heap[leaf].Leaf? && Within(k, info[leaf].lo, info[leaf].hi)
    {
      hide Tree, Covers;
      var node := root;
      RootFacts(heap, info, root, nlevel);
      for i := 0 to nlevel - 1
        invariant node in heap && node in info && info[node].level == nlevel - i
                  && Within(k, info[node].lo, info[node].hi)
      {
        InnerFacts(heap, info, root, nlevel, node);
        var pos := UpperBound(k, heap[node].keys);
        DownTo(heap[node], info, node, info[node].level, info[node].lo, info[node].hi, k, pos);
        node := heap[node].kids[pos];
      }
      InnerFacts(heap, info, root, nlevel, node);
      leaf := node;
    }

    /** Links `right`, split off `left` at `key`, into the tree above; splits nodes that get too full,
        all the way up to a new root. The children of a node split off on the way keep a wrong link until
        the levels above are done. */
    method InsertInternal(key: int, left: Ptr, right: Ptr, ghost stale: set<Ptr>)
      requires Pending(heap, info, root, nlevel, stale, left, right, key) && Below(heap, top)
      modifies this`heap, this`root, this`nlevel, this`top, this`info
      ensures Tree(heap, info, root, nlevel, stale) && Below(heap, top) && nlevel >= old(nlevel)
      ensures Untouched(old(heap), old(info), heap, info, left, right, key)
      decreases nlevel - info[left].level, 0
    {
      hide *;
      PendingFacts(heap, info, root, nlevel, stale, left, right, key);
      Above(heap, info, root, nlevel, stale, left, right, key);
      var parent := heap[left].parent;
      if parent == NULL {
        GrowRoot(key, left, right, stale);
      } else {
        ghost var h0, g0 := heap, info;
        AddChild(key, left, right, parent, stale);
        ghost var h1, g1 := heap, info;
        CrowdedFacts(h1, g1, root, nlevel, stale, parent);
        if |heap[parent].keys| == FANOUT - 1 {
          ghost var newkey, newparent, h3 := SplitUp(parent, stale);
          UntouchedSplit(h0, g0, h1, g1, left, right, key, parent, newparent, newkey, h3, info);
        } else {
          RoomLeft(heap, info, root, nlevel, stale, parent);
        }
      }
    }

    method GrowRoot(key: int, left: Ptr, right: Ptr, ghost stale: set<Ptr>)
      requires Pending(heap, info, root, nlevel, stale, left, right, key) && Below(heap, top) && left == root
      modifies this`heap, this`root, this`nlevel, this`top, this`info
      ensures Tree(heap, info, root, nlevel, stale) && Below(heap, top) && nlevel == old(nlevel) + 1
      ensures left in old(info) && Untouched(old(heap), old(info), heap, info, left, right, key)
    {
      hide Tree, Untouched, Pending, NewRootHeap, NewRootInfo;
      PendingFacts(heap, info, root, nlevel, stale, left, right, key);
      var newroot := top;
      NewRoot(heap, info, root, nlevel, stale, left, right, key, newroot);
      NewRootAt(heap, info, left, right, key, newroot);
      UntouchedNewRoot(heap, info, left, right, key, newroot);
      heap, info := NewRootHeap(heap, left, right, key, newroot), NewRootInfo(info, left, right, key, newroot);
      root, nlevel, top := newroot, nlevel + 1, top + 1;
    }

    method AddChild(key: int, left: Ptr, right: Ptr, parent: Ptr, ghost stale: set<Ptr>)
      requires Pending(heap, info, root, nlevel, stale, left, right, key) && Below(heap, top)
      requires left in info && left != root && parent == info[left].up
      modifies this`heap, this`info
      ensures Crowded(heap, info, root, nlevel, stale, parent) && Below(heap, top)
              && info.Keys == old(info.Keys) + {right}
      ensures Untouched(old(heap), old(info), heap, info, left, right, key)
      ensures parent in info && info[parent].level == old(info)[left].level + 1
      ensures forall p :: p in stale ==> p in info && info[p].level <= info[parent].level
    {
      hide Untouched, Pending, Crowded, JoinHeap, JoinInfo;
      PendingFacts(heap, info, root, nlevel, stale, left, right, key);
      Above(heap, info, root, nlevel, stale, left, right, key);
      var ikey := UpperBound(key, heap[parent].keys);
      Join(heap, info, root, nlevel, stale, left, right, key, parent, ikey);
      UntouchedJoin(heap, info, left, right, key, parent, ikey);
      JoinAt(heap, info, left, right, key, parent, ikey);
      heap, info := JoinHeap(heap, parent, ikey, key, right), JoinInfo(info, left, right, key);
    }

    /** Stores the pairs of a leaf after an insertion; a leaf that got too full is split. */
    method Store(leaf: Ptr, es: seq<Pair>, ghost k: int, ghost vs: seq<int>)
      requires Sound() && leaf in heap && leaf in info && heap[leaf].Leaf?
      requires Within(k, info[leaf].lo, info[leaf].hi) && es == Put(heap[leaf].es, k, vs)
      modifies this`heap, this`root, this`nlevel, this`top, this`info, this`leaves
      ensures Sound() && Contents(heap, leaves) == Put(old(Contents(heap, leaves)), k, vs)
    {
      hide Tree, Pending, Contents, Put, Covers, Within, SplitLeafHeap, Link, Untouched;
      InnerFacts(heap, info, root, nlevel, leaf);
      FillFacts(heap, info, root, nlevel, leaf);
      PutCovers(heap[leaf], info, leaf, info[leaf].level, info[leaf].lo, info[leaf].hi, k, vs);
      TreeOrders(heap, info, root, nlevel, leaves);
      ghost var j :| 0 <= j < |leaves| && leaves[j] == leaf;
      PutInLeaf(heap, info, leaves, j, k, vs);
      if |es| == FANOUT {
        ghost var h, g := heap, info;
        var right := top;
        LeafSplit(heap, info, root, nlevel, leaf, es, right);
        SplitKeys(heap, leaf, es, right);
        heap := SplitLeafHeap(heap, leaf, es, right);
        top := top + 1;
        InsertInternal(es[ORDER + 1].key, leaf, right, {});
        ChainSplit(h, g, heap, info, leaves, j, es, right);
        leaves := InsertedLeaf(leaves, j, right);
      } else {
        LeafPut(heap, info, root, nlevel, leaf, es);
        ChainPut(heap, info, leaves, j, es);
        heap := heap[leaf := heap[leaf].(es := es)];
      }
    }

    /** Adds a value to a key, which is inserted if it is new. */
    method InsertSorted(k: int, v: int) returns (isNew: bool)
      requires Valid()
      modifies this
      ensures Valid() && Pairs() == Put(old(Pairs()), k, [v])
      ensures isNew <==> k !in Meaning(old(Pairs()))
    {
      hide Tree, Contents, Put, Covers, Within, Link;
      ghost var before := Pairs();
      NoLeaves(heap);
      ValidIncreasing();
      var leaf := GetLeaf(k);
      var es := heap[leaf].es;
      InnerFacts(heap, info, root, nlevel, leaf);
      LeafIncreasing(heap[leaf], info, leaf, info[leaf].level, info[leaf].lo, info[leaf].hi);
      var pos, found := LowerBound(k, Keys(es));
      PutAt(es, k, [v], pos);
      assert [] + [v] == [v];
      if !found {
        es := es[..pos] + [Pair(k, [])] + es[pos..];
        nk := nk + 1;
      }
      es := es[pos := Pair(es[pos].key, es[pos].vals + [v])];
      assert found ==> es == heap[leaf].es[pos := Pair(k, heap[leaf].es[pos].vals + [v])];
      assert !found ==> es == heap[leaf].es[..pos] + [Pair(k, [v])] + heap[leaf].es[pos..];
      FoundIff(k, leaf);
      Store(leaf, es, k, [v]);
      PutMeaning(before, k, [v]);
      isNew := !found;
    }

    lemma ValidIncreasing()
      requires Valid()
      ensures Increasing(Keys(Pairs()))
    {
      if nlevel > 0 {
        TreeOrders(heap, info, root, nlevel, leaves);
        ContentsIncreasing(heap, info, leaves);
      }
    }

    /** A key is in the tree exactly if it is in the leaf responsible for it. */
    lemma FoundIff(k: int, leaf: Ptr)
      requires Sound() && leaf in heap && leaf in info && heap[leaf].Leaf? && Within(k, info[leaf].lo, info[leaf].hi)
      ensures k in Meaning(Contents(heap, leaves)) <==> k in Keys(heap[leaf].es)
    {
      hide Contents, Link, Put, Tree;
      TreeOrders(heap, info, root, nlevel, leaves);
      InnerFacts(heap, info, root, nlevel, leaf);
      ContentsIncreasing(heap, info, leaves);
      ghost var j :| 0 <= j < |leaves| && leaves[j] == leaf;
      PutInLeaf(heap, info, leaves, j, k, []);
      ContentsAt(heap, leaves, j);
      var es := heap[leaf].es;
      LeafIncreasing(heap[leaf], info, leaf, info[leaf].level, info[leaf].lo, info[leaf].hi);
      PutMeaning(Contents(heap, leaves), k, []);
      PutMeaning(es, k, []);
      MeaningKeys(es, k);
    }

    /** Inserts a pair whose key must be new. */
    method Insert(p: Pair)
      requires Valid() && p.key !in Meaning(Pairs())
      modifies this
      ensures Valid() && Pairs() == Put(old(Pairs()), p.key, p.vals)
    {
      hide Tree, Contents, Put, Covers, Within, Link;
      ghost var before := Pairs();
      NoLeaves(heap);
      ValidIncreasing();
      var leaf := GetLeaf(p.key);
      var es := heap[leaf].es;
      InnerFacts(heap, info, root, nlevel, leaf);
      LeafIncreasing(heap[leaf], info, leaf, info[leaf].level, info[leaf].lo, info[leaf].hi);
      var pos, found := LowerBound(p.key, Keys(es));
      FoundIff(p.key, leaf);
      assert !found;
      PutAt(es, p.key, p.vals, pos);
      nk := nk + 1;
      assert Pair(p.key, p.vals) == p;
      Store(leaf, es[..pos] + [p] + es[pos..], p.key, p.vals);
      PutMeaning(before, p.key, p.vals);
    }

    /** The leftmost leaf, or NULL when there is no key. */
    method FirstLeaf() returns (leaf: Ptr)
      requires Valid()
      ensures nk == 0 ==> leaf == NULL
      ensures nk > 0 ==> leaves != [] && leaf == leaves[0]
    {
      if nk == 0 {
        return NULL;
      }
      hide Tree, Covers, Contents;
      var node := root;
      NoLeaves(heap);
      RootFacts(heap, info, root, nlevel);
      for i := 0 to nlevel - 1
        invariant node in heap && node in info && info[node].level == nlevel - i && info[node].lo == NegInf
      {
        InnerFacts(heap, info, root, nlevel, node);
        KidAt(heap[node], info, node, info[node].level, info[node].lo, info[node].hi, 0);
        node := heap[node].kids[0];
      }
      InnerFacts(heap, info, root, nlevel, node);
      TreeOrders(heap, info, root, nlevel, leaves);
      OnlyFirst(heap, info, leaves, node);
      leaf := node;
    }

    /** Copies all pairs by following the chain of leaves. The number copied is the number of keys. */
    method CopyTraverse() returns (dst: seq<Pair>, n: nat)
      requires Valid()
      ensures dst == Pairs() && n == nk == |dst|
    {
      hide Tree, Contents, Link;
      dst, n := [], 0;
      NoLeaves(heap);
      if nlevel == 0 {
        return;
      }
      var leaf := FirstLeaf();
      if nk > 0 {
        dst, n := CopyLeaves(leaf);
      }
    }

    method CopyLeaves(first: Ptr) returns (dst: seq<Pair>, n: nat)
      requires Valid() && nlevel > 0 && leaves != [] && first == leaves[0]
      ensures dst == Pairs() && n == nk == |dst|
    {
      hide Tree, Contents, Link;
      dst, n := [], 0;
      var leaf := first;
      ghost var i := 0;
      assert leaves[0..] == leaves;
      NotNull(heap, info, root, nlevel);
      while leaf != NULL
        invariant i <= |leaves| && leaf == if i < |leaves| then leaves[i] else NULL
        invariant AllLeaves(heap, leaves[i..]) && dst + Contents(heap, leaves[i..]) == Pairs() && n == |dst|
        decreases |leaves| - i
      {
        NextLeaf(heap, info, leaves, i);
        dst := dst + heap[leaf].es;
        n := n + |heap[leaf].es|;
        leaf := heap[leaf].next;
        i := i + 1;
      }
      NoLeaves(heap);
      assert leaves[|leaves|..] == [];
    }

    /** Hands all pairs over and leaves the tree empty. */
    method Transfer() returns (dst: seq<Pair>)
      requires Valid()
      modifies this
      ensures dst == old(Pairs()) && Valid() && Pairs() == []
    {
      hide Tree, Contents, Link;
      var n;
      dst, n := CopyTraverse();
      NoLeaves(map[]);
      heap, root, nk, nlevel, info, leaves := map[], NULL, 0, 0, map[], [];
    }

    /** Splits a node that is too full and links the new half in above. The links of the children that
        moved are corrected only afterwards. */
    method SplitUp(parent: Ptr, ghost stale: set<Ptr>) returns (ghost newkey: int, ghost newparent: Ptr, ghost h3: Heap)
      requires Crowded(heap, info, root, nlevel, stale, parent) && |heap[parent].keys| == FANOUT - 1 && Below(heap, top)
      requires |heap[parent].kids| == FANOUT && info[parent].level <= nlevel
      requires forall p :: p in stale ==> p in info && info[p].level <= info[parent].level
      modifies this`heap, this`root, this`nlevel, this`top, this`info
      ensures Tree(heap, info, root, nlevel, stale) && Below(heap, top) && nlevel >= old(nlevel)
      ensures newparent !in old(heap) && parent in old(info)
      ensures Untouched(SplitHeap(old(heap), parent, newparent),
                        MovedInfo(old(info), old(heap)[parent].kids[ORDER + 1..], newparent), h3, info,
                        parent, newparent, newkey)
      ensures heap == Repaired(h3, old(heap)[parent].kids[ORDER + 1..], newparent)
      decreases nlevel - info[parent].level, 1
    {
      hide Tree, Untouched, Crowded, Pending, Shape, SplitHeap, MovedInfo;
      CrowdedFacts(heap, info, root, nlevel, stale, parent);
      var midkey, right := heap[parent].keys[ORDER], top;
      ghost var moved := heap[parent].kids[ORDER + 1..];
      newkey, newparent := midkey, right;
      SplitInner(heap, info, root, nlevel, stale, parent, right);
      SplitAt(heap, info, parent, right, moved);
      heap, info := SplitHeap(heap, parent, right), MovedInfo(info, moved, right);
      top := top + 1;
      ghost var h2, g2 := heap, info;
      InsertInternal(midkey, parent, right, stale + {right});
      StillThere(h2, g2, heap, info, parent, right, midkey);
      h3 := heap;
      RepairLinks(right, stale);
    }

    /** Corrects the links of the children of a node. */
    method RepairLinks(newparent: Ptr, ghost stale: set<Ptr>)
      requires Tree(heap, info, root, nlevel, stale + {newparent}) && newparent in heap && heap[newparent].Inner?
               && Below(heap, top)
      modifies this`heap
      ensures Tree(heap, info, root, nlevel, stale) && Below(heap, top)
      ensures heap == Repaired(old(heap), old(heap)[newparent].kids, newparent)
    {
      hide Tree, Repaired;
      var kids := heap[newparent].kids;
      RepairAt(heap, kids, newparent);
      Repair(heap, info, root, nlevel, stale, newparent);
      KidsInHeap(heap, info, root, nlevel, stale + {newparent}, newparent);
      RepairNone(heap, newparent);
      assert kids[..0] == [];
      for i := 0 to |kids|
        invariant heap == Repaired(old(heap), kids[..i], newparent)
      {
        RepairAt(old(heap), kids[..i], newparent);
        RepairOne(old(heap), kids, newparent, i);
        heap := heap[kids[i] := SetParent(heap[kids[i]], newparent)];
      }
      assert kids[..|kids|] == kids;
    }
  }

  lemma RootFacts(h: Heap, g: Infos, root: Ptr, nlevel: nat)
    requires Tree(h, g, root, nlevel, {})
    ensures root in h && root in g && h.Keys == g.Keys && g[root] == Info(nlevel, NegInf, PosInf, NULL)
  {
    RootIs(h, g, root, nlevel, {});
  }

  lemma InnerFacts(h: Heap, g: Infos, root: Ptr, nlevel: nat, p: Ptr)
    requires Tree(h, g, root, nlevel, {}) && p in h
    ensures p in g && h.Keys == g.Keys && (h[p].Leaf? <==> g[p].level == 1)
    ensures Covers(h[p], g, p, g[p].level, g[p].lo, g[p].hi)
    ensures h[p].Inner? ==> Increasing(h[p].keys) && |h[p].kids| == |h[p].keys| + 1
  {
    assert Shape(h, g, p);
  }

  /** The child found by searching for a key is responsible for it. */
  lemma DownTo(n: Node, g: Infos, p: Ptr, level: nat, lo: Ext, hi: Ext, k: int, i: nat)
    requires Covers(n, g, p, level, lo, hi) && n.Inner? && i <= |n.keys| && |n.kids| == |n.keys| + 1
             && Within(k, lo, hi)
    requires (forall j :: 0 <= j < i ==> n.keys[j] <= k) && (forall j :: i <= j < |n.keys| ==> k < n.keys[j])
    ensures var kid := n.kids[i]; kid in g && g[kid].level == level - 1 && Within(k, g[kid].lo, g[kid].hi)
  {
    hide Covers;
    KidAt(n, g, p, level, lo, hi, i);
  }

  lemma NoLeaves(h: Heap)
    ensures Contents(h, []) == []
  {
  }

  lemma NextLeaf(h: Heap, g: Infos, leaves: seq<Ptr>, i: nat)
    requires Chain(h, g, leaves) && i < |leaves| && AllLeaves(h, leaves[i..])
    ensures AllLeaves(h, leaves[i + 1..]) && Contents(h, leaves[i..]) == h[leaves[i]].es + Contents(h, leaves[i + 1..])
    ensures h[leaves[i]].next == NextOf(leaves, i)
  {
    assert Link(h, g, leaves, i);
    assert leaves[i..][1..] == leaves[i + 1..];
  }

  lemma NotNull(h: Heap, g: Infos, root: Ptr, nlevel: nat)
    requires Tree(h, g, root, nlevel, {})
    ensures NULL !in h
  {
  }

  /** Only the first leaf has no lower bound. */
  lemma OnlyFirst(h: Heap, g: Infos, leaves: seq<Ptr>, p: Ptr)
    requires Ordered(h, g, leaves) && Chain(h, g, leaves) && p in h && h[p].Leaf? && p in g && g[p].lo == NegInf
    ensures p == leaves[0]
  {
    var i :| 0 <= i < |leaves| && leaves[i] == p;
    if i > 0 {
      LaterBounded(h, g, leaves, i);
    }
  }

  lemma LaterBounded(h: Heap, g: Infos, leaves: seq<Ptr>, i: nat)
    requires Ordered(h, g, leaves) && Chain(h, g, leaves) && 0 < i < |leaves|
    ensures leaves[i] in g && g[leaves[i]].lo != NegInf
  {
    assert Link(h, g, leaves, i) && Link(h, g, leaves, i - 1) && Shape(h, g, leaves[i - 1]);
  }

  lemma FillFacts(h: Heap, g: Infos, root: Ptr, nlevel: nat, p: Ptr)
    requires Tree(h, g, root, nlevel, {}) && p in h && h[p].Leaf?
    ensures |h[p].es| < FANOUT
  {
    assert Filled(h[p], p == root);
  }

  lemma SplitKeys(h: Heap, leaf: Ptr, es: seq<Pair>, right: Ptr)
    requires leaf in h && h[leaf].Leaf? && |es| == FANOUT
    ensures SplitLeafHeap(h, leaf, es, right).Keys == h.Keys + {right}
  {
  }

  lemma LeafIncreasing(n: Node, g: Infos, p: Ptr, level: nat, lo: Ext, hi: Ext)
    requires Covers(n, g, p, level, lo, hi) && n.Leaf?
    ensures Increasing(Keys(n.es))
  {
  }

  lemma FirstLeafTree(p: Ptr)
    requires p != NULL
    ensures var h, g := map[p := Leaf(NULL, [], NULL)], map[p := Info(1, NegInf, PosInf, NULL)];
            Tree(h, g, p, 1, {}) && Chain(h, g, [p]) && Contents(h, [p]) == []
  {
    var h, g := map[p := Leaf(NULL, [], NULL)], map[p := Info(1, NegInf, PosInf, NULL)];
    assert Link(h, g, [p], 0);
    assert [p][1..] == [];
    assert Contents(h, [p]) == h[p].es + Contents(h, []);
  }

  lemma PendingFacts(h: Heap, g: Infos, root: Ptr, nlevel: nat, stale: set<Ptr>, left: Ptr, right: Ptr, key: int)
    requires Pending(h, g, root, nlevel, stale, left, right, key)
    ensures h.Keys == g.Keys + {right} && right !in g && NULL !in h && left in g && root in g && g.Keys <= h.Keys
    ensures forall q :: q in stale ==> (q in g && g[q].level <= g[left].level) || q == right
    ensures left != root ==> g[left].up in h && h[g[left].up].Inner? && Increasing(h[g[left].up].keys)
    ensures Ups(h, g, root, nlevel, stale)
  {
    Above(h, g, root, nlevel, stale, left, right, key);
  }

  lemma JoinAt(h: Heap, g: Infos, left: Ptr, right: Ptr, key: int, q: Ptr, i: nat)
    requires h.Keys == g.Keys + {right} && left in g && right !in g && q in g && q != left && q != right
    requires h[q].Inner? && i <= |h[q].keys| && i < |h[q].kids|
    ensures JoinHeap(h, q, i, key, right).Keys == h.Keys && JoinInfo(g, left, right, key).Keys == h.Keys
    ensures JoinInfo(g, left, right, key)[q] == g[q] && JoinHeap(h, q, i, key, right)[q].Inner?
    ensures forall p :: p in g ==> JoinInfo(g, left, right, key)[p].level == g[p].level
    ensures JoinInfo(g, left, right, key)[right].level == g[left].level
  {
  }

  lemma StillThere(h: Heap, g: Infos, h': Heap, g': Infos, left: Ptr, right: Ptr, key: int)
    requires left in g && right in h && h[right].Inner? && Untouched(h, g, h', g', left, right, key)
    ensures right in h' && h'[right].Inner? && h'[right].kids == h[right].kids
  {
    assert Beside(h, g, h', g', left, right, key, right);
  }

  lemma CrowdedFacts(h: Heap, g: Infos, root: Ptr, nlevel: nat, stale: set<Ptr>, q: Ptr)
    requires Crowded(h, g, root, nlevel, stale, q)
    ensures h.Keys == g.Keys && q in h && h[q].Inner? && Shape(h, g, q) && |h[q].kids| == |h[q].keys| + 1
    ensures g[q].level <= nlevel && |h[q].keys| < FANOUT
  {
    assert Shape(h, g, q) && Placed(h, g, root, nlevel, q);
  }

  lemma KidsInHeap(h: Heap, g: Infos, root: Ptr, nlevel: nat, stale: set<Ptr>, q: Ptr)
    requires Tree(h, g, root, nlevel, stale) && q in h && h[q].Inner?
    ensures forall i :: 0 <= i < |h[q].kids| ==> h[q].kids[i] in h
  {
    assert Shape(h, g, q);
    forall i | 0 <= i < |h[q].kids| ensures h[q].kids[i] in h {
      KidAt(h[q], g, q, g[q].level, g[q].lo, g[q].hi, i);
    }
  }
}
