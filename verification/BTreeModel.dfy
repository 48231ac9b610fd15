/** The B+ tree as a heap of nodes with links up, down and along the leaves. */
module BTreeModel {
  import opened BSearch

  /** Addresses; NULL is no address of a node. */
  type Ptr = nat
  const NULL: Ptr := 0

  /** A key with the values inserted for it. */
  datatype Pair = Pair(key: int, vals: seq<int>)

  /** A leaf with its pairs and the next leaf, or an inner node with separators and children. */
  datatype Node =
    | Leaf(parent: Ptr, es: seq<Pair>, next: Ptr)
    | Inner(parent: Ptr, keys: seq<int>, kids: seq<Ptr>)

  type Heap = map<Ptr, Node>

  const ORDER: nat := 3
  const FANOUT: nat := 8

  // ----- What a node is responsible for -----

  datatype Ext = NegInf | Fin(k: int) | PosInf

  predicate Less(a: Ext, b: Ext) {
    a != b && (a.NegInf? || b.PosInf? || (a.Fin? && b.Fin? && a.k < b.k))
  }

  /** For every node its height, the interval of keys it covers, and the node that has it as a child. */
  datatype Info = Info(level: nat, lo: Ext, hi: Ext, up: Ptr)
  type Infos = map<Ptr, Info>

  function Keys(es: seq<Pair>): (ks: seq<int>)
    ensures |ks| == |es| && forall i :: 0 <= i < |es| ==> ks[i] == es[i].key
  {
    seq(|es|, i requires 0 <= i < |es| => es[i].key)
  }

  ghost predicate Within(k: int, lo: Ext, hi: Ext) {
    !Less(Fin(k), lo) && Less(Fin(k), hi)
  }

  /** The interval of child `i`. */
  function LoAt(lo: Ext, keys: seq<int>, i: nat): Ext
    requires i <= |keys|
  {
    if i == 0 then lo else Fin(keys[i - 1])
  }

  function HiAt(hi: Ext, keys: seq<int>, i: nat): Ext
    requires i <= |keys|
  {
    if i == |keys| then hi else Fin(keys[i])
  }

  ghost predicate KidOk(g: Infos, p: Ptr, level: nat, lo: Ext, hi: Ext, keys: seq<int>, i: nat, kid: Ptr)
    requires i <= |keys|
  {
    level > 0 && kid in g && g[kid] == Info(level - 1, LoAt(lo, keys, i), HiAt(hi, keys, i), p)
  }

  /** What must hold of node `n` at address `p` and its children for it to cover the keys from `lo` to
      `hi` at height `level`, links to parents aside. */
  ghost predicate Covers(n: Node, g: Infos, p: Ptr, level: nat, lo: Ext, hi: Ext) {
    && Less(lo, hi)
    && match n {
         case Leaf(_, es, _) =>
           level == 1 && Increasing(Keys(es)) && forall i :: 0 <= i < |es| ==> Within(es[i].key, lo, hi)
         case Inner(_, keys, kids) =>
           && level >= 2 && |kids| == |keys| + 1 && Increasing(keys)
           && (forall i :: 0 <= i < |keys| ==> Less(lo, Fin(keys[i])) && Less(Fin(keys[i]), hi))
           && (forall i :: 0 <= i < |kids| ==> KidOk(g, p, level, lo, hi, keys, i, kids[i]))
       }
  }

  ghost predicate Shape(h: Heap, g: Infos, p: Ptr)
    requires p in h && p in g
  {
    Covers(h[p], g, p, g[p].level, g[p].lo, g[p].hi)
  }

  /** Every node but the root is a child of the node above it. */
  ghost predicate Placed(h: Heap, g: Infos, root: Ptr, nlevel: nat, p: Ptr)
    requires p in g
  {
    if p == root then g[p] == Info(nlevel, NegInf, PosInf, NULL)
    else g[p].level <= nlevel && g[p].up in h && h[g[p].up].Inner? && p in h[g[p].up].kids
  }

  /** The link stored in a node is right, except in the children of the nodes `stale`. */
  ghost predicate Linked(h: Heap, g: Infos, stale: set<Ptr>, p: Ptr)
    requires p in h && p in g
  {
    h[p].parent == g[p].up || g[p].up in stale
  }

  predicate Filled(n: Node, isRoot: bool) {
    match n
    case Leaf(_, es, _) => |es| < FANOUT && (!isRoot ==> |es| > ORDER)
    case Inner(_, keys, _) => |keys| < FANOUT - 1 && |keys| >= 1 && (!isRoot ==> |keys| >= ORDER)
  }

  ghost predicate Ups(h: Heap, g: Infos, root: Ptr, nlevel: nat, stale: set<Ptr>)
    requires g.Keys <= h.Keys
  {
    && (forall p :: p in g ==> Placed(h, g, root, nlevel, p))
    && (forall p :: p in g ==> Linked(h, g, stale, p))
  }

  ghost predicate Fills(h: Heap, root: Ptr) {
    forall p :: p in h ==> Filled(h[p], p == root)
  }

  /** The whole tree, leaf chain aside. */
  ghost predicate Tree(h: Heap, g: Infos, root: Ptr, nlevel: nat, stale: set<Ptr>) {
    && h.Keys == g.Keys && NULL !in h && root in h
    && (forall p :: p in g ==> Shape(h, g, p))
    && Ups(h, g, root, nlevel, stale)
    && Fills(h, root)
  }

  /** The tree while `right`, split off `left` at `key`, still waits to be linked in: the rest of the
      tree still counts on `left` for both parts. */
  ghost predicate Pending(h: Heap, g: Infos, root: Ptr, nlevel: nat, stale: set<Ptr>, left: Ptr, right: Ptr, key: int) {
    && h.Keys == g.Keys + {right} && right !in g && NULL !in h && root in g && left in g
    && (forall p :: p in g && p != left ==> Shape(h, g, p))
    && Covers(h[left], g, left, g[left].level, g[left].lo, Fin(key))
    && Covers(h[right], g, right, g[left].level, Fin(key), g[left].hi)
    && Ups(h, g, root, nlevel, stale)
    && Fills(h, root) && Filled(h[left], false)
    && (forall q :: q in stale ==> (q in g && g[q].level <= g[left].level) || q == right)
  }

  function SetParent(n: Node, p: Ptr): Node {
    n.(parent := p)
  }

  /** A node goes on covering its interval if it has the same keys, pairs and children, and its
      children are described as before. */
  lemma CoversFrame(n: Node, n': Node, g: Infos, g': Infos, p: Ptr, level: nat, lo: Ext, hi: Ext)
    requires Covers(n, g, p, level, lo, hi) && SetParent(n, NULL) == SetParent(n', NULL)
    requires n.Inner? ==> forall kid :: kid in n.kids ==> kid in g' && (kid in g ==> g'[kid] == g[kid])
    ensures Covers(n', g', p, level, lo, hi)
  {
    if n.Inner? {
      forall i | 0 <= i < |n.kids| ensures KidOk(g', p, level, lo, hi, n.keys, i, n.kids[i]) {
        assert KidOk(g, p, level, lo, hi, n.keys, i, n.kids[i]);
      }
    }
  }

  lemma KidIs(n: Node, g: Infos, p: Ptr, level: nat, lo: Ext, hi: Ext, kid: Ptr)
    requires Covers(n, g, p, level, lo, hi) && n.Inner? && kid in n.kids
    ensures kid in g && g[kid].up == p && g[kid].level + 1 == level
  {
    var i :| 0 <= i < |n.kids| && n.kids[i] == kid;
    assert KidOk(g, p, level, lo, hi, n.keys, i, n.kids[i]);
  }

  // ----- A new root -----

  function NewRootHeap(h: Heap, left: Ptr, right: Ptr, key: int, r: Ptr): Heap
    requires left in h && right in h
  {
    h[r := Inner(NULL, [key], [left, right])][left := SetParent(h[left], r)][right := SetParent(h[right], r)]
  }

  function NewRootInfo(g: Infos, left: Ptr, right: Ptr, key: int, r: Ptr): Infos
    requires left in g
  {
    g[r := Info(g[left].level + 1, NegInf, PosInf, NULL)]
     [left := Info(g[left].level, g[left].lo, Fin(key), r)]
     [right := Info(g[left].level, Fin(key), g[left].hi, r)]
  }

  /** The case of a split root. */
  lemma NewRoot(h: Heap, g: Infos, root: Ptr, nlevel: nat, stale: set<Ptr>, left: Ptr, right: Ptr, key: int, r: Ptr)
    requires Pending(h, g, root, nlevel, stale, left, right, key)
    requires left == root && r !in h && r != NULL
    ensures Tree(NewRootHeap(h, left, right, key, r), NewRootInfo(g, left, right, key, r), r, nlevel + 1, stale)
  {
    hide Covers, Filled, Ups, Fills, NewRootHeap, NewRootInfo;
    var h', g' := NewRootHeap(h, left, right, key, r), NewRootInfo(g, left, right, key, r);
    RootIs(h, g, root, nlevel, stale);
    NewRootAt(h, g, left, right, key, r);
    forall p | p in g' ensures Shape(h', g', p) {
      if p == r {
        RootCovers(h[left], h[right], g, g', left, right, r, key);
      } else {
        NewRootKeeps(h, g, root, nlevel, left, right, key, r, p);
      }
    }
    NewRootUps(h, g, root, nlevel, stale, left, right, key, r);
    NewRootFills(h, g, root, left, right, key, r);
  }

  lemma RootIs(h: Heap, g: Infos, root: Ptr, nlevel: nat, stale: set<Ptr>)
    requires g.Keys <= h.Keys && root in g && Ups(h, g, root, nlevel, stale)
    ensures g[root] == Info(nlevel, NegInf, PosInf, NULL)
  {
    assert Placed(h, g, root, nlevel, root);
  }

  lemma NewRootAt(h: Heap, g: Infos, left: Ptr, right: Ptr, key: int, r: Ptr)
    requires left in g && left in h && right in h && right !in g && r !in h && r != left && r != right
    ensures var h', g' := NewRootHeap(h, left, right, key, r), NewRootInfo(g, left, right, key, r);
            && h'.Keys == h.Keys + {r} && g'.Keys == g.Keys + {r, right}
            && h'[r] == Inner(NULL, [key], [left, right])
            && g'[r] == Info(g[left].level + 1, NegInf, PosInf, NULL)
            && g'[left] == Info(g[left].level, g[left].lo, Fin(key), r)
            && g'[right] == Info(g[left].level, Fin(key), g[left].hi, r)
  {
  }

  lemma NewRootUps(h: Heap, g: Infos, root: Ptr, nlevel: nat, stale: set<Ptr>, left: Ptr, right: Ptr, key: int, r: Ptr)
    requires h.Keys == g.Keys + {right} && right !in g && left in g && left == root && NULL !in h && r !in h
             && r != NULL
    requires Ups(h, g, root, nlevel, stale)
    ensures var h', g' := NewRootHeap(h, left, right, key, r), NewRootInfo(g, left, right, key, r);
            g'.Keys <= h'.Keys && Ups(h', g', r, nlevel + 1, stale)
  {
    var h', g' := NewRootHeap(h, left, right, key, r), NewRootInfo(g, left, right, key, r);
    assert Placed(h, g, root, nlevel, left);
    forall p | p in g' ensures Placed(h', g', r, nlevel + 1, p) && Linked(h', g', stale, p) {
      if p in g {
        assert Placed(h, g, root, nlevel, p) && Linked(h, g, stale, p);
      }
    }
  }

  lemma NewRootFills(h: Heap, g: Infos, root: Ptr, left: Ptr, right: Ptr, key: int, r: Ptr)
    requires left in h && right in h && left == root && left != right && r !in h
    requires Fills(h, root) && Filled(h[left], false)
    ensures Fills(NewRootHeap(h, left, right, key, r), r)
  {
  }

  lemma RootCovers(l: Node, r: Node, g: Infos, g': Infos, left: Ptr, right: Ptr, p: Ptr, key: int)
    requires left in g && left in g' && right in g'
    requires g[left].lo == NegInf && g[left].hi == PosInf
    requires Covers(l, g, left, g[left].level, g[left].lo, Fin(key))
             && Covers(r, g, right, g[left].level, Fin(key), g[left].hi)
    requires g'[left] == Info(g[left].level, g[left].lo, Fin(key), p)
             && g'[right] == Info(g[left].level, Fin(key), g[left].hi, p)
    ensures Covers(Inner(NULL, [key], [left, right]), g', p, g[left].level + 1, NegInf, PosInf)
  {
  }

  lemma NewRootKeeps(h: Heap, g: Infos, root: Ptr, nlevel: nat, left: Ptr, right: Ptr, key: int, r: Ptr, p: Ptr)
    requires left in g && left in h && right in h && right !in g && left == root && g[left].up == NULL && NULL !in h
    requires r !in g && r !in h && p in h && p != r && (p in g || p == right)
    requires p == left ==> Covers(h[left], g, left, g[left].level, g[left].lo, Fin(key))
    requires p == right ==> Covers(h[right], g, right, g[left].level, Fin(key), g[left].hi)
    requires p in g && p != left ==> Shape(h, g, p)
    ensures Shape(NewRootHeap(h, left, right, key, r), NewRootInfo(g, left, right, key, r), p)
  {
    hide Covers;
    var h', g' := NewRootHeap(h, left, right, key, r), NewRootInfo(g, left, right, key, r);
    var n, i := h[p], g'[p];
    if n.Inner? {
      forall kid | kid in n.kids ensures kid in g' && (kid in g ==> g'[kid] == g[kid]) {
        KidIs(n, g, p, i.level, i.lo, i.hi, kid);
      }
    }
    CoversFrame(n, h'[p], g, g', p, i.level, i.lo, i.hi);
  }

  // ----- A new child of an inner node -----

  function InsertedKeys(keys: seq<int>, i: nat, key: int): seq<int>
    requires i <= |keys|
  {
    keys[..i] + [key] + keys[i..]
  }

  function InsertedKids(kids: seq<Ptr>, i: nat, right: Ptr): seq<Ptr>
    requires i < |kids|
  {
    kids[..i + 1] + [right] + kids[i + 1..]
  }

  function JoinHeap(h: Heap, q: Ptr, i: nat, key: int, right: Ptr): Heap
    requires q in h && h[q].Inner? && i <= |h[q].keys| && i < |h[q].kids| && right in h
  {
    h[q := Inner(h[q].parent, InsertedKeys(h[q].keys, i, key), InsertedKids(h[q].kids, i, right))]
     [right := SetParent(h[right], q)]
  }

  function JoinInfo(g: Infos, left: Ptr, right: Ptr, key: int): Infos
    requires left in g
  {
    g[left := g[left].(hi := Fin(key))][right := Info(g[left].level, Fin(key), g[left].hi, g[left].up)]
  }

  /** The node above `left` is an ordinary node one level up that has `left` as a child. */
  lemma Above(h: Heap, g: Infos, root: Ptr, nlevel: nat, stale: set<Ptr>, left: Ptr, right: Ptr, key: int)
    requires Pending(h, g, root, nlevel, stale, left, right, key)
    ensures h[left].parent == g[left].up
    ensures left == root <==> g[left].up == NULL
    ensures left != root ==> var q := g[left].up;
              && q in g && q != left && q != right && h[q].Inner? && left in h[q].kids
              && g[q].level == g[left].level + 1 && Shape(h, g, q) && g[q].level <= nlevel
  {
    hide Covers, Filled, Fills;
    assert Placed(h, g, root, nlevel, left) && Linked(h, g, stale, left);
    var q := g[left].up;
    if left != root {
      if q == right {
        KidIs(h[right], g, right, g[left].level, Fin(key), g[left].hi, left);
      } else if q == left {
        KidIs(h[left], g, left, g[left].level, g[left].lo, Fin(key), left);
      } else {
        assert Shape(h, g, q);
        KidIs(h[q], g, q, g[q].level, g[q].lo, g[q].hi, left);
        assert Placed(h, g, root, nlevel, q);
      }
    }
  }

  /** The position found by searching for the split key is that of `left`. */
  lemma SlotOfLeft(n: Node, g: Infos, q: Ptr, level: nat, lo: Ext, hi: Ext, left: Ptr, key: int, i: nat)
    requires Covers(n, g, q, level, lo, hi) && n.Inner? && left in n.kids && left in g
    requires Less(g[left].lo, Fin(key)) && Less(Fin(key), g[left].hi)
    requires i <= |n.keys| && (forall j :: 0 <= j < i ==> n.keys[j] <= key)
             && (forall j :: i <= j < |n.keys| ==> key < n.keys[j])
    ensures n.kids[i] == left
    ensures (forall j :: 0 <= j < i ==> n.keys[j] < key)
  {
    var j :| 0 <= j < |n.kids| && n.kids[j] == left;
    assert KidOk(g, q, level, lo, hi, n.keys, j, n.kids[j]);
  }

  /** The node with the new child covers the same interval. */
  lemma JoinCovers(n: Node, g: Infos, g': Infos, q: Ptr, level: nat, lo: Ext, hi: Ext, left: Ptr, right: Ptr, key: int,
      i: nat)
    requires Covers(n, g, q, level, lo, hi) && n.Inner? && i <= |n.keys| && n.kids[i] == left && left in g
             && right !in g
    requires Less(g[left].lo, Fin(key)) && Less(Fin(key), g[left].hi)
    requires (forall j :: 0 <= j < i ==> n.keys[j] < key) && (forall j :: i <= j < |n.keys| ==> key < n.keys[j])
    requires g' == JoinInfo(g, left, right, key)
    ensures Covers(Inner(n.parent, InsertedKeys(n.keys, i, key), InsertedKids(n.kids, i, right)), g', q, level, lo, hi)
  {
    var keys, kids := InsertedKeys(n.keys, i, key), InsertedKids(n.kids, i, right);
    forall j | 0 <= j < |kids| ensures KidOk(g', q, level, lo, hi, keys, j, kids[j]) {
      JoinKid(n, g, g', q, level, lo, hi, left, right, key, i, j);
    }
    assert KidOk(g, q, level, lo, hi, n.keys, i, left);
    JoinKeys(n.keys, key, i, lo, hi, g[left].lo, g[left].hi);
  }

  lemma JoinKeys(keys: seq<int>, key: int, i: nat, lo: Ext, hi: Ext, l: Ext, r: Ext)
    requires i <= |keys| && Increasing(keys) && l == LoAt(lo, keys, i) && r == HiAt(hi, keys, i)
    requires Less(l, Fin(key)) && Less(Fin(key), r)
             && forall j :: 0 <= j < |keys| ==> Less(lo, Fin(keys[j])) && Less(Fin(keys[j]), hi)
    ensures Increasing(InsertedKeys(keys, i, key))
    ensures var ks := InsertedKeys(keys, i, key);
            forall j :: 0 <= j < |ks| ==> Less(lo, Fin(ks[j])) && Less(Fin(ks[j]), hi)
  {
  }

  lemma JoinKid(n: Node, g: Infos, g': Infos, q: Ptr, level: nat, lo: Ext, hi: Ext, left: Ptr, right: Ptr, key: int,
      i: nat, j: nat)
    requires Covers(n, g, q, level, lo, hi) && n.Inner? && i <= |n.keys| && n.kids[i] == left && left in g
             && right !in g
    requires g' == JoinInfo(g, left, right, key) && j <= |n.kids|
    ensures KidOk(g', q, level, lo, hi, InsertedKeys(n.keys, i, key), j, InsertedKids(n.kids, i, right)[j])
  {
    hide Covers, InsertedKeys, InsertedKids;
    var old' := if j <= i then j else j - 1;
    KidCount(n, g, q, level, lo, hi);
    KidAt(n, g, q, level, lo, hi, i);
    KidAt(n, g, q, level, lo, hi, old');
    JoinBounds(n.keys, n.kids, key, right, i, j, lo, hi);
    if j < i {
      KidsDiffer(n, g, q, level, lo, hi, j, i);
    } else if j > i + 1 {
      KidsDiffer(n, g, q, level, lo, hi, i, j - 1);
    }
  }

  lemma JoinBounds(keys: seq<int>, kids: seq<Ptr>, key: int, right: Ptr, i: nat, j: nat, lo: Ext, hi: Ext)
    requires i <= |keys| && |kids| == |keys| + 1 && j <= |kids|
    ensures var ks, cs := InsertedKeys(keys, i, key), InsertedKids(kids, i, right);
            && |cs| == |ks| + 1 == |kids| + 1
            && cs[j] == (if j <= i then kids[j] else if j == i + 1 then right else kids[j - 1])
            && LoAt(lo, ks, j)
               == (if j <= i then LoAt(lo, keys, j) else if j == i + 1 then Fin(key) else LoAt(lo, keys, j - 1))
            && HiAt(hi, ks, j)
               == (if j < i then HiAt(hi, keys, j) else if j == i then Fin(key) else HiAt(hi, keys, j - 1))
  {
  }

  lemma KidAt(n: Node, g: Infos, q: Ptr, level: nat, lo: Ext, hi: Ext, i: nat)
    requires Covers(n, g, q, level, lo, hi) && n.Inner? && i < |n.kids|
    ensures |n.kids| == |n.keys| + 1 && KidOk(g, q, level, lo, hi, n.keys, i, n.kids[i])
  {
  }

  lemma KidsDiffer(n: Node, g: Infos, q: Ptr, level: nat, lo: Ext, hi: Ext, i: nat, j: nat)
    requires Covers(n, g, q, level, lo, hi) && n.Inner? && i < j < |n.kids|
    ensures n.kids[i] != n.kids[j]
  {
    assert KidOk(g, q, level, lo, hi, n.keys, i, n.kids[i]);
    assert KidOk(g, q, level, lo, hi, n.keys, j, n.kids[j]);
    assert Less(lo, Fin(n.keys[j - 1]));
  }

  /** The tree with the exception that `q` may have one key too many. */
  ghost predicate Crowded(h: Heap, g: Infos, root: Ptr, nlevel: nat, stale: set<Ptr>, q: Ptr) {
    && h.Keys == g.Keys && NULL !in h && root in h && q in h
    && (forall p :: p in g ==> Shape(h, g, p))
    && Ups(h, g, root, nlevel, stale)
    && (forall p :: p in h && p != q ==> Filled(h[p], p == root))
    && h[q].Inner? && 1 <= |h[q].keys| < FANOUT && (q != root ==> |h[q].keys| >= ORDER)
  }

  lemma Narrow(h: Heap, g: Infos, root: Ptr, nlevel: nat, stale: set<Ptr>, left: Ptr, right: Ptr, key: int)
    requires Pending(h, g, root, nlevel, stale, left, right, key)
    ensures Less(g[left].lo, Fin(key)) && Less(Fin(key), g[left].hi)
  {
  }

  /** Linking `right` in beside `left`. */
  lemma Join(h: Heap, g: Infos, root: Ptr, nlevel: nat, stale: set<Ptr>, left: Ptr, right: Ptr, key: int, q: Ptr,
      i: nat)
    requires Pending(h, g, root, nlevel, stale, left, right, key)
    requires left != root && q == g[left].up && q in h && h[q].Inner? && i <= |h[q].keys|
    requires (forall j :: 0 <= j < i ==> h[q].keys[j] <= key)
             && (forall j :: i <= j < |h[q].keys| ==> key < h[q].keys[j])
    ensures i < |h[q].kids| && h[q].kids[i] == left
    ensures Crowded(JoinHeap(h, q, i, key, right), JoinInfo(g, left, right, key), root, nlevel, stale, q)
    ensures |JoinHeap(h, q, i, key, right)[q].keys| == |h[q].keys| + 1
  {
    hide Covers, Filled, Ups, Fills;
    Above(h, g, root, nlevel, stale, left, right, key);
    Narrow(h, g, root, nlevel, stale, left, right, key);
    SlotOfLeft(h[q], g, q, g[q].level, g[q].lo, g[q].hi, left, key, i);
    KidCount(h[q], g, q, g[q].level, g[q].lo, g[q].hi);
    var h', g' := JoinHeap(h, q, i, key, right), JoinInfo(g, left, right, key);
    assert h'.Keys == h.Keys && g'.Keys == h.Keys;
    forall p | p in g' ensures Shape(h', g', p) {
      if p == q {
        JoinCovers(h[q], g, g', q, g[q].level, g[q].lo, g[q].hi, left, right, key, i);
      } else {
        JoinKeeps(h, g, left, right, key, q, i, p);
      }
    }
    JoinUps(h, g, root, nlevel, stale, left, right, key, q, i);
    JoinFills(h, root, key, right, q, i);
  }

  lemma KidCount(n: Node, g: Infos, q: Ptr, level: nat, lo: Ext, hi: Ext)
    requires Covers(n, g, q, level, lo, hi) && n.Inner?
    ensures |n.kids| == |n.keys| + 1
  {
  }

  lemma JoinKeeps(h: Heap, g: Infos, left: Ptr, right: Ptr, key: int, q: Ptr, i: nat, p: Ptr)
    requires left in g && left in h && right in h && right !in g && g[left].up == q && q != left && q != right
    requires q in h && h[q].Inner? && i <= |h[q].keys| && i < |h[q].kids|
    requires p in h && p != q && (p in g || p == right)
    requires p == left ==> Covers(h[left], g, left, g[left].level, g[left].lo, Fin(key))
    requires p == right ==> Covers(h[right], g, right, g[left].level, Fin(key), g[left].hi)
    requires p in g && p != left ==> Shape(h, g, p)
    ensures Shape(JoinHeap(h, q, i, key, right), JoinInfo(g, left, right, key), p)
  {
    hide Covers;
    var h', g' := JoinHeap(h, q, i, key, right), JoinInfo(g, left, right, key);
    var n, x := h[p], g'[p];
    if n.Inner? {
      forall kid | kid in n.kids ensures kid in g' && (kid in g ==> g'[kid] == g[kid]) {
        KidIs(n, g, p, x.level, x.lo, x.hi, kid);
      }
    }
    CoversFrame(n, h'[p], g, g', p, x.level, x.lo, x.hi);
  }

  lemma JoinUps(h: Heap, g: Infos, root: Ptr, nlevel: nat, stale: set<Ptr>, left: Ptr, right: Ptr, key: int, q: Ptr,
      i: nat)
    requires h.Keys == g.Keys + {right} && right !in g && left in g && left != root && root in g
    requires q == g[left].up && q in h && q != right && q != left && h[q].Inner? && i <= |h[q].keys| && i < |h[q].kids|
    requires Ups(h, g, root, nlevel, stale)
    ensures JoinHeap(h, q, i, key, right).Keys == h.Keys && JoinInfo(g, left, right, key).Keys == h.Keys
    ensures Ups(JoinHeap(h, q, i, key, right), JoinInfo(g, left, right, key), root, nlevel, stale)
  {
    hide InsertedKeys, Filled;
    var h', g' := JoinHeap(h, q, i, key, right), JoinInfo(g, left, right, key);
    assert Placed(h, g, root, nlevel, left);
    forall p | p in g' ensures Placed(h', g', root, nlevel, p) && Linked(h', g', stale, p) {
      if p != right {
        assert Placed(h, g, root, nlevel, p) && Linked(h, g, stale, p);
        if p != root && g[p].up == q {
          KidStays(h[q].kids, i, right, p);
        }
      } else {
        assert h'[q].kids[i + 1] == right;
      }
    }
  }

  lemma KidStays(kids: seq<Ptr>, i: nat, right: Ptr, p: Ptr)
    requires i < |kids| && p in kids
    ensures p in InsertedKids(kids, i, right)
  {
    var j :| 0 <= j < |kids| && kids[j] == p;
    assert InsertedKids(kids, i, right)[if j <= i then j else j + 1] == p;
  }

  lemma JoinFills(h: Heap, root: Ptr, key: int, right: Ptr, q: Ptr, i: nat)
    requires Fills(h, root) && q in h && right in h && q != right && h[q].Inner? && i <= |h[q].keys| && i < |h[q].kids|
    ensures var h' := JoinHeap(h, q, i, key, right);
            && (forall p :: p in h' && p != q ==> Filled(h'[p], p == root))
            && |h'[q].keys| == |h[q].keys| + 1 && 1 <= |h'[q].keys| < FANOUT && (q != root ==> |h'[q].keys| >= ORDER)
  {
    assert Filled(h[q], q == root);
  }

  /** A node that is not too full completes the tree. */
  lemma RoomLeft(h: Heap, g: Infos, root: Ptr, nlevel: nat, stale: set<Ptr>, q: Ptr)
    requires Crowded(h, g, root, nlevel, stale, q) && |h[q].keys| < FANOUT - 1
    ensures Tree(h, g, root, nlevel, stale)
  {
    hide Shape, Ups;
  }

  // ----- Splitting an inner node -----

  function SplitHeap(h: Heap, q: Ptr, nq: Ptr): Heap
    requires q in h && h[q].Inner? && |h[q].keys| == FANOUT - 1 && |h[q].kids| == FANOUT
  {
    var n := h[q];
    h[q := Inner(n.parent, n.keys[..ORDER], n.kids[..ORDER + 1])]
     [nq := Inner(NULL, n.keys[ORDER + 1..], n.kids[ORDER + 1..])]
  }

  /** The children that moved have a new node above them. */
  function MovedInfo(g: Infos, moved: seq<Ptr>, nq: Ptr): Infos {
    map p | p in g :: if p in moved then g[p].(up := nq) else g[p]
  }

  lemma SplitInner(h: Heap, g: Infos, root: Ptr, nlevel: nat, stale: set<Ptr>, q: Ptr, nq: Ptr)
    requires Crowded(h, g, root, nlevel, stale, q) && |h[q].keys| == FANOUT - 1 && nq !in h && nq != NULL
    requires forall p :: p in stale ==> p in g && g[p].level <= g[q].level
    ensures |h[q].kids| == FANOUT
    ensures Pending(SplitHeap(h, q, nq), MovedInfo(g, h[q].kids[ORDER + 1..], nq), root, nlevel, stale + {nq}, q, nq,
            h[q].keys[ORDER])
  {
    hide Covers, Ups, SplitHeap, MovedInfo;
    assert Shape(h, g, q);
    var n, x := h[q], g[q];
    KidCount(n, g, q, x.level, x.lo, x.hi);
    var moved := n.kids[ORDER + 1..];
    var h', g', key := SplitHeap(h, q, nq), MovedInfo(g, moved, nq), n.keys[ORDER];
    SplitAt(h, g, q, nq, moved);
    forall p | p in g' && p != q ensures Shape(h', g', p) {
      assert Shape(h, g, p);
      SplitKeeps(h, g, q, nq, p);
    }
    SplitCovers(n, g, g', q, nq, x.level, x.lo, x.hi);
    SplitUps(h, g, root, nlevel, stale, q, nq);
    assert Fills(h', root) by { SplitFills(h, root, q, nq); }
  }

  lemma SplitAt(h: Heap, g: Infos, q: Ptr, nq: Ptr, moved: seq<Ptr>)
    requires q in h && h[q].Inner? && |h[q].keys| == FANOUT - 1 && |h[q].kids| == FANOUT && q in g && nq !in h
    requires moved == h[q].kids[ORDER + 1..] && Covers(h[q], g, q, g[q].level, g[q].lo, g[q].hi)
    ensures var h', g' := SplitHeap(h, q, nq), MovedInfo(g, moved, nq);
            && h'.Keys == h.Keys + {nq} && g'.Keys == g.Keys
            && h'[q] == Inner(h[q].parent, h[q].keys[..ORDER], h[q].kids[..ORDER + 1])
            && h'[nq] == Inner(NULL, h[q].keys[ORDER + 1..], h[q].kids[ORDER + 1..])
            && (forall p :: p in h && p != q ==> h'[p] == h[p])
            && (forall p :: p in g ==> SameInterval(g'[p], g[p]))
            && g'[q] == g[q]
            && Filled(h'[q], false)
  {
    if q in moved {
      KidIs(h[q], g, q, g[q].level, g[q].lo, g[q].hi, q);
    }
  }

  predicate SameInterval(a: Info, b: Info) {
    a.level == b.level && a.lo == b.lo && a.hi == b.hi
  }

  lemma SplitFills(h: Heap, root: Ptr, q: Ptr, nq: Ptr)
    requires q in h && h[q].Inner? && |h[q].keys| == FANOUT - 1 && |h[q].kids| == FANOUT && nq !in h && root in h
    requires forall p :: p in h && p != q ==> Filled(h[p], p == root)
    ensures Fills(SplitHeap(h, q, nq), root)
  {
  }

  lemma SplitKeeps(h: Heap, g: Infos, q: Ptr, nq: Ptr, p: Ptr)
    requires q in h && h[q].Inner? && |h[q].keys| == FANOUT - 1 && |h[q].kids| == FANOUT && q in g && nq !in h
    requires Covers(h[q], g, q, g[q].level, g[q].lo, g[q].hi)
    requires p in h && p in g && p != q && Shape(h, g, p)
    ensures var g' := MovedInfo(g, h[q].kids[ORDER + 1..], nq);
            p in SplitHeap(h, q, nq) && p in g' && Shape(SplitHeap(h, q, nq), g', p)
  {
    hide Covers;
    var moved := h[q].kids[ORDER + 1..];
    var h', g' := SplitHeap(h, q, nq), MovedInfo(g, moved, nq);
    var n, x := h[p], g[p];
    assert SameInterval(g'[p], x);
    if n.Inner? {
      forall kid | kid in n.kids ensures kid in g' && (kid in g ==> g'[kid] == g[kid]) {
        KidIs(n, g, p, x.level, x.lo, x.hi, kid);
        if kid in moved {
          assert kid in h[q].kids;
          KidIs(h[q], g, q, g[q].level, g[q].lo, g[q].hi, kid);
        }
      }
    }
    CoversFrame(n, h'[p], g, g', p, x.level, x.lo, x.hi);
  }

  /** Both halves cover their part. */
  lemma SplitCovers(n: Node, g: Infos, g': Infos, q: Ptr, nq: Ptr, level: nat, lo: Ext, hi: Ext)
    requires Covers(n, g, q, level, lo, hi) && n.Inner? && |n.keys| == FANOUT - 1 && |n.kids| == FANOUT
    requires g' == MovedInfo(g, n.kids[ORDER + 1..], nq)
    ensures Covers(Inner(n.parent, n.keys[..ORDER], n.kids[..ORDER + 1]), g', q, level, lo, Fin(n.keys[ORDER]))
    ensures Covers(Inner(NULL, n.keys[ORDER + 1..], n.kids[ORDER + 1..]), g', nq, level, Fin(n.keys[ORDER]), hi)
  {
    var key := n.keys[ORDER];
    forall i | 0 <= i <= ORDER ensures KidOk(g', q, level, lo, Fin(key), n.keys[..ORDER], i, n.kids[i]) {
      SplitLeftKid(n, g, g', q, nq, level, lo, hi, i);
    }
    var keys, kids := n.keys[ORDER + 1..], n.kids[ORDER + 1..];
    forall i | 0 <= i <= ORDER ensures KidOk(g', nq, level, Fin(key), hi, keys, i, kids[i]) {
      SplitRightKid(n, g, g', q, nq, level, lo, hi, i);
    }
  }

  lemma SplitLeftKid(n: Node, g: Infos, g': Infos, q: Ptr, nq: Ptr, level: nat, lo: Ext, hi: Ext, i: nat)
    requires Covers(n, g, q, level, lo, hi) && n.Inner? && |n.keys| == FANOUT - 1 && |n.kids| == FANOUT && i <= ORDER
    requires g' == MovedInfo(g, n.kids[ORDER + 1..], nq)
    ensures KidOk(g', q, level, lo, Fin(n.keys[ORDER]), n.keys[..ORDER], i, n.kids[i])
  {
    hide Covers;
    KidAt(n, g, q, level, lo, hi, i);
    var moved := n.kids[ORDER + 1..];
    if n.kids[i] in moved {
      var j :| 0 <= j < |moved| && moved[j] == n.kids[i];
      KidsDiffer(n, g, q, level, lo, hi, i, ORDER + 1 + j);
    }
  }

  lemma SplitRightKid(n: Node, g: Infos, g': Infos, q: Ptr, nq: Ptr, level: nat, lo: Ext, hi: Ext, i: nat)
    requires Covers(n, g, q, level, lo, hi) && n.Inner? && |n.keys| == FANOUT - 1 && |n.kids| == FANOUT && i <= ORDER
    requires g' == MovedInfo(g, n.kids[ORDER + 1..], nq)
    ensures KidOk(g', nq, level, Fin(n.keys[ORDER]), hi, n.keys[ORDER + 1..], i, n.kids[ORDER + 1..][i])
  {
    hide Covers;
    KidAt(n, g, q, level, lo, hi, ORDER + 1 + i);
    assert n.kids[ORDER + 1..][i] == n.kids[ORDER + 1 + i];
    assert n.kids[ORDER + 1..][i] in n.kids[ORDER + 1..];
  }

  lemma SplitUps(h: Heap, g: Infos, root: Ptr, nlevel: nat, stale: set<Ptr>, q: Ptr, nq: Ptr)
    requires h.Keys == g.Keys && q in h && h[q].Inner? && |h[q].keys| == FANOUT - 1 && |h[q].kids| == FANOUT
    requires nq !in h && nq != NULL && root in h && NULL !in h && Ups(h, g, root, nlevel, stale)
    requires Covers(h[q], g, q, g[q].level, g[q].lo, g[q].hi)
    ensures var h', g' := SplitHeap(h, q, nq), MovedInfo(g, h[q].kids[ORDER + 1..], nq);
            g'.Keys <= h'.Keys && Ups(h', g', root, nlevel, stale + {nq})
  {
    hide Covers, Placed, Linked;
    var moved := h[q].kids[ORDER + 1..];
    var h', g' := SplitHeap(h, q, nq), MovedInfo(g, moved, nq);
    forall p | p in g' ensures Placed(h', g', root, nlevel, p) && Linked(h', g', stale + {nq}, p) {
      SplitUpOf(h, g, root, nlevel, stale, q, nq, p);
    }
  }

  lemma SplitUpOf(h: Heap, g: Infos, root: Ptr, nlevel: nat, stale: set<Ptr>, q: Ptr, nq: Ptr, p: Ptr)
    requires h.Keys == g.Keys && q in h && h[q].Inner? && |h[q].keys| == FANOUT - 1 && |h[q].kids| == FANOUT
    requires nq !in h && nq != NULL && root in h && NULL !in h && p in g
    requires Placed(h, g, root, nlevel, p) && Linked(h, g, stale, p)
    requires Covers(h[q], g, q, g[q].level, g[q].lo, g[q].hi)
    ensures var h', g' := SplitHeap(h, q, nq), MovedInfo(g, h[q].kids[ORDER + 1..], nq);
            p in g' && p in h' && Placed(h', g', root, nlevel, p) && Linked(h', g', stale + {nq}, p)
  {
    hide Covers;
    var moved := h[q].kids[ORDER + 1..];
    if p in moved {
      assert p in h[q].kids;
      KidIs(h[q], g, q, g[q].level, g[q].lo, g[q].hi, p);
    } else if g[p].up == q && p != root {
      KidSplit(h[q].kids, p);
    }
  }

  lemma KidSplit(kids: seq<Ptr>, p: Ptr)
    requires |kids| == FANOUT && p in kids
    ensures p in kids[..ORDER + 1] || p in kids[ORDER + 1..]
  {
    assert kids == kids[..ORDER + 1] + kids[ORDER + 1..];
  }

  // ----- Repairing the links of the children that moved -----

  function Repaired(h: Heap, kids: seq<Ptr>, nq: Ptr): Heap {
    map p | p in h :: if p in kids then SetParent(h[p], nq) else h[p]
  }

  lemma RepairOne(h: Heap, kids: seq<Ptr>, nq: Ptr, j: nat)
    requires j < |kids| && kids[j] in h
    ensures Repaired(h, kids[..j + 1], nq)
            == Repaired(h, kids[..j], nq)[kids[j] := SetParent(Repaired(h, kids[..j], nq)[kids[j]], nq)]
  {
    assert kids[..j + 1] == kids[..j] + [kids[j]];
  }

  lemma RepairNone(h: Heap, nq: Ptr)
    ensures Repaired(h, [], nq) == h
  {
  }

  lemma Repair(h: Heap, g: Infos, root: Ptr, nlevel: nat, stale: set<Ptr>, nq: Ptr)
    requires Tree(h, g, root, nlevel, stale + {nq}) && nq in h && h[nq].Inner?
    ensures Tree(Repaired(h, h[nq].kids, nq), g, root, nlevel, stale)
  {
    hide Covers, Ups, Fills, Repaired;
    var h' := Repaired(h, h[nq].kids, nq);
    RepairAt(h, h[nq].kids, nq);
    forall p | p in g ensures Shape(h', g, p) {
      assert Shape(h, g, p);
      RepairKeeps(h[p], h'[p], g, p, g[p].level, g[p].lo, g[p].hi);
    }
    assert Shape(h, g, nq);
    RepairUps(h, g, root, nlevel, stale, nq);
    RepairFills(h, root, h[nq].kids, nq);
  }

  lemma RepairAt(h: Heap, kids: seq<Ptr>, nq: Ptr)
    ensures Repaired(h, kids, nq).Keys == h.Keys
    ensures forall p :: p in h ==> SetParent(Repaired(h, kids, nq)[p], NULL) == SetParent(h[p], NULL)
  {
  }

  lemma RepairUps(h: Heap, g: Infos, root: Ptr, nlevel: nat, stale: set<Ptr>, nq: Ptr)
    requires h.Keys == g.Keys && NULL !in h && nq in h && h[nq].Inner? && Ups(h, g, root, nlevel, stale + {nq})
             && Shape(h, g, nq)
    ensures Repaired(h, h[nq].kids, nq).Keys == h.Keys && Ups(Repaired(h, h[nq].kids, nq), g, root, nlevel, stale)
  {
    hide Covers;
    var h' := Repaired(h, h[nq].kids, nq);
    forall p | p in g ensures Placed(h', g, root, nlevel, p) && Linked(h', g, stale, p) {
      assert Placed(h, g, root, nlevel, p) && Linked(h, g, stale + {nq}, p);
      if p in h[nq].kids {
        KidIs(h[nq], g, nq, g[nq].level, g[nq].lo, g[nq].hi, p);
      }
    }
  }

  lemma RepairFills(h: Heap, root: Ptr, kids: seq<Ptr>, nq: Ptr)
    requires Fills(h, root)
    ensures Fills(Repaired(h, kids, nq), root)
  {
    hide Filled;
    var h' := Repaired(h, kids, nq);
    forall p | p in h' ensures Filled(h'[p], p == root) {
      assert Filled(h[p], p == root);
      SameFill(h[p], h'[p].parent, p == root);
    }
  }

  lemma SameFill(n: Node, q: Ptr, isRoot: bool)
    ensures Filled(SetParent(n, q), isRoot) == Filled(n, isRoot)
  {
  }

  lemma RepairKeeps(n: Node, n': Node, g: Infos, p: Ptr, level: nat, lo: Ext, hi: Ext)
    requires Covers(n, g, p, level, lo, hi) && SetParent(n, NULL) == SetParent(n', NULL)
    ensures Covers(n', g, p, level, lo, hi)
  {
  }
}
