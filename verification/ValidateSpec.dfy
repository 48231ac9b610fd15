/** What the result validator checks, and what an accepted result therefore is. */
module ValidateSpec {
  import opened Graphs
  import opened Edges

  /** A distance or depth; `Inf` is the largest float, which adding a weight leaves as it is. */
  datatype Depth = Fin(d: int) | Inf

  const UNSEEN: Depth := Fin(-1)

  function Plus(x: Depth, w: nat): Depth {
    match x
    case Fin(d) => Fin(d + w)
    case Inf => Inf
  }

  predicate Below(x: Depth, y: Depth) {
    x.Fin? && (y.Inf? || x.d < y.d)
  }

  // ----- The checks -----

  predicate RangeOk(pred: seq<int>) {
    forall v :: 0 <= v < |pred| ==> -1 <= pred[v] < |pred|
  }

  /** The distance is not negative, and missing exactly where the predecessor is. */
  predicate VertexOk(pred: seq<int>, dist: seq<Depth>, v: nat)
    requires v < |pred| == |dist|
  {
    (dist[v].Fin? ==> dist[v].d >= -1) && (pred[v] == -1 <==> dist[v] == UNSEEN)
  }

  predicate RootOk(pred: seq<int>, dist: seq<Depth>, root: nat)
    requires root < |pred| == |dist|
  {
    pred[root] == root && dist[root] == Fin(0)
  }

  predicate Mixed(pred: seq<int>, e: Edge)
    requires e.u < |pred| && e.v < |pred|
  {
    (pred[e.u] == -1) != (pred[e.v] == -1)
  }

  /** An edge is rejected if it joins a visited and an unvisited vertex, or if the distances of its
      ends differ by more than its weight. */
  predicate EdgeOk(pred: seq<int>, dist: seq<Depth>, e: Edge)
    requires e.u < |pred| == |dist| && e.v < |pred|
  {
    || (pred[e.u] == -1 && pred[e.v] == -1)
    || (!Mixed(pred, e) && !Below(Plus(dist[e.u], e.w), dist[e.v]) && !Below(Plus(dist[e.v], e.w), dist[e.u]))
  }

  /** The edge explains the predecessor and the distance of its head. */
  predicate Confirms(pred: seq<int>, dist: seq<Depth>, e: Edge)
    requires e.u < |pred| == |dist| && e.v < |pred|
  {
    pred[e.u] != -1 && pred[e.v] == e.u && dist[e.v] == Plus(dist[e.u], e.w)
  }

  ghost predicate Confirmed(es: seq<Edge>, root: nat, pred: seq<int>, dist: seq<Depth>, v: nat)
    requires v < |pred| == |dist| && forall e :: e in es ==> e.u < |pred| && e.v < |pred|
  {
    v == root || exists e :: e in es && e.v == v && Confirms(pred, dist, e)
  }

  lemma EdgesInside(g: Graph, e: Edge)
    requires WellFormed(g) && e in AllEdges(g)
    ensures e.u < |g| && e.v < |g|
  {
    InEdges(g, e);
  }

  ghost predicate Inside(g: Graph, n: nat) {
    forall e :: e in AllEdges(g) ==> e.u < n && e.v < n
  }

  lemma WellFormedInside(g: Graph)
    requires WellFormed(g)
    ensures Inside(g, |g|)
  {
    forall e | e in AllEdges(g) ensures e.u < |g| && e.v < |g| {
      EdgesInside(g, e);
    }
  }

  /** All checks pass. */
  ghost predicate Accepts(g: Graph, root: nat, pred: seq<int>, dist: seq<Depth>) {
    && Inside(g, |g|) && |pred| == |dist| == |g| && root < |g|
    && RangeOk(pred)
    && (forall v :: 0 <= v < |g| ==> VertexOk(pred, dist, v))
    && RootOk(pred, dist, root)
    && (forall e :: e in AllEdges(g) ==> EdgeOk(pred, dist, e))
    && (forall v :: 0 <= v < |g| && pred[v] != -1 ==> Confirmed(AllEdges(g), root, pred, dist, v))
  }

  // ----- Soundness -----

  ghost predicate AtLeast(g: Graph, lo: nat) {
    forall u, a :: 0 <= u < |g| && a in g[u] ==> a.weight >= lo
  }

  /** Along every walk from the root the distances stay finite and below the length. */
  lemma {:induction false} TriangleBounds(g: Graph, root: nat, pred: seq<int>, dist: seq<Depth>, v: nat, w: Walk)
    requires Accepts(g, root, pred, dist) && IsWalk(g, root, v, w)
    ensures v < |g| && pred[v] != -1 && dist[v].Fin? && 0 <= dist[v].d <= Length(w)
    decreases w
  {
    match w
    case Start =>
    case Step(p, u, a) =>
      TriangleBounds(g, root, pred, dist, u, p);
      var e := Edge(u, v, a.weight);
      InEdges(g, e);
      assert EdgeOk(pred, dist, e);
      assert VertexOk(pred, dist, v);
  }

  /** With positive weights a finite distance is the length of the walk back along the predecessors. */
  lemma {:induction false} ChainReaches(g: Graph, root: nat, pred: seq<int>, dist: seq<Depth>, v: nat) returns (w: Walk)
    requires Accepts(g, root, pred, dist) && AtLeast(g, 1) && v < |g| && dist[v].Fin? && dist[v].d >= 0
    ensures IsWalk(g, root, v, w) && Length(w) == dist[v].d && FollowsPred(pred, v, w)
    decreases dist[v].d
  {
    assert VertexOk(pred, dist, v);
    if v == root {
      w := Start;
    } else {
      var e :| e in AllEdges(g) && e.v == v && Confirms(pred, dist, e);
      InEdges(g, e);
      assert VertexOk(pred, dist, e.u);
      var p := ChainReaches(g, root, pred, dist, e.u);
      w := Step(p, e.u, Arc(v, e.w));
    }
  }

  /** Accepted results on graphs with positive weights: a vertex can be reached from the root exactly if
      its distance is finite; then the distance is the shortest one, and the predecessors lead back to
      the root along a shortest walk. */
  lemma AcceptedIsShortest(g: Graph, root: nat, pred: seq<int>, dist: seq<Depth>, v: nat)
    requires Accepts(g, root, pred, dist) && AtLeast(g, 1) && v < |g|
    ensures Reachable(g, root, v) <==> dist[v].Fin? && dist[v].d >= 0
    ensures pred[v] == -1 ==> !Reachable(g, root, v)
    ensures Reachable(g, root, v) ==>
              && ShortestAt(g, root, v, dist[v].d)
              && exists w :: IsWalk(g, root, v, w) && Length(w) == dist[v].d && FollowsPred(pred, v, w)
  {
    forall w | IsWalk(g, root, v, w) ensures pred[v] != -1 && dist[v].Fin? && 0 <= dist[v].d <= Length(w) {
      TriangleBounds(g, root, pred, dist, v, w);
    }
    if dist[v].Fin? && dist[v].d >= 0 {
      var w := ChainReaches(g, root, pred, dist, v);
    }
  }

  function Depths(dist: seq<int>): seq<Depth> {
    seq(|dist|, v requires 0 <= v < |dist| => Fin(dist[v]))
  }

  /** With finite distances on input an accepted result is exact everywhere. */
  lemma AcceptedDistances(g: Graph, root: nat, pred: seq<int>, dist: seq<int>)
    requires Accepts(g, root, pred, Depths(dist)) && AtLeast(g, 1)
    ensures Shortest(g, root, dist)
  {
    forall v | 0 <= v < |g| ensures ShortestAt(g, root, v, dist[v]) {
      assert VertexOk(pred, Depths(dist), v);
      AcceptedIsShortest(g, root, pred, Depths(dist), v);
    }
  }

  // ----- Results that pass without being right -----

  /** Two vertices joined by an edge of weight zero and nothing else, beside a lone root. */
  function Pair(w: nat): Graph {
    [[], [Arc(2, w)], [Arc(1, w)]]
  }

  lemma PairEdges(w: nat)
    ensures AllEdges(Pair(w)) == [Edge(1, 2, w), Edge(2, 1, w)] && Symmetric(Pair(w))
  {
    var g := Pair(w);
    assert EdgesBelow(g, 1) == [];
    assert EdgesBelow(g, 2) == EdgesBelow(g, 1) + [Edge(1, 2, w)];
    assert EdgesBelow(g, 3) == EdgesBelow(g, 2) + [Edge(2, 1, w)];
    assert Flipped(AllEdges(g)) == [Edge(2, 1, w), Edge(1, 2, w)];
  }

  /** Such a pair confirms itself with any distance. */
  lemma ZeroPairAccepted(d: nat)
    ensures Accepts(Pair(0), 0, [0, 2, 1], Depths([0, d, d])) && !Shortest(Pair(0), 0, [0, d, d])
  {
    PairEdges(0);
    var g, pred, dist := Pair(0), [0, 2, 1], Depths([0, d, d]);
    assert Edge(2, 1, 0) in AllEdges(g) && Edge(1, 2, 0) in AllEdges(g);
    assert Confirms(pred, dist, Edge(2, 1, 0)) && Confirms(pred, dist, Edge(1, 2, 0));
    PairUnreachable(0);
    assert [0, d, d][1] == d;
    assert !ShortestAt(g, 0, 1, d);
  }

  lemma PairUnreachable(w: nat)
    ensures !Reachable(Pair(w), 0, 1) && !Reachable(Pair(w), 0, 2)
  {
    forall walk, v | IsWalk(Pair(w), 0, v, walk) ensures v == 0 {
      PairWalk(w, v, walk);
    }
  }

  lemma {:induction false} PairWalk(w: nat, v: nat, walk: Walk)
    requires IsWalk(Pair(w), 0, v, walk)
    ensures v == 0
    decreases walk
  {
    match walk
    case Start =>
    case Step(p, u, a) =>
      PairWalk(w, u, p);
  }

  /** Depths that stayed infinite are accepted as well: the same pair with predecessors in a circle. */
  lemma InfinitePairAccepted()
    ensures Accepts(Pair(1), 0, [0, 2, 1], [Fin(0), Inf, Inf]) && !Reachable(Pair(1), 0, 1)
  {
    PairEdges(1);
    var g, pred, dist := Pair(1), [0, 2, 1], [Fin(0), Inf, Inf];
    assert Edge(2, 1, 1) in AllEdges(g) && Edge(1, 2, 1) in AllEdges(g);
    assert Confirms(pred, dist, Edge(2, 1, 1)) && Confirms(pred, dist, Edge(1, 2, 1));
    PairUnreachable(1);
  }

  // ----- Completeness -----

  /** A predecessor that explains the distance. */
  ghost predicate Tight(g: Graph, dist: seq<int>, pred: seq<int>, v: nat)
    requires v < |dist| == |pred|
  {
    0 <= pred[v] < |g| && |dist| == |g| && dist[pred[v]] >= 0 && dist[v] >= dist[pred[v]]
      && Arc(v, dist[v] - dist[pred[v]]) in g[pred[v]]
  }

  /** Exact distances with a tree of tight edges are accepted. */
  lemma ExactIsAccepted(g: Graph, root: nat, pred: seq<int>, dist: seq<int>)
    requires WellFormed(g) && Symmetric(g) && root < |g| && Shortest(g, root, dist) && |pred| == |g|
    requires pred[root] == root && dist[root] == 0 && forall v :: 0 <= v < |g| ==> dist[v] >= -1
    requires forall v :: 0 <= v < |g| && v != root ==> if dist[v] == -1 then pred[v] == -1 else Tight(g, dist, pred, v)
    ensures Accepts(g, root, pred, Depths(dist))
  {
    WellFormedInside(g);
    var ds := Depths(dist);
    forall e | e in AllEdges(g) ensures EdgeOk(pred, ds, e) {
      ExactEdge(g, root, pred, dist, e);
    }
    forall v | 0 <= v < |g| && pred[v] != -1 ensures Confirmed(AllEdges(g), root, pred, ds, v) {
      if v != root {
        TightConfirms(g, root, pred, dist, v);
      }
    }
  }

  lemma ExactEdge(g: Graph, root: nat, pred: seq<int>, dist: seq<int>, e: Edge)
    requires WellFormed(g) && Symmetric(g) && root < |g| && Shortest(g, root, dist) && |pred| == |g|
    requires e in AllEdges(g) && e.u < |g| && e.v < |g|
    requires pred[root] == root && dist[root] == 0 && forall v :: 0 <= v < |g| ==> dist[v] >= -1
    requires forall v :: 0 <= v < |g| && v != root ==> if dist[v] == -1 then pred[v] == -1 else Tight(g, dist, pred, v)
    ensures EdgeOk(pred, Depths(dist), e)
  {
    hide AllEdges;
    InEdges(g, e);
    SymmetricArc(g, e.u, Arc(e.v, e.w));
    ExactAlong(g, root, dist, e.u, Arc(e.v, e.w));
    ExactAlong(g, root, dist, e.v, Arc(e.u, e.w));
  }

  lemma TightConfirms(g: Graph, root: nat, pred: seq<int>, dist: seq<int>, v: nat)
    requires Inside(g, |g|) && |pred| == |g| == |dist| && v < |g| && v != root && Tight(g, dist, pred, v)
    requires pred[pred[v]] != -1
    requires forall v :: 0 <= v < |g| ==> dist[v] >= -1
    ensures Confirmed(AllEdges(g), root, pred, Depths(dist), v)
  {
    hide AllEdges;
    var e := Edge(pred[v], v, dist[v] - dist[pred[v]]);
    InEdges(g, e);
    assert Confirms(pred, Depths(dist), e);
  }

  lemma ExactAlong(g: Graph, root: nat, dist: seq<int>, u: nat, a: Arc)
    requires WellFormed(g) && Shortest(g, root, dist) && u < |g| && a in g[u]
    ensures dist[u] != -1 ==> dist[a.head] != -1 && dist[a.head] <= dist[u] + a.weight
  {
    assert ShortestAt(g, root, u, dist[u]) && ShortestAt(g, root, a.head, dist[a.head]);
    if dist[u] != -1 {
      ReachesStep(g, root, u, dist[u], a);
      var w :| IsWalk(g, root, a.head, w) && Length(w) == dist[u] + a.weight;
      assert Reachable(g, root, a.head);
    }
  }
}
