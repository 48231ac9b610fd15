/** Exactly when the validator's verdict can be trusted, graph by graph. */
module ValidateExact {
  import opened Graphs
  import opened Edges
  import opened ValidateSpec
  import opened Validator

  // ----- Shortest distances exist -----

  lemma {:induction false} LeastLength(g: Graph, root: nat, v: nat, w: Walk) returns (d: nat)
    requires IsWalk(g, root, v, w)
    ensures ShortestAt(g, root, v, d)
    decreases Length(w)
  {
    if w' :| IsWalk(g, root, v, w') && Length(w') < Length(w) {
      d := LeastLength(g, root, v, w');
    } else {
      d := Length(w);
    }
  }

  lemma DistanceOf(g: Graph, root: nat, v: nat) returns (d: int)
    ensures d >= -1 && ShortestAt(g, root, v, d)
  {
    if w :| IsWalk(g, root, v, w) {
      d := LeastLength(g, root, v, w);
    } else {
      d := -1;
    }
  }

  lemma {:induction false} DistancesBelow(g: Graph, root: nat, n: nat) returns (dist: seq<int>)
    requires n <= |g|
    ensures |dist| == n && forall v :: 0 <= v < n ==> dist[v] >= -1 && ShortestAt(g, root, v, dist[v])
  {
    if n == 0 {
      dist := [];
    } else {
      dist := DistancesBelow(g, root, n - 1);
      var d := DistanceOf(g, root, n - 1);
      dist := dist + [d];
    }
  }

  lemma Distances(g: Graph, root: nat) returns (dist: seq<int>)
    requires root < |g|
    ensures Shortest(g, root, dist) && dist[root] == 0 && forall v :: 0 <= v < |g| ==> dist[v] >= -1
  {
    dist := DistancesBelow(g, root, |g|);
    assert IsWalk(g, root, root, Start) && Length(Start) == 0;
    assert ShortestAt(g, root, root, dist[root]);
  }

  /** The last arc of a shortest walk explains the distance. */
  lemma TightArc(g: Graph, root: nat, dist: seq<int>, v: nat) returns (u: nat, a: Arc)
    requires WellFormed(g) && Shortest(g, root, dist) && v < |g| && v != root && dist[v] >= 0
    ensures u < |g| && a in g[u] && a.head == v && dist[u] != -1 && dist[v] == dist[u] + a.weight
  {
    assert ShortestAt(g, root, v, dist[v]);
    var w :| IsWalk(g, root, v, w) && Length(w) == dist[v];
    u, a := w.tail, w.arc;
    assert IsWalk(g, root, u, w.prefix);
    assert ShortestAt(g, root, u, dist[u]);
    ExactAlong(g, root, dist, u, a);
  }

  // ----- Distances that pass without being exact -----

  /** Distances that no arc improves, each explained by a predecessor, are accepted. */
  lemma ClosedIsAccepted(g: Graph, root: nat, pred: seq<int>, dist: seq<int>)
    requires WellFormed(g) && Symmetric(g) && root < |g| == |pred| == |dist| && Closed(g, dist)
    requires pred[root] == root && dist[root] == 0 && forall v :: 0 <= v < |g| ==> dist[v] >= -1
    requires forall v :: 0 <= v < |g| && v != root ==> if dist[v] == -1 then pred[v] == -1 else Tight(g, dist, pred, v)
    ensures Accepts(g, root, pred, Depths(dist))
  {
    hide AllEdges, Symmetric;
    WellFormedInside(g);
    var ds := Depths(dist);
    forall e | e in AllEdges(g) ensures EdgeOk(pred, ds, e) {
      InEdges(g, e);
      SymmetricArc(g, e.u, Arc(e.v, e.w));
      assert dist[e.u] != -1 ==> Relaxed(g, dist, e.u, Arc(e.v, e.w));
      assert dist[e.v] != -1 ==> Relaxed(g, dist, e.v, Arc(e.u, e.w));
    }
    forall v | 0 <= v < |g| && pred[v] != -1 ensures Confirmed(AllEdges(g), root, pred, ds, v) {
      if v != root {
        TightConfirms(g, root, pred, dist, v);
      }
    }
  }

  /** Predecessors for distances that are explained by arcs of `g` everywhere but perhaps at `a`. */
  lemma {:induction false} TightPreds(g: Graph, root: nat, a: nat, b: nat, dist: seq<int>, n: nat)
    returns (pred: seq<int>)
    requires n <= |g| == |dist| && forall v :: 0 <= v < |g| ==> dist[v] >= -1
    requires forall v :: 0 <= v < |g| && v != root && v != a && dist[v] != -1 ==> Explained(g, dist, v)
    ensures |pred| == n && forall v :: 0 <= v < n ==> PredFor(g, root, a, b, dist, v, pred[v])
  {
    if n == 0 {
      pred := [];
    } else {
      pred := TightPreds(g, root, a, b, dist, n - 1);
      var v := n - 1;
      var p: int := if v == root then root else if v == a then b else -1;
      if v != root && v != a && dist[v] != -1 {
        var u :| 0 <= u < |g| && Explains(g, dist, u, v);
        p := u;
      }
      pred := pred + [p];
    }
  }

  ghost predicate Explains(g: Graph, dist: seq<int>, u: nat, v: nat)
    requires u < |g| == |dist| && v < |g|
  {
    dist[u] >= 0 && dist[v] >= dist[u] && Arc(v, dist[v] - dist[u]) in g[u]
  }

  ghost predicate Explained(g: Graph, dist: seq<int>, v: nat)
    requires |g| == |dist| && v < |g|
  {
    exists u :: 0 <= u < |g| && Explains(g, dist, u, v)
  }

  ghost predicate PredFor(g: Graph, root: nat, a: nat, b: nat, dist: seq<int>, v: nat, p: int)
    requires |g| == |dist| && v < |g|
  {
    if v == root then p == root else if v == a then p == b
    else if dist[v] == -1 then p == -1 else 0 <= p < |g| && Explains(g, dist, p, v)
  }

  /** The graph with a shortcut from the root to `a`. */
  function Shortcut(g: Graph, root: nat, a: nat, c: nat): Graph
    requires root < |g|
  {
    g[root := g[root] + [Arc(a, c)]]
  }

  /** Distances with a shortcut to `a` are improved by no arc without it, and explained everywhere but perhaps
      at `a`. */
  lemma ShortcutDistances(g: Graph, root: nat, a: nat, c: nat) returns (dist: seq<int>)
    requires WellFormed(g) && root < |g| && a < |g|
    ensures |dist| == |g| && Closed(g, dist) && dist[root] == 0 && 0 <= dist[a] <= c
    ensures forall v :: 0 <= v < |g| ==> dist[v] >= -1
    ensures forall v :: 0 <= v < |g| && v != root && v != a && dist[v] != -1 ==> Explained(g, dist, v)
  {
    hide Shortest;
    var h := Shortcut(g, root, a, c);
    dist := Distances(h, root);
    ShortestLength(h, root, dist);
    forall u, x | 0 <= u < |g| && dist[u] != -1 && x in g[u] ensures Relaxed(g, dist, u, x) {
      assert x in h[u];
      ExactAlong(h, root, dist, u, x);
    }
    ExactAlong(h, root, dist, root, Arc(a, c));
    forall v | 0 <= v < |g| && v != root && v != a && dist[v] != -1 ensures Explained(g, dist, v) {
      var u, x := TightArc(h, root, dist, v);
      assert x in g[u];
      assert Explains(g, dist, u, v);
    }
  }

  lemma ShortestLength(g: Graph, root: nat, dist: seq<int>)
    requires Shortest(g, root, dist)
    ensures |dist| == |g|
  {
  }

  /** With a shortcut to one end of an edge of weight zero, distances are still explained by the arcs without
      the shortcut, as the two ends explain each other. */
  lemma ShortcutAccepted(g: Graph, root: nat, a: nat, b: nat, c: nat) returns (pred: seq<int>, dist: seq<int>)
    requires WellFormed(g) && Symmetric(g) && root < |g| && a < |g| && a != root && Arc(b, 0) in g[a]
    ensures |dist| == |g| && 0 <= dist[a] <= c && Accepts(g, root, pred, Depths(dist))
  {
    hide Symmetric, Explained, Explains, Accepts;
    dist := ShortcutDistances(g, root, a, c);
    SymmetricArc(g, a, Arc(b, 0));
    assert Relaxed(g, dist, a, Arc(b, 0)) && Relaxed(g, dist, b, Arc(a, 0));
    pred := TightPreds(g, root, a, b, dist, |g|);
    forall v | 0 <= v < |g| && v != root ensures if dist[v] == -1 then pred[v] == -1 else Tight(g, dist, pred, v) {
      assert PredFor(g, root, a, b, dist, v, pred[v]);
      if v != a && dist[v] != -1 {
        ExplainsTight(g, dist, pred, v);
      }
    }
    assert PredFor(g, root, a, b, dist, root, pred[root]);
    ClosedIsAccepted(g, root, pred, dist);
  }

  lemma ExplainsTight(g: Graph, dist: seq<int>, pred: seq<int>, v: nat)
    requires |g| == |dist| == |pred| && v < |g| && 0 <= pred[v] < |g| && Explains(g, dist, pred[v], v)
    ensures Tight(g, dist, pred, v)
  {
  }

  // ----- Shortest paths: the exact condition -----

  /** Every edge of weight zero joins vertices at distance zero from the root. */
  ghost predicate ZeroAtRoot(g: Graph, root: nat) {
    forall u, a :: 0 <= u < |g| && a in g[u] && a.weight == 0 ==> Reaches(g, root, u, 0) && Reaches(g, root, a.head, 0)
  }

  /** Accepted finite distances are the shortest ones. */
  ghost predicate SoundAt(g: Graph, root: nat) {
    forall pred: seq<int>, dist: seq<int> :: Accepts(g, root, pred, Depths(dist)) ==> Shortest(g, root, dist)
  }

  lemma {:induction false} VisitedReaches(g: Graph, root: nat, pred: seq<int>, dist: seq<int>, v: nat)
    requires Accepts(g, root, pred, Depths(dist)) && ZeroAtRoot(g, root) && v < |g| && pred[v] != -1
    ensures dist[v] >= 0 && Reaches(g, root, v, dist[v])
    decreases dist[v]
  {
    hide AllEdges;
    var ds := Depths(dist);
    assert VertexOk(pred, ds, v);
    if v == root {
      assert IsWalk(g, root, root, Start) && Length(Start) == 0;
    } else {
      var e :| e in AllEdges(g) && e.v == v && Confirms(pred, ds, e);
      InEdges(g, e);
      assert VertexOk(pred, ds, e.u);
      if e.w == 0 {
        assert Arc(e.v, 0) in g[e.u];
        var w :| IsWalk(g, root, v, w) && Length(w) == 0;
        TriangleBounds(g, root, pred, ds, v, w);
      } else {
        VisitedReaches(g, root, pred, dist, e.u);
        ReachesStep(g, root, e.u, dist[e.u], Arc(v, e.w));
      }
    }
  }

  lemma ZeroIsSound(g: Graph, root: nat, pred: seq<int>, dist: seq<int>)
    requires ZeroAtRoot(g, root) && Accepts(g, root, pred, Depths(dist))
    ensures Shortest(g, root, dist)
  {
    hide ZeroAtRoot;
    var ds := Depths(dist);
    forall v | 0 <= v < |g| ensures ShortestAt(g, root, v, dist[v]) {
      assert VertexOk(pred, ds, v);
      forall w | IsWalk(g, root, v, w) ensures pred[v] != -1 && 0 <= dist[v] <= Length(w) {
        TriangleBounds(g, root, pred, ds, v, w);
      }
      if pred[v] != -1 {
        VisitedReaches(g, root, pred, dist, v);
      }
    }
  }

  lemma RootReaches(g: Graph, root: nat)
    ensures Reaches(g, root, root, 0)
  {
    assert IsWalk(g, root, root, Start) && Length(Start) == 0;
  }

  /** An edge of weight zero elsewhere lets a wrong result pass. */
  lemma ZeroElsewhere(g: Graph, root: nat, u: nat, a: Arc)
    requires WellFormed(g) && Symmetric(g) && root < |g| && u < |g| && a in g[u] && a.weight == 0
    requires !Reaches(g, root, u, 0)
    ensures !SoundAt(g, root)
  {
    hide Symmetric, Accepts;
    var d := DistanceOf(g, root, u);
    RootReaches(g, root);
    var c := if d == -1 then 0 else d - 1;
    assert a == Arc(a.head, 0);
    var pred, dist := ShortcutAccepted(g, root, u, a.head, c);
  }

  /** For every graph that stores its edges in both directions: of the results with finite distances the shortest
      path check lets only exact ones pass if and only if every edge of weight zero joins vertices at distance zero
      from the root. */
  lemma SoundIff(g: Graph, root: nat)
    requires WellFormed(g) && Symmetric(g) && root < |g|
    ensures SoundAt(g, root) <==> ZeroAtRoot(g, root)
  {
    hide Symmetric, Accepts, Reaches;
    if ZeroAtRoot(g, root) {
      forall pred: seq<int>, dist: seq<int> | Accepts(g, root, pred, Depths(dist)) ensures Shortest(g, root, dist) {
        ZeroIsSound(g, root, pred, dist);
      }
    } else {
      var u, a :| 0 <= u < |g| && a in g[u] && a.weight == 0
        && !(Reaches(g, root, u, 0) && Reaches(g, root, a.head, 0));
      if Reaches(g, root, u, 0) {
        SymmetricArc(g, u, a);
        ZeroElsewhere(g, root, a.head, Arc(u, 0));
      } else {
        ZeroElsewhere(g, root, u, a);
      }
    }
  }

  // ----- Breadth-first search: the exact condition -----

  ghost predicate UnitWeights(g: Graph) {
    forall u, a :: 0 <= u < |g| && a in g[u] ==> a.weight == 1
  }

  /** No edge lies outside the component of the root. */
  ghost predicate OneComponent(g: Graph, root: nat) {
    forall u :: 0 <= u < |g| && g[u] != [] ==> Reachable(g, root, u)
  }

  /** Accepted predecessors mark exactly the reachable vertices. */
  ghost predicate MarksReachable(g: Graph, root: nat, pred: seq<int>) {
    |pred| == |g| && forall v :: 0 <= v < |g| ==> (pred[v] != -1 <==> Reachable(g, root, v))
  }

  ghost predicate SoundBfsAt(g: Graph, root: nat) {
    forall pred: seq<int>, dist: seq<Depth> ::
      IsDepthMap(AllEdges(g), root, pred, dist) && Accepts(g, root, pred, dist) ==> MarksReachable(g, root, pred)
  }

  lemma OneComponentIsSound(g: Graph, root: nat, pred: seq<int>, dist: seq<Depth>)
    requires OneComponent(g, root) && Accepts(g, root, pred, dist)
    ensures MarksReachable(g, root, pred)
  {
    hide AllEdges;
    forall v | 0 <= v < |g| ensures pred[v] != -1 <==> Reachable(g, root, v) {
      if w :| IsWalk(g, root, v, w) {
        TriangleBounds(g, root, pred, dist, v, w);
      }
      if pred[v] != -1 {
        if v == root {
          assert IsWalk(g, root, root, Start);
        } else {
          assert Confirmed(AllEdges(g), root, pred, dist, v);
          var e :| e in AllEdges(g) && e.v == v && Confirms(pred, dist, e);
          InEdges(g, e);
          var w :| IsWalk(g, root, e.u, w);
          assert IsWalk(g, root, v, Step(w, e.u, Arc(v, e.w)));
        }
      }
    }
  }

  /** The reachable part as a search leaves it; elsewhere every vertex with an edge points to a neighbour. */
  ghost predicate Circling(g: Graph, root: nat, d: seq<int>, v: nat, p: int, x: Depth)
    requires |g| == |d| && v < |g|
  {
    if v == root then p == root && x == Fin(0)
    else if d[v] != -1 then 0 <= p < |g| && Explains(g, d, p, v) && x == Fin(d[v])
    else if g[v] != [] then p == g[v][0].head && x == Inf
    else p == -1 && x == UNSEEN
  }

  lemma {:induction false} Circles(g: Graph, root: nat, d: seq<int>, n: nat) returns (pred: seq<int>, dist: seq<Depth>)
    requires n <= |g| == |d| && forall v :: 0 <= v < |g| ==> d[v] >= -1
    requires forall v :: 0 <= v < |g| && v != root && d[v] != -1 ==> Explained(g, d, v)
    ensures |pred| == |dist| == n && forall v :: 0 <= v < n ==> Circling(g, root, d, v, pred[v], dist[v])
  {
    if n == 0 {
      pred, dist := [], [];
    } else {
      pred, dist := Circles(g, root, d, n - 1);
      var v := n - 1;
      var p: int, x := root, Fin(0);
      if v != root {
        if d[v] != -1 {
          var u :| 0 <= u < |g| && Explains(g, d, u, v);
          p, x := u, Fin(d[v]);
        } else if g[v] != [] {
          p, x := g[v][0].head, Inf;
        } else {
          p, x := -1, UNSEEN;
        }
      }
      pred, dist := pred + [p], dist + [x];
    }
  }

  /** A graph with such predecessors and depths. */
  ghost predicate Setting(g: Graph, root: nat, d: seq<int>, pred: seq<int>, dist: seq<Depth>) {
    && WellFormed(g) && Symmetric(g) && root < |g| == |d| == |pred| == |dist|
    && Shortest(g, root, d) && d[root] == 0 && (forall v :: 0 <= v < |g| ==> d[v] >= -1)
    && forall v :: 0 <= v < |g| ==> Circling(g, root, d, v, pred[v], dist[v])
  }

  /** Neighbours are both reached or both not. */
  lemma SameSide(g: Graph, root: nat, d: seq<int>, u: nat, a: Arc)
    requires WellFormed(g) && Symmetric(g) && root < |g| && Shortest(g, root, d) && u < |g| && a in g[u]
    ensures a.head < |g| && (d[u] == -1 <==> d[a.head] == -1) && g[a.head] != []
    ensures d[u] != -1 ==> d[a.head] <= d[u] + a.weight && d[u] <= d[a.head] + a.weight
  {
    hide Symmetric;
    SymmetricArc(g, u, a);
    ExactAlong(g, root, d, u, a);
    ExactAlong(g, root, d, a.head, Arc(u, a.weight));
  }

  lemma CirclingEdge(g: Graph, root: nat, d: seq<int>, pred: seq<int>, dist: seq<Depth>, e: Edge)
    requires Setting(g, root, d, pred, dist) && e.u < |g| && e.v < |g| && Arc(e.v, e.w) in g[e.u]
    ensures EdgeOk(pred, dist, e)
  {
    hide Symmetric, Shortest;
    SameSide(g, root, d, e.u, Arc(e.v, e.w));
    assert Circling(g, root, d, e.u, pred[e.u], dist[e.u]) && Circling(g, root, d, e.v, pred[e.v], dist[e.v]);
  }

  lemma CirclingDepth(g: Graph, root: nat, d: seq<int>, pred: seq<int>, dist: seq<Depth>, v: nat)
    requires Setting(g, root, d, pred, dist) && UnitWeights(g) && v < |g| && RangeOk(pred)
    ensures DepthAt(AllEdges(g), root, pred, dist, v)
  {
    hide Symmetric, Shortest, AllEdges;
    assert Circling(g, root, d, v, pred[v], dist[v]);
    if v != root && pred[v] != -1 {
      var u: nat := pred[v];
      assert Circling(g, root, d, u, pred[u], dist[u]);
      if d[v] != -1 {
        ExplainedEdge(g, d, u, v);
      } else {
        SameSide(g, root, d, v, g[v][0]);
      }
    }
  }

  lemma ExplainedEdge(g: Graph, d: seq<int>, u: nat, v: nat)
    requires u < |g| == |d| && v < |g| && Explains(g, d, u, v)
    ensures d[v] >= d[u] && Adjacent(AllEdges(g), u, v) && Edge(u, v, d[v] - d[u]) in AllEdges(g)
    ensures UnitWeights(g) ==> d[v] == d[u] + 1
  {
    hide AllEdges;
    InEdges(g, Edge(u, v, d[v] - d[u]));
  }

  lemma CirclingConfirmed(g: Graph, root: nat, d: seq<int>, pred: seq<int>, dist: seq<Depth>, v: nat)
    requires Setting(g, root, d, pred, dist) && v < |g| && pred[v] != -1 && Inside(g, |g|)
    ensures Confirmed(AllEdges(g), root, pred, dist, v)
  {
    hide Symmetric, Shortest, AllEdges;
    assert Circling(g, root, d, v, pred[v], dist[v]);
    if v != root {
      var u: nat := pred[v];
      assert Circling(g, root, d, u, pred[u], dist[u]);
      if d[v] != -1 {
        ExplainedEdge(g, d, u, v);
        assert Confirms(pred, dist, Edge(u, v, d[v] - d[u]));
      } else {
        SameSide(g, root, d, v, g[v][0]);
        SymmetricArc(g, v, g[v][0]);
        var e := Edge(u, v, g[v][0].weight);
        InEdges(g, e);
        assert Confirms(pred, dist, e);
      }
    }
  }

  lemma CirclingAccepted(g: Graph, root: nat, d: seq<int>, pred: seq<int>, dist: seq<Depth>)
    requires Setting(g, root, d, pred, dist)
    ensures Accepts(g, root, pred, dist) && (UnitWeights(g) ==> IsDepthMap(AllEdges(g), root, pred, dist))
  {
    hide Symmetric, Shortest, AllEdges, UnitWeights;
    WellFormedInside(g);
    forall v | 0 <= v < |g| ensures -1 <= pred[v] < |pred| && VertexOk(pred, dist, v) {
      assert Circling(g, root, d, v, pred[v], dist[v]);
    }
    assert Circling(g, root, d, root, pred[root], dist[root]);
    forall e | e in AllEdges(g) ensures EdgeOk(pred, dist, e) {
      InEdges(g, e);
      CirclingEdge(g, root, d, pred, dist, e);
    }
    if UnitWeights(g) {
      forall v | 0 <= v < |g| ensures DepthAt(AllEdges(g), root, pred, dist, v) {
        CirclingDepth(g, root, d, pred, dist, v);
      }
    }
    forall v | 0 <= v < |g| && pred[v] != -1 ensures Confirmed(AllEdges(g), root, pred, dist, v) {
      CirclingConfirmed(g, root, d, pred, dist, v);
    }
  }

  /** With an edge at vertex `a` outside the component of the root, predecessors in a circle pass with an infinite
      distance at `a`. */
  lemma CircleOutside(g: Graph, root: nat, a: nat) returns (pred: seq<int>, dist: seq<Depth>)
    requires WellFormed(g) && Symmetric(g) && root < |g| && a < |g| && g[a] != [] && !Reachable(g, root, a)
    ensures Accepts(g, root, pred, dist) && (UnitWeights(g) ==> IsDepthMap(AllEdges(g), root, pred, dist))
    ensures |pred| == |dist| == |g| && pred[a] != -1 && dist[a] == Inf
  {
    hide Symmetric, Accepts, IsDepthMap, AllEdges, UnitWeights;
    var d := Distances(g, root);
    forall v | 0 <= v < |g| && v != root && d[v] != -1 ensures Explained(g, d, v) {
      var u, x := TightArc(g, root, d, v);
      assert Explains(g, d, u, v);
    }
    pred, dist := Circles(g, root, d, |g|);
    CirclingAccepted(g, root, d, pred, dist);
    assert Circling(g, root, d, a, pred[a], dist[a]);
    RootReachable(g, root);
    assert ShortestAt(g, root, a, d[a]);
  }

  lemma RootReachable(g: Graph, root: nat)
    ensures Reachable(g, root, root)
  {
    assert IsWalk(g, root, root, Start);
  }

  /** An edge outside the component of the root lets predecessors in a circle pass. */
  lemma OutsideEdge(g: Graph, root: nat, a: nat)
    requires WellFormed(g) && Symmetric(g) && UnitWeights(g) && root < |g| && a < |g| && g[a] != []
             && !Reachable(g, root, a)
    ensures !SoundBfsAt(g, root)
  {
    hide Symmetric, Accepts, IsDepthMap, AllEdges;
    var pred, dist := CircleOutside(g, root, a);
  }

  /** For every graph that stores its edges in both directions: the check of a breadth-first search lets only
      results pass that mark exactly the reachable vertices if and only if no edge lies outside the
      component of the root. */
  lemma SoundBfsIff(g: Graph, root: nat)
    requires WellFormed(g) && Symmetric(g) && UnitWeights(g) && root < |g|
    ensures SoundBfsAt(g, root) <==> OneComponent(g, root)
  {
    hide Symmetric, Accepts, IsDepthMap, AllEdges, MarksReachable;
    if OneComponent(g, root) {
      forall pred: seq<int>, dist: seq<Depth>
        | IsDepthMap(AllEdges(g), root, pred, dist) && Accepts(g, root, pred, dist)
        ensures MarksReachable(g, root, pred)
      {
        OneComponentIsSound(g, root, pred, dist);
      }
    } else {
      var u :| 0 <= u < |g| && g[u] != [] && !Reachable(g, root, u);
      OutsideEdge(g, root, u);
    }
  }

  // ----- Shortest paths with any distances -----

  /** Every distance is finite and the shortest one. */
  ghost predicate Exact(g: Graph, root: nat, dist: seq<Depth>) {
    |dist| == |g| && forall v :: 0 <= v < |g| ==> dist[v].Fin? && ShortestAt(g, root, v, dist[v].d)
  }

  /** Accepted results are exact, whatever floats the distances are. */
  ghost predicate TrustedAt(g: Graph, root: nat) {
    forall pred: seq<int>, dist: seq<Depth> :: Accepts(g, root, pred, dist) ==> Exact(g, root, dist)
  }

  /** Where no edge lies elsewhere, accepted distances are finite. */
  lemma OneComponentIsFinite(g: Graph, root: nat, pred: seq<int>, dist: seq<Depth>, v: nat)
    requires OneComponent(g, root) && Accepts(g, root, pred, dist) && v < |g|
    ensures dist[v].Fin?
  {
    hide OneComponent, Inside, Confirmed;
    OneComponentIsSound(g, root, pred, dist);
    assert VertexOk(pred, dist, v);
    if w :| IsWalk(g, root, v, w) {
      TriangleBounds(g, root, pred, dist, v, w);
    }
  }

  lemma BothAreTrusted(g: Graph, root: nat, pred: seq<int>, dist: seq<Depth>)
    requires ZeroAtRoot(g, root) && OneComponent(g, root) && Accepts(g, root, pred, dist)
    ensures Exact(g, root, dist)
  {
    assert |dist| == |g|;
    hide ZeroAtRoot, OneComponent, Accepts;
    forall v | 0 <= v < |g| ensures dist[v].Fin? {
      OneComponentIsFinite(g, root, pred, dist, v);
    }
    var ints := seq(|dist|, v requires 0 <= v < |dist| => dist[v].d);
    assert Depths(ints) == dist;
    ZeroIsSound(g, root, pred, ints);
    forall v | 0 <= v < |g| ensures ShortestAt(g, root, v, dist[v].d) {
      assert ShortestAt(g, root, v, ints[v]);
    }
  }

  /** For every graph that stores its edges in both directions and every root: the shortest path check lets only
      exact results pass, of all floats, if and only if every edge of weight zero joins vertices at distance zero
      from the root and no edge lies outside the component of the root. */
  lemma TrustedIff(g: Graph, root: nat)
    requires WellFormed(g) && Symmetric(g) && root < |g|
    ensures TrustedAt(g, root) <==> ZeroAtRoot(g, root) && OneComponent(g, root)
  {
    hide Symmetric, Accepts, ZeroAtRoot, ShortestAt;
    if ZeroAtRoot(g, root) && OneComponent(g, root) {
      forall pred: seq<int>, dist: seq<Depth> | Accepts(g, root, pred, dist) ensures Exact(g, root, dist) {
        BothAreTrusted(g, root, pred, dist);
      }
    } else if !OneComponent(g, root) {
      var u :| 0 <= u < |g| && g[u] != [] && !Reachable(g, root, u);
      var pred, dist := CircleOutside(g, root, u);
      assert !Exact(g, root, dist);
    } else {
      SoundIff(g, root);
      var pred, dist :| Accepts(g, root, pred, Depths(dist)) && !Shortest(g, root, dist);
      FiniteInexact(g, root, dist);
      assert !Exact(g, root, Depths(dist));
    }
  }

  lemma FiniteInexact(g: Graph, root: nat, dist: seq<int>)
    requires !Shortest(g, root, dist)
    ensures !Exact(g, root, Depths(dist))
  {
    hide ShortestAt;
    if Exact(g, root, Depths(dist)) {
      forall v | 0 <= v < |g| ensures ShortestAt(g, root, v, dist[v]) {
        assert Depths(dist)[v] == Fin(dist[v]);
      }
    }
  }
}
