/** Weighted directed multigraphs held row by row, as the compressed rows of the benchmark hold
    them, walks in such graphs, and what it means for an array of distances to be exact. */
module Graphs {

  /** One stored edge: a column entry with its weight. */
  datatype Arc = Arc(head: nat, weight: nat)

  type Graph = seq<seq<Arc>>

  ghost predicate WellFormed(g: Graph) {
    forall u, a :: 0 <= u < |g| && a in g[u] ==> a.head < |g|
  }

  /** A walk from a fixed root, last step outermost: `Step(p, u, a)` walks `p` to `u`, then takes
      arc `a` out of `u`. */
  datatype Walk = Start | Step(prefix: Walk, tail: nat, arc: Arc)

  ghost predicate IsWalk(g: Graph, root: nat, v: nat, w: Walk)
    decreases w
  {
    match w
    case Start => v == root
    case Step(p, u, a) => u < |g| && a in g[u] && a.head == v && IsWalk(g, root, u, p)
  }

  ghost function Length(w: Walk): nat {
    match w
    case Start => 0
    case Step(p, _, a) => Length(p) + a.weight
  }

  ghost function Hops(w: Walk): nat {
    match w
    case Start => 0
    case Step(p, _, _) => Hops(p) + 1
  }

  /** Some walk from the root to `v` has length exactly `d`. */
  ghost predicate Reaches(g: Graph, root: nat, v: nat, d: int) {
    exists w :: IsWalk(g, root, v, w) && Length(w) == d
  }

  ghost predicate Reachable(g: Graph, root: nat, v: nat) {
    exists w :: IsWalk(g, root, v, w)
  }

  /** `dist` holds -1 exactly on the unreachable vertices and elsewhere the least length of a walk. */
  ghost predicate Shortest(g: Graph, root: nat, dist: seq<int>) {
    && |dist| == |g|
    && forall v :: 0 <= v < |g| ==> ShortestAt(g, root, v, dist[v])
  }

  ghost predicate ShortestAt(g: Graph, root: nat, v: nat, d: int) {
    if d == -1 then !Reachable(g, root, v)
    else Reaches(g, root, v, d) && forall w :: IsWalk(g, root, v, w) ==> d <= Length(w)
  }

  /** Following `pred` from the end of `w` back to the root is the walk `w` itself. */
  ghost predicate FollowsPred(pred: seq<int>, v: nat, w: Walk)
    decreases w
  {
    match w
    case Start => true
    case Step(p, u, _) => v < |pred| && pred[v] == u && FollowsPred(pred, u, p)
  }

  /** Every vertex with a distance is joined to the root by a walk of that length along `pred`. */
  ghost predicate TreeAt(g: Graph, root: nat, dist: seq<int>, pred: seq<int>, v: nat)
    requires v < |dist|
  {
    exists w :: IsWalk(g, root, v, w) && Length(w) == dist[v] && FollowsPred(pred, v, w)
  }

  lemma ReachesStep(g: Graph, root: nat, u: nat, d: int, a: Arc)
    requires u < |g| && a in g[u]
    requires Reaches(g, root, u, d)
    ensures Reaches(g, root, a.head, d + a.weight)
  {
    var w :| IsWalk(g, root, u, w) && Length(w) == d;
    var w' := Step(w, u, a);
    assert IsWalk(g, root, a.head, w') && Length(w') == d + a.weight;
  }

  /** No arc out of a reached vertex can still improve the distance of its head. */
  ghost predicate Closed(g: Graph, dist: seq<int>)
    requires |dist| == |g|
  {
    forall u, a :: 0 <= u < |g| && dist[u] != -1 && a in g[u] ==> Relaxed(g, dist, u, a)
  }

  ghost predicate Relaxed(g: Graph, dist: seq<int>, u: nat, a: Arc)
    requires |dist| == |g| && u < |g|
  {
    a.head < |g| && dist[a.head] != -1 && dist[a.head] <= dist[u] + a.weight
  }

  /** Distances that no arc can improve are below the length of every walk. */
  lemma {:induction false} ClosedBoundsWalks(g: Graph, root: nat, dist: seq<int>, v: nat, w: Walk)
    requires |dist| == |g| && root < |g| && dist[root] == 0
    requires Closed(g, dist)
    requires IsWalk(g, root, v, w)
    ensures v < |g| && dist[v] != -1 && dist[v] <= Length(w)
    decreases w
  {
    match w
    case Start =>
    case Step(p, u, a) =>
      ClosedBoundsWalks(g, root, dist, u, p);
      assert Relaxed(g, dist, u, a);
  }

  /** Closed distances, each the length of some walk, are the shortest ones. */
  lemma ClosedAndReachedIsShortest(g: Graph, root: nat, dist: seq<int>)
    requires |dist| == |g| && root < |g| && dist[root] == 0
    requires Closed(g, dist)
    requires forall v :: 0 <= v < |g| && dist[v] != -1 ==> Reaches(g, root, v, dist[v])
    ensures Shortest(g, root, dist)
  {
    forall v | 0 <= v < |g|
      ensures ShortestAt(g, root, v, dist[v])
    {
      forall w | IsWalk(g, root, v, w)
        ensures dist[v] != -1 && dist[v] <= Length(w)
      {
        ClosedBoundsWalks(g, root, dist, v, w);
      }
    }
  }
}
