/** The result validator. All PEs are one object; between two barriers the messages are handled in any
    order. */
module Validator {
  import opened Graphs
  import opened Edges
  import opened Sums
  import opened ValidateSpec
  import B = BfsSpec
  import S = SsspSpec

  // ----- Depths from predecessors -----

  predicate Given(root: nat, pred: seq<int>, v: nat)
    requires v < |pred|
  {
    v == root || pred[v] == -1 || pred[v] == root
  }

  function Initial(root: nat, pred: seq<int>, v: nat): Depth
    requires v < |pred|
  {
    if v == root then Fin(0) else if pred[v] == root then Fin(1) else if pred[v] == -1 then UNSEEN else Inf
  }

  ghost predicate Adjacent(es: seq<Edge>, u: int, v: nat) {
    exists e :: e in es && e.u == u && e.v == v
  }

  /** The depth of a vertex: given at the start, or one more than that of its predecessor if the two are
      joined by an edge, or infinite. */
  ghost predicate DepthAt(es: seq<Edge>, root: nat, pred: seq<int>, dist: seq<Depth>, v: nat)
    requires v < |pred| == |dist| && RangeOk(pred)
  {
    if Given(root, pred, v) then dist[v] == Initial(root, pred, v)
    else dist[v] == if Adjacent(es, pred[v], v) && dist[pred[v]].Fin? && dist[pred[v]].d >= 1
                    then Plus(dist[pred[v]], 1) else Inf
  }

  ghost predicate IsDepthMap(es: seq<Edge>, root: nat, pred: seq<int>, dist: seq<Depth>) {
    |pred| == |dist| && RangeOk(pred) && forall v :: 0 <= v < |pred| ==> DepthAt(es, root, pred, dist, v)
  }

  /** While level `level` is handled: depths so far are right, and a vertex still without depth has no
      predecessor above that level. */
  ghost predicate Partial(es: seq<Edge>, root: nat, pred: seq<int>, dist: seq<Depth>, level: nat, v: nat)
    requires v < |pred| == |dist| && RangeOk(pred)
  {
    if Given(root, pred, v) then dist[v] == Initial(root, pred, v)
    else if dist[v].Fin? then
      && 2 <= dist[v].d && Adjacent(es, pred[v], v) && dist[pred[v]] == Fin(dist[v].d - 1)
    else !(Adjacent(es, pred[v], v) && dist[pred[v]].Fin? && 1 <= dist[pred[v]].d < level)
  }

  ghost predicate PartialMap(es: seq<Edge>, root: nat, pred: seq<int>, dist: seq<Depth>, level: nat) {
    |pred| == |dist| && RangeOk(pred) && forall v :: 0 <= v < |pred| ==> Partial(es, root, pred, dist, level, v)
  }

  predicate Within(dist: seq<Depth>, d: int) {
    forall v :: 0 <= v < |dist| && dist[v].Fin? ==> dist[v].d <= d
  }

  function Infinite(dist: seq<Depth>): nat {
    if dist == [] then 0 else Infinite(dist[..|dist| - 1]) + (if dist[|dist| - 1].Inf? then 1 else 0)
  }

  lemma {:induction false} InfiniteUpdate(dist: seq<Depth>, v: nat, d: int)
    requires v < |dist| && dist[v].Inf?
    ensures Infinite(dist[v := Fin(d)]) == Infinite(dist) - 1
  {
    var n := |dist| - 1;
    if v == n {
      assert dist[v := Fin(d)][..n] == dist[..n];
    } else {
      assert dist[v := Fin(d)][..n] == dist[..n][v := Fin(d)];
      InfiniteUpdate(dist[..n], v, d);
    }
  }

  /** Whether the handler gives the head of an edge a depth. */
  predicate Deepens(pred: seq<int>, dist: seq<Depth>, e: Edge)
    requires e.v < |pred| == |dist|
  {
    pred[e.v] == e.u && dist[e.v].Inf?
  }

  /** Handling one message of a level. */
  lemma DeepenKeeps(es: seq<Edge>, root: nat, pred: seq<int>, dist: seq<Depth>, level: nat, e: Edge)
    requires PartialMap(es, root, pred, dist, level) && level >= 1 && e in es && e.u < |pred| && e.v < |pred|
    requires dist[e.u] == Fin(level) && Deepens(pred, dist, e)
    ensures PartialMap(es, root, pred, dist[e.v := Fin(level + 1)], level)
  {
    var dist' := dist[e.v := Fin(level + 1)];
    assert Partial(es, root, pred, dist, level, e.v);
    assert Adjacent(es, pred[e.v], e.v);
    forall v | 0 <= v < |pred| ensures Partial(es, root, pred, dist', level, v) {
      assert Partial(es, root, pred, dist, level, v);
    }
  }

  /** The messages of a level: one for each edge out of a vertex at that depth. */
  function LevelEdges(es: seq<Edge>, dist: seq<Depth>, level: nat): (ms: seq<Edge>)
    requires forall e :: e in es ==> e.u < |dist|
    ensures forall e :: e in ms <==> e in es && dist[e.u] == Fin(level)
  {
    if es == [] then []
    else
      var n := |es| - 1;
      assert es == es[..n] + [es[n]];
      LevelEdges(es[..n], dist, level) + (if dist[es[n].u] == Fin(level) then [es[n]] else [])
  }

  /** One level: every message is handled, in any order. */
  method HandleLevel(es: seq<Edge>, root: nat, pred: seq<int>, dist: seq<Depth>, level: nat)
    returns (dist': seq<Depth>, newvisits: nat)
    requires Within(dist, level)
    requires PartialMap(es, root, pred, dist, level) && level >= 1
             && forall e :: e in es ==> e.u < |pred| && e.v < |pred|
    ensures PartialMap(es, root, pred, dist', level + 1) && |dist'| == |dist|
    ensures newvisits == Infinite(dist) - Infinite(dist')
    ensures newvisits == 0 ==> dist' == dist
    ensures Within(dist', level + 1)
  {
    dist', newvisits := dist, 0;
    var net := LevelEdges(es, dist, level);
    while net != []
      invariant PartialMap(es, root, pred, dist', level)
      invariant Within(dist', level + 1)
      invariant newvisits == Infinite(dist) - Infinite(dist') && (newvisits == 0 ==> dist' == dist)
      invariant forall e :: e in net ==> e in es && dist'[e.u] == Fin(level)
      invariant forall e :: e in es && dist'[e.u] == Fin(level) ==> e in net || !Deepens(pred, dist', e)
      decreases |net|
    {
      var k :| 0 <= k < |net|;
      var m := net[k];
      if pred[m.v] == m.u && dist'[m.v].Inf? {
        DeepenKeeps(es, root, pred, dist', level, m);
        InfiniteUpdate(dist', m.v, level + 1);
        dist' := dist'[m.v := Fin(level + 1)];
        newvisits := newvisits + 1;
      }
      Others(net, k);
      net := net[..k] + net[k + 1..];
    }
    LevelDone(es, root, pred, dist', level);
  }

  lemma Others<T>(s: seq<T>, k: nat)
    requires k < |s|
    ensures forall x :: x in s ==> x == s[k] || x in s[..k] + s[k + 1..]
    ensures forall x :: x in s[..k] + s[k + 1..] ==> x in s
  {
    assert s == s[..k] + [s[k]] + s[k + 1..];
  }

  lemma LevelDone(es: seq<Edge>, root: nat, pred: seq<int>, dist: seq<Depth>, level: nat)
    requires PartialMap(es, root, pred, dist, level) && level >= 1
             && forall e :: e in es ==> e.u < |pred| && e.v < |pred|
    requires forall e :: e in es && dist[e.u] == Fin(level) ==> !Deepens(pred, dist, e)
    ensures PartialMap(es, root, pred, dist, level + 1)
  {
    var next := level + 1;
    forall v | 0 <= v < |pred| ensures Partial(es, root, pred, dist, next, v) {
      assert Partial(es, root, pred, dist, level, v);
      if !Given(root, pred, v) && dist[v].Inf? && Adjacent(es, pred[v], v) {
        var e :| e in es && e.u == pred[v] && e.v == v;
        assert Deepens(pred, dist, e);
      }
    }
  }

  lemma MapDone(es: seq<Edge>, root: nat, pred: seq<int>, dist: seq<Depth>, level: nat)
    requires PartialMap(es, root, pred, dist, level) && level >= 1
    requires Within(dist, level - 1)
    ensures IsDepthMap(es, root, pred, dist)
  {
    forall v | 0 <= v < |pred| ensures DepthAt(es, root, pred, dist, v) {
      assert Partial(es, root, pred, dist, level, v);
    }
  }

  /** Gives every vertex its depth, level by level, until a level adds none. */
  method MakeDepthMap(es: seq<Edge>, root: nat, pred: seq<int>) returns (dist: seq<Depth>)
    requires RangeOk(pred) && root < |pred| && forall e :: e in es ==> e.u < |pred| && e.v < |pred|
    ensures IsDepthMap(es, root, pred, dist)
  {
    dist := seq(|pred|, v requires 0 <= v < |pred| => Initial(root, pred, v));
    var newvisits, prevlevel := 1, 0;
    while newvisits != 0
      invariant PartialMap(es, root, pred, dist, prevlevel + 1) && (newvisits == 0 ==> prevlevel >= 1)
      invariant Within(dist, prevlevel + if newvisits == 0 then 0 else 1)
      decreases Infinite(dist), newvisits
    {
      prevlevel := prevlevel + 1;
      dist, newvisits := HandleLevel(es, root, pred, dist, prevlevel);
    }
    MapDone(es, root, pred, dist, prevlevel + 1);
  }

  // ----- Edges -----

  function Bad(pred: seq<int>, dist: seq<Depth>, e: Edge): nat {
    if e.u < |pred| == |dist| && e.v < |pred| && !EdgeOk(pred, dist, e) then 1 else 0
  }

  /** Edges with a visited end, counted in one direction. */
  function Traversed(pred: seq<int>, e: Edge): nat {
    if e.u < |pred| && e.v < |pred| && (pred[e.u] != -1 || pred[e.v] != -1) && e.u < e.v then 1 else 0
  }

  function BadFn(pred: seq<int>, dist: seq<Depth>): Edge -> nat {
    e => Bad(pred, dist, e)
  }

  function TraversedFn(pred: seq<int>): Edge -> nat {
    e => Traversed(pred, e)
  }

  /** Handles one message per stored edge, in any order. */
  method CheckEdges(es: seq<Edge>, pred: seq<int>, dist: seq<Depth>)
    returns (errors: nat, confirmed: set<nat>, traversed: nat)
    requires |pred| == |dist| && forall e :: e in es ==> e.u < |pred| && e.v < |pred|
    ensures errors == Count(es, BadFn(pred, dist)) && traversed == Count(es, TraversedFn(pred))
    ensures forall v :: v in confirmed <==> exists e :: e in es && e.v == v && Confirms(pred, dist, e)
  {
    errors, confirmed, traversed := 0, {}, 0;
    var net := es;
    ghost var bad, trav := BadFn(pred, dist), TraversedFn(pred);
    while net != []
      invariant forall e :: e in net ==> e in es
      invariant errors + Count(net, bad) == Count(es, bad) && traversed + Count(net, trav) == Count(es, trav)
      invariant forall v :: v in confirmed ==> exists e :: e in es && e.v == v && Confirms(pred, dist, e)
      invariant forall e :: e in es && Confirms(pred, dist, e) ==> e in net || e.v in confirmed
      decreases |net|
    {
      var k :| 0 <= k < |net|;
      var m := net[k];
      if pred[m.u] == -1 && pred[m.v] == -1 {
      } else {
        if m.u < m.v {
          traversed := traversed + 1;
        }
        if (pred[m.u] == -1) != (pred[m.v] == -1) {
          errors := errors + 1;
        } else {
          if pred[m.v] == m.u && dist[m.v] == Plus(dist[m.u], m.w) {
            confirmed := confirmed + {m.v};
          }
          if Below(Plus(dist[m.u], m.w), dist[m.v]) || Below(Plus(dist[m.v], m.w), dist[m.u]) {
            errors := errors + 1;
          }
        }
      }
      CountRemove(net, k, bad);
      CountRemove(net, k, trav);
      Others(net, k);
      net := net[..k] + net[k + 1..];
    }
  }

  lemma NoneBad(es: seq<Edge>, pred: seq<int>, dist: seq<Depth>)
    requires |pred| == |dist| && forall e :: e in es ==> e.u < |pred| && e.v < |pred|
    ensures Count(es, BadFn(pred, dist)) == 0 <==> forall e :: e in es ==> EdgeOk(pred, dist, e)
  {
    var bad := BadFn(pred, dist);
    if forall e :: e in es ==> EdgeOk(pred, dist, e) {
      forall i | 0 <= i < |es| ensures bad(es[i]) == 0 {
        assert es[i] in es;
      }
      CountZero(es, bad);
    } else {
      var e :| e in es && !EdgeOk(pred, dist, e);
      var i :| 0 <= i < |es| && es[i] == e;
      CountMember(es, i, bad);
    }
  }

  datatype Option<T> = None | Some(value: T)

  class Checker {
    /** Errors found since the program started; they are never forgotten. */
    var errors: nat

    /** Predecessors must be vertices or -1. */
    method CheckRange(pred: seq<int>)
      modifies this
      ensures errors >= old(errors) && (errors == old(errors) <==> RangeOk(pred))
    {
      for i := 0 to |pred|
        invariant errors >= old(errors)
        invariant errors == old(errors) <==> forall v :: 0 <= v < i ==> -1 <= pred[v] < |pred|
      {
        if (pred[i] != -1 && pred[i] < 0) || pred[i] > |pred| - 1 {
          errors := errors + 1;
        }
      }
    }

    /** Every visited vertex must be confirmed by an edge. */
    method CheckConfirmed(pred: seq<int>, confirmed: set<nat>)
      modifies this
      ensures errors >= old(errors)
      ensures errors == old(errors) <==> forall v :: 0 <= v < |pred| ==> pred[v] == -1 || v in confirmed
    {
      for i := 0 to |pred|
        invariant errors >= old(errors)
        invariant errors == old(errors) <==> forall v :: 0 <= v < i ==> pred[v] == -1 || v in confirmed
      {
        if i !in confirmed && pred[i] != -1 {
          errors := errors + 1;
        }
      }
    }

    /** Validates a result. For a breadth-first search the depths are computed first and all weights
        count as one. The result is accepted exactly if nothing went wrong before, all checks pass, and
        the edge count, if one is given, is right. */
    method ValidateResult(isBfs: bool, g: Graph, root: nat, pred: seq<int>, given: seq<Depth>, nedges: Option<int>)
        returns (ok: bool, dist: seq<Depth>)
      requires WellFormed(g) && root < |g| == |pred| == |given|
      modifies this
      ensures ok <==> errors == 0
      ensures ok ==>
                && old(errors) == 0 && (isBfs ==> IsDepthMap(AllEdges(Weights(isBfs, g)), root, pred, dist))
                && (!isBfs ==> dist == given)
      ensures old(errors) == 0 && RangeOk(pred) ==>
                (ok <==> Accepts(Weights(isBfs, g), root, pred, dist)
                         && (nedges.Some? ==> nedges.value == Count(AllEdges(Weights(isBfs, g)), TraversedFn(pred))))
      ensures !RangeOk(pred) ==> !ok
    {
      var h := Weights(isBfs, g);
      var es := AllEdges(h);
      WeightsWellFormed(isBfs, g);
      WellFormedInside(h);
      dist := given;
      CheckRange(pred);
      if errors > 0 {
        return false, dist;
      }
      if isBfs {
        dist := MakeDepthMap(es, root, pred);
      }
      var bad, rootOk := CheckVertices(pred, dist, root);
      var edgeErrors, confirmed, traversed := CheckEdges(es, pred, dist);
      NoneBad(es, pred, dist);
      if rootOk {
        confirmed := confirmed + {root};
      }
      errors := errors + bad + edgeErrors;
      CheckConfirmed(pred, confirmed);
      if nedges.Some? && nedges.value != traversed {
        errors := errors + 1;
      }
      ok := errors == 0;
    }
  }

  /** Checks of single vertices and of the root. */
  method CheckVertices(pred: seq<int>, dist: seq<Depth>, root: nat) returns (bad: nat, rootOk: bool)
    requires root < |pred| == |dist|
    ensures rootOk == RootOk(pred, dist, root)
    ensures bad == 0 <==> rootOk && forall v :: 0 <= v < |pred| ==> VertexOk(pred, dist, v)
  {
    bad := 0;
    for i := 0 to |pred|
      invariant bad == 0 <==> forall v :: 0 <= v < i ==> VertexOk(pred, dist, v)
    {
      ghost var before := bad;
      if dist[i] != UNSEEN && Below(dist[i], Fin(0)) {
        bad := bad + 1;
      }
      if (pred[i] == -1 && dist[i] != UNSEEN) || (pred[i] != -1 && dist[i] == UNSEEN) {
        bad := bad + 1;
      }
      assert bad == before <==> VertexOk(pred, dist, i);
    }
    rootOk := true;
    if pred[root] != root || dist[root] != Fin(0) {
      bad := bad + 1;
      rootOk := false;
    }
  }

  function Weights(isBfs: bool, g: Graph): Graph {
    if isBfs then B.Hop(g) else g
  }

  lemma WeightsWellFormed(isBfs: bool, g: Graph)
    requires WellFormed(g)
    ensures WellFormed(Weights(isBfs, g)) && |Weights(isBfs, g)| == |g|
  {
    var h := Weights(isBfs, g);
    forall u, a: Arc | 0 <= u < |h| && a in h[u] ensures a.head < |h| {
      var j :| 0 <= j < |h[u]| && h[u][j] == a;
      assert g[u][j] in g[u];
    }
  }

  // ----- The kernels' results pass -----

  /** The last edge of a shortest walk along the predecessors is tight. */
  lemma TreeTight(g: Graph, root: nat, dist: seq<int>, pred: seq<int>, v: nat)
    requires WellFormed(g) && Shortest(g, root, dist) && |pred| == |g| && v < |g| && v != root
    requires dist[v] != -1 && TreeAt(g, root, dist, pred, v)
    ensures Tight(g, dist, pred, v)
  {
    var w :| IsWalk(g, root, v, w) && Length(w) == dist[v] && FollowsPred(pred, v, w);
    match w {
      case Start =>
      case Step(p, u, a) =>
        assert IsWalk(g, root, u, p);
        assert ShortestAt(g, root, u, dist[u]);
        assert Reachable(g, root, u);
        NonNegative(g, root, u, dist[u]);
        ExactAlong(g, root, dist, u, a);
        assert a == Arc(v, dist[v] - dist[u]);
    }
  }

  lemma NonNegative(g: Graph, root: nat, v: nat, d: int)
    requires ShortestAt(g, root, v, d)
    ensures d >= -1
  {
  }

  lemma RootExact(g: Graph, root: nat, dist: seq<int>)
    requires root < |g| && Shortest(g, root, dist)
    ensures dist[root] == 0 && forall v :: 0 <= v < |g| ==> dist[v] >= -1
  {
    assert ShortestAt(g, root, root, dist[root]);
    assert IsWalk(g, root, root, Walk.Start) && Length(Walk.Start) == 0;
    forall v | 0 <= v < |g| ensures dist[v] >= -1 {
      NonNegative(g, root, v, dist[v]);
    }
  }

  /** On graphs that store every edge in both directions, what the shortest path kernel leaves behind is
      accepted. */
  lemma SsspResultAccepted(job: S.Job, dist: seq<int>, pred: seq<int>)
    requires S.ValidJob(job) && Symmetric(job.g) && S.Solved(job, dist, pred)
    ensures Accepts(job.g, job.root, pred, Depths(dist))
  {
    RootExact(job.g, job.root, dist);
    forall v | 0 <= v < |job.g| && v != job.root && dist[v] != -1 ensures Tight(job.g, dist, pred, v) {
      TreeTight(job.g, job.root, dist, pred, v);
    }
    ExactIsAccepted(job.g, job.root, pred, dist);
  }

  /** The depths computed from the predecessors of a breadth-first search are the hop distances. */
  lemma {:induction false} DepthMapIsDepth(job: B.Job, depth: seq<int>, pred: seq<int>, dist: seq<Depth>, v: nat)
    requires B.ValidJob(job) && B.Solved(job, depth, pred) && IsDepthMap(AllEdges(B.Hop(job.g)), job.root, pred, dist)
    requires v < |job.g|
    ensures dist[v] == Fin(depth[v])
    decreases depth[v] + 1
  {
    var h, es := B.Hop(job.g), AllEdges(B.Hop(job.g));
    RootExact(h, job.root, depth);
    assert DepthAt(es, job.root, pred, dist, v);
    WeightsWellFormed(true, job.g);
    if v != job.root && pred[v] != -1 {
      assert TreeAt(h, job.root, depth, pred, v) && depth[v] != -1 by {
        assert ShortestAt(h, job.root, v, depth[v]);
      }
      TreeTight(h, job.root, depth, pred, v);
      var u := pred[v];
      HopWeight(job.g, u, Arc(v, depth[v] - depth[u]));
      if u != job.root {
        DepthMapIsDepth(job, depth, pred, dist, u);
        InEdges(h, Edge(u, v, 1));
        assert Adjacent(es, u, v);
        OnlyRootZero(job, depth, pred, u);
      }
    } else if v != job.root {
      assert ShortestAt(h, job.root, v, depth[v]);
    }
  }

  lemma HopWeight(g: Graph, u: nat, a: Arc)
    requires u < |g| && a in B.Hop(g)[u]
    ensures a.weight == 1
  {
  }

  lemma OnlyRootZero(job: B.Job, depth: seq<int>, pred: seq<int>, u: nat)
    requires B.ValidJob(job) && B.Solved(job, depth, pred) && u < |job.g| && u != job.root && depth[u] >= 0
    ensures depth[u] >= 1
  {
    var h := B.Hop(job.g);
    assert ShortestAt(h, job.root, u, depth[u]);
    var w :| IsWalk(h, job.root, u, w) && Length(w) == depth[u];
    match w {
      case Start =>
      case Step(p, x, a) =>
        HopWeight(job.g, x, a);
    }
  }

  /** What the breadth-first search kernel leaves behind is accepted, and its depths are the hop
      distances. */
  lemma BfsResultAccepted(job: B.Job, depth: seq<int>, pred: seq<int>, dist: seq<Depth>)
    requires B.ValidJob(job) && Symmetric(B.Hop(job.g)) && B.Solved(job, depth, pred)
    requires IsDepthMap(AllEdges(B.Hop(job.g)), job.root, pred, dist)
    ensures dist == Depths(depth) && Accepts(B.Hop(job.g), job.root, pred, dist)
  {
    var h := B.Hop(job.g);
    WeightsWellFormed(true, job.g);
    RootExact(h, job.root, depth);
    forall v | 0 <= v < |job.g| ensures dist[v] == Fin(depth[v]) {
      DepthMapIsDepth(job, depth, pred, dist, v);
    }
    assert dist == Depths(depth);
    forall v | 0 <= v < |h| && v != job.root
      ensures if depth[v] == -1 then pred[v] == -1 else Tight(h, depth, pred, v)
    {
      assert ShortestAt(h, job.root, v, depth[v]);
      if depth[v] != -1 {
        assert Reachable(h, job.root, v);
        TreeTight(h, job.root, depth, pred, v);
      }
    }
    ExactIsAccepted(h, job.root, pred, depth);
  }

  // ----- Counting edges -----

  /** The kernel counts the edges of visited rows that do not lead to a higher vertex. */
  function Counted(pred: seq<int>, e: Edge): nat {
    if e.u < |pred| && pred[e.u] != -1 && e.v <= e.u then 1 else 0
  }

  function CountedFn(pred: seq<int>): Edge -> nat {
    e => Counted(pred, e)
  }

  method EdgeCountForTeps(g: Graph, pred: seq<int>) returns (count: nat)
    requires |pred| == |g|
    ensures count == Count(AllEdges(g), CountedFn(pred))
  {
    count := 0;
    ghost var f := CountedFn(pred);
    for i := 0 to |g|
      invariant count == Count(EdgesBelow(g, i), f)
    {
      ghost var row := RowEdges(i, g[i]);
      CountConcat(EdgesBelow(g, i), row, f);
      if pred[i] != -1 {
        ghost var before := count;
        for j := 0 to |g[i]|
          invariant count == before + Count(row[..j], f)
        {
          assert row[..j + 1][..j] == row[..j];
          if g[i][j].head <= i {
            count := count + 1;
          }
        }
        assert row[..|row|] == row;
      } else {
        CountZero(row, f);
      }
    }
  }

  /** For an accepted result on a graph without loops that stores every edge in both directions, the
      kernel's count is the validator's. */
  lemma CountsAgree(g: Graph, root: nat, pred: seq<int>, dist: seq<Depth>)
    requires Symmetric(g) && Accepts(g, root, pred, dist) && forall e :: e in AllEdges(g) ==> e.u != e.v
    ensures Count(AllEdges(g), CountedFn(pred)) == Count(AllEdges(g), TraversedFn(pred))
  {
    var es := AllEdges(g);
    CountPermuted(es, Flipped(es), CountedFn(pred));
    forall i | 0 <= i < |es| ensures CountedFn(pred)(Flip(es[i])) == TraversedFn(pred)(es[i]) {
      assert es[i] in es && EdgeOk(pred, dist, es[i]);
    }
    CountFlipped(es, CountedFn(pred), TraversedFn(pred));
  }
}
