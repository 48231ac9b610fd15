/** What the two passes build from an edge list: the undirected graph without loops, each edge stored
    at both ends. */
module CsrGraph {
  import opened Graphs
  import opened Partition
  import opened Csr
  import E = Edges

  datatype Tuple = Tuple(v0: nat, v1: nat, w: nat)

  function ForPe(pes: nat, p: nat, src: nat, tgt: nat, w: nat): seq<Full>
    requires pes > 0
  {
    if Owner(pes, src) == p then [Full(Local(pes, src), tgt, w)] else []
  }

  /** The second-pass messages for PE `p`, in the order of the list. */
  function FullsFor(pes: nat, p: nat, edges: seq<Tuple>): seq<Full>
    requires pes > 0
  {
    if edges == [] then []
    else
      var n := |edges| - 1;
      var e := edges[n];
      FullsFor(pes, p, edges[..n])
      + if e.v0 == e.v1 then [] else ForPe(pes, p, e.v0, e.v1, e.w) + ForPe(pes, p, e.v1, e.v0, e.w)
  }

  /** The first-pass messages carry the row only. */
  function Rows(f: seq<Full>): seq<nat> {
    if f == [] then [] else Rows(f[..|f| - 1]) + [f[|f| - 1].v]
  }

  lemma {:induction false} RowsCount(f: seq<Full>, v: nat)
    ensures HalfCount(Rows(f), v) == |Targets(f, v)|
  {
    if f != [] {
      RowsCount(f[..|f| - 1], v);
      assert Rows(f)[..|Rows(f)| - 1] == Rows(f[..|f| - 1]);
    }
  }

  // ----- The order of arrival does not matter -----

  lemma {:induction false} HalfCountIs(h: seq<nat>, v: nat)
    ensures HalfCount(h, v) == multiset(h)[v]
  {
    if h != [] {
      assert h == h[..|h| - 1] + [h[|h| - 1]];
      HalfCountIs(h[..|h| - 1], v);
    }
  }

  lemma {:induction false} TargetsCount(f: seq<Full>, v: nat, a: Arc)
    ensures multiset(Targets(f, v))[a] == multiset(f)[Full(v, a.head, a.weight)]
  {
    if f != [] {
      assert f == f[..|f| - 1] + [f[|f| - 1]];
      TargetsCount(f[..|f| - 1], v, a);
    }
  }

  lemma TargetsPermuted(f: seq<Full>, f': seq<Full>, v: nat)
    requires multiset(f) == multiset(f')
    ensures multiset(Targets(f, v)) == multiset(Targets(f', v)) && |Targets(f, v)| == |Targets(f', v)|
  {
    forall a ensures multiset(Targets(f, v))[a] == multiset(Targets(f', v))[a] {
      TargetsCount(f, v, a);
      TargetsCount(f', v, a);
    }
    assert multiset(Targets(f, v)) == multiset(Targets(f', v));
    assert |multiset(Targets(f, v))| == |Targets(f, v)|;
    assert |multiset(Targets(f', v))| == |Targets(f', v)|;
  }

  /** Whatever the orders of arrival in the two passes, the first announces what the second brings. */
  lemma PassesAgree(pes: nat, p: nat, edges: seq<Tuple>, h: seq<nat>, f: seq<Full>, v: nat)
    requires pes > 0 && multiset(h) == multiset(Rows(FullsFor(pes, p, edges)))
             && multiset(f) == multiset(FullsFor(pes, p, edges))
    ensures HalfCount(h, v) == |Targets(f, v)|
  {
    var all := FullsFor(pes, p, edges);
    HalfCountIs(h, v);
    HalfCountIs(Rows(all), v);
    RowsCount(all, v);
    TargetsPermuted(f, all, v);
  }

  // ----- Neighbours -----

  function Other(e: Tuple, v: nat): seq<Arc> {
    if e.v0 == e.v1 then []
    else (if e.v0 == v then [Arc(e.v1, e.w)] else []) + (if e.v1 == v then [Arc(e.v0, e.w)] else [])
  }

  /** The other ends of the edges at `v` that are not loops. */
  function Neighbours(edges: seq<Tuple>, v: nat): seq<Arc> {
    if edges == [] then [] else Neighbours(edges[..|edges| - 1], v) + Other(edges[|edges| - 1], v)
  }

  lemma ForPeTargets(pes: nat, p: nat, f: seq<Full>, src: nat, tgt: nat, w: nat, v: nat)
    requires pes > 0 && Owner(pes, v) == p
    ensures Targets(f + ForPe(pes, p, src, tgt, w), Local(pes, v))
            == Targets(f, Local(pes, v)) + (if src == v then [Arc(tgt, w)] else [])
  {
    GlobalRoundTrip(pes, v);
    GlobalRoundTrip(pes, src);
    var g := f + ForPe(pes, p, src, tgt, w);
    if Owner(pes, src) == p {
      assert g[..|g| - 1] == f;
    } else {
      assert g == f;
    }
  }

  lemma {:induction false} TargetsAreNeighbours(pes: nat, edges: seq<Tuple>, v: nat)
    requires pes > 0
    ensures Targets(FullsFor(pes, Owner(pes, v), edges), Local(pes, v)) == Neighbours(edges, v)
  {
    hide Targets, ForPe, Owner, Local;
    if edges == [] {
      NoTargets(Local(pes, v));
    } else {
      var n := |edges| - 1;
      var e, p := edges[n], Owner(pes, v);
      TargetsAreNeighbours(pes, edges[..n], v);
      if e.v0 != e.v1 {
        var f := FullsFor(pes, p, edges[..n]);
        ForPeTargets(pes, p, f, e.v0, e.v1, e.w, v);
        ForPeTargets(pes, p, f + ForPe(pes, p, e.v0, e.v1, e.w), e.v1, e.v0, e.w, v);
        assert FullsFor(pes, p, edges) == f + ForPe(pes, p, e.v0, e.v1, e.w) + ForPe(pes, p, e.v1, e.v0, e.w);
      } else {
        assert FullsFor(pes, p, edges) == FullsFor(pes, p, edges[..n])
               && Neighbours(edges, v) == Neighbours(edges[..n], v);
      }
    }
  }

  /** Row `v` of its owner holds the other ends of the edges at `v`, as often as they occur, whatever the
      order of arrival. */
  lemma RowIsNeighbours(pes: nat, edges: seq<Tuple>, f: seq<Full>, v: nat)
    requires pes > 0 && multiset(f) == multiset(FullsFor(pes, Owner(pes, v), edges))
    ensures multiset(Targets(f, Local(pes, v))) == multiset(Neighbours(edges, v))
  {
    TargetsAreNeighbours(pes, edges, v);
    TargetsPermuted(f, FullsFor(pes, Owner(pes, v), edges), Local(pes, v));
  }

  // ----- The graph as a whole -----

  ghost predicate Built(g: Graph, edges: seq<Tuple>) {
    && (forall k :: 0 <= k < |edges| ==> edges[k].v0 == edges[k].v1 || (edges[k].v0 < |g| && edges[k].v1 < |g|))
    && forall v :: 0 <= v < |g| ==> multiset(g[v]) == multiset(Neighbours(edges, v))
  }

  lemma {:induction false} NeighbourCount(edges: seq<Tuple>, u: nat, v: nat, w: nat)
    ensures multiset(Neighbours(edges, u))[Arc(v, w)] == multiset(Neighbours(edges, v))[Arc(u, w)]
  {
    hide Other;
    if edges != [] {
      NeighbourCount(edges[..|edges| - 1], u, v, w);
      OtherCount(edges[|edges| - 1], u, v, w);
    }
  }

  lemma OtherCount(e: Tuple, u: nat, v: nat, w: nat)
    ensures multiset(Other(e, u))[Arc(v, w)] == multiset(Other(e, v))[Arc(u, w)]
  {
  }

  /** An edge that is not a loop ends at `v`. */
  predicate Ends(e: Tuple, v: nat) {
    e.v0 != e.v1 && (e.v0 == v || e.v1 == v)
  }

  lemma {:induction false} NeighbourIs(edges: seq<Tuple>, v: nat, a: Arc)
    requires a in Neighbours(edges, v)
    ensures a.head != v && exists k :: 0 <= k < |edges| && Ends(edges[k], a.head)
  {
    var n := |edges| - 1;
    if a in Neighbours(edges[..n], v) {
      NeighbourIs(edges[..n], v, a);
      var k :| 0 <= k < n && Ends(edges[..n][k], a.head);
      assert edges[k] == edges[..n][k];
    } else {
      assert a in Other(edges[n], v);
      assert Ends(edges[n], a.head);
    }
  }

  lemma {:induction false} RowEdgesCount(u: nat, row: seq<Arc>, e: E.Edge)
    ensures multiset(E.RowEdges(u, row))[e] == if e.u == u then multiset(row)[Arc(e.v, e.w)] else 0
  {
    if row != [] {
      var n := |row| - 1;
      RowEdgesCount(u, row[..n], e);
      assert row == row[..n] + [row[n]];
      assert E.RowEdges(u, row) == E.RowEdges(u, row[..n]) + [E.Edge(u, row[n].head, row[n].weight)];
    }
  }

  lemma CountConcat(a: seq<E.Edge>, b: seq<E.Edge>, e: E.Edge)
    ensures multiset(a + b)[e] == multiset(a)[e] + multiset(b)[e]
  {
  }

  lemma {:induction false} EdgesCount(g: Graph, n: nat, e: E.Edge)
    requires n <= |g|
    ensures multiset(E.EdgesBelow(g, n))[e] == if e.u < n then multiset(g[e.u])[Arc(e.v, e.w)] else 0
  {
    if n > 0 {
      hide E.RowEdges;
      EdgesCount(g, n - 1, e);
      RowEdgesCount(n - 1, g[n - 1], e);
      CountConcat(E.EdgesBelow(g, n - 1), E.RowEdges(n - 1, g[n - 1]), e);
    }
  }

  lemma {:induction false} FlippedCount(es: seq<E.Edge>, e: E.Edge)
    ensures multiset(E.Flipped(es))[e] == multiset(es)[E.Flip(e)]
  {
    if es != [] {
      var n := |es| - 1;
      FlippedCount(es[..n], e);
      assert es == es[..n] + [es[n]];
      assert E.Flipped(es) == E.Flipped(es[..n]) + [E.Flip(es[n])];
    }
  }

  /** The graph is well formed, has no loops, and stores every edge in both directions. */
  lemma BuiltIsSymmetric(g: Graph, edges: seq<Tuple>)
    requires Built(g, edges)
    ensures WellFormed(g) && E.Symmetric(g) && forall u, a :: 0 <= u < |g| && a in g[u] ==> a.head != u
  {
    forall u, a: Arc | 0 <= u < |g| && a in g[u] ensures a.head < |g| && a.head != u {
      assert a in multiset(g[u]);
      NeighbourIs(edges, u, a);
    }
    var es := E.AllEdges(g);
    forall e ensures multiset(es)[e] == multiset(E.Flipped(es))[e] {
      FlippedCount(es, e);
      SymmetricCount(g, edges, e);
    }
  }

  lemma SymmetricCount(g: Graph, edges: seq<Tuple>, e: E.Edge)
    requires Built(g, edges)
    ensures multiset(E.AllEdges(g))[e] == multiset(E.AllEdges(g))[E.Flip(e)]
  {
    EdgesCount(g, |g|, e);
    EdgesCount(g, |g|, E.Flip(e));
    NeighbourCount(edges, e.u, e.v, e.w);
    if e.u < |g| && e.v >= |g| {
      NoOutsider(g, edges, e.u, Arc(e.v, e.w));
    }
    if e.v < |g| && e.u >= |g| {
      NoOutsider(g, edges, e.v, Arc(e.u, e.w));
    }
  }

  lemma NoOutsider(g: Graph, edges: seq<Tuple>, v: nat, a: Arc)
    requires Built(g, edges) && v < |g| && a.head >= |g|
    ensures multiset(g[v])[a] == 0
  {
    if a in Neighbours(edges, v) {
      NeighbourIs(edges, v, a);
    }
  }
}
