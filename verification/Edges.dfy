/** All stored edges of a graph in one list, and totals over such lists. */
module Edges {
  import opened Graphs
  import opened Sums

  datatype Edge = Edge(u: nat, v: nat, w: nat)

  function RowEdges(u: nat, row: seq<Arc>): (es: seq<Edge>)
    ensures |es| == |row| && forall j :: 0 <= j < |row| ==> es[j] == Edge(u, row[j].head, row[j].weight)
  {
    seq(|row|, j requires 0 <= j < |row| => Edge(u, row[j].head, row[j].weight))
  }

  /** The edges of the first `n` rows. */
  function EdgesBelow(g: Graph, n: nat): seq<Edge>
    requires n <= |g|
  {
    if n == 0 then [] else EdgesBelow(g, n - 1) + RowEdges(n - 1, g[n - 1])
  }

  function AllEdges(g: Graph): seq<Edge> {
    EdgesBelow(g, |g|)
  }

  lemma {:induction false} InEdgesBelow(g: Graph, n: nat, e: Edge)
    requires n <= |g|
    ensures e in EdgesBelow(g, n) <==> e.u < n && Arc(e.v, e.w) in g[e.u]
  {
    if n > 0 {
      InEdgesBelow(g, n - 1, e);
      var row := g[n - 1];
      if e.u == n - 1 && Arc(e.v, e.w) in row {
        var j :| 0 <= j < |row| && row[j] == Arc(e.v, e.w);
        assert RowEdges(n - 1, row)[j] == e;
      }
    }
  }

  lemma InEdges(g: Graph, e: Edge)
    ensures e in AllEdges(g) <==> e.u < |g| && Arc(e.v, e.w) in g[e.u]
  {
    InEdgesBelow(g, |g|, e);
  }

  function Flip(e: Edge): Edge {
    Edge(e.v, e.u, e.w)
  }

  function Flipped(es: seq<Edge>): (fs: seq<Edge>)
    ensures |fs| == |es| && forall i :: 0 <= i < |es| ==> fs[i] == Flip(es[i])
  {
    seq(|es|, i requires 0 <= i < |es| => Flip(es[i]))
  }

  /** Every edge is stored as often in one direction as in the other. */
  ghost predicate Symmetric(g: Graph) {
    multiset(AllEdges(g)) == multiset(Flipped(AllEdges(g)))
  }

  lemma SymmetricArc(g: Graph, u: nat, a: Arc)
    requires Symmetric(g) && u < |g| && a in g[u]
    ensures a.head < |g| && Arc(u, a.weight) in g[a.head]
  {
    var e, es := Edge(u, a.head, a.weight), AllEdges(g);
    InEdges(g, e);
    var i :| 0 <= i < |es| && es[i] == e;
    assert Flipped(es)[i] == Flip(e);
    assert Flip(e) in multiset(Flipped(es));
    assert Flip(e) in es;
    InEdges(g, Flip(e));
  }

  /** Totals do not depend on the order. */
  lemma {:induction false} CountPermuted<T>(a: seq<T>, b: seq<T>, f: T -> nat)
    requires multiset(a) == multiset(b)
    ensures Count(a, f) == Count(b, f)
    decreases |a|
  {
    if a == [] {
      assert |multiset(b)| == 0;
    } else {
      var n := |a| - 1;
      var x := a[n];
      assert x in multiset(b);
      var k :| 0 <= k < |b| && b[k] == x;
      RemoveOne(b, k);
      RemoveOne(a, n);
      assert a[..n] + a[n + 1..] == a[..n];
      CountPermuted(a[..n], b[..k] + b[k + 1..], f);
      CountRemove(b, k, f);
    }
  }

  lemma RemoveOne<T>(s: seq<T>, k: nat)
    requires k < |s|
    ensures multiset(s[..k] + s[k + 1..]) == multiset(s) - multiset{s[k]}
  {
    assert s == s[..k] + [s[k]] + s[k + 1..];
  }

  lemma {:induction false} CountFlipped(es: seq<Edge>, f: Edge -> nat, h: Edge -> nat)
    requires forall i :: 0 <= i < |es| ==> f(Flip(es[i])) == h(es[i])
    ensures Count(Flipped(es), f) == Count(es, h)
  {
    if es != [] {
      var n := |es| - 1;
      assert Flipped(es)[..n] == Flipped(es[..n]);
      CountFlipped(es[..n], f, h);
    }
  }

  lemma {:induction false} CountSame<T>(s: seq<T>, f: T -> nat, h: T -> nat)
    requires forall i :: 0 <= i < |s| ==> f(s[i]) == h(s[i])
    ensures Count(s, f) == Count(s, h)
  {
    if s != [] {
      CountSame(s[..|s| - 1], f, h);
    }
  }
}
