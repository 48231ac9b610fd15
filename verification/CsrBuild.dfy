/** All PEs build their rows, and the rows together are the graph of the edge list. */
module CsrBuild {
  import opened Graphs
  import opened Partition
  import opened Packing
  import opened Csr
  import opened CsrGraph

  /** How many of the first `n` vertices PE `p` owns. */
  function LocalCount(pes: nat, p: nat, n: nat): nat
    requires p < pes
  {
    Local(pes, n + pes - 1 - p)
  }

  lemma LocalCountIs(pes: nat, n: nat, v: nat)
    requires pes > 0
    ensures Owner(pes, v) < pes
    ensures v < n <==> Local(pes, v) < LocalCount(pes, Owner(pes, v), n)
  {
    var q, p := v / pes, v % pes;
    var x := n + pes - 1 - p;
    assert v == q * pes + p && x == (x / pes) * pes + x % pes;
    if v < n && x / pes <= q {
      ScaleAtMost(pes, x / pes, q);
    }
    if q < x / pes {
      ScaleAtMost(pes, q + 1, x / pes);
      assert (q + 1) * pes == q * pes + pes;
    }
  }

  /** Every edge that is not a loop joins two of the first `n` vertices. */
  predicate Inside(edges: seq<Tuple>, n: nat) {
    forall k :: 0 <= k < |edges| ==> edges[k].v0 == edges[k].v1 || (edges[k].v0 < n && edges[k].v1 < n)
  }

  lemma {:induction false} FullsInside(pes: nat, p: nat, edges: seq<Tuple>, n: nat, m: Full)
    requires p < pes && Inside(edges, n) && m in FullsFor(pes, p, edges)
    ensures m.v < LocalCount(pes, p, n) && m.tgt < n
  {
    hide LocalCount, Local, Owner;
    var k := |edges| - 1;
    var e := edges[k];
    if m in FullsFor(pes, p, edges[..k]) {
      FullsInside(pes, p, edges[..k], n, m);
    } else {
      LocalCountIs(pes, n, e.v0);
      LocalCountIs(pes, n, e.v1);
    }
  }

  lemma {:induction false} RowsFrom(f: seq<Full>, v: nat)
    requires v in Rows(f)
    ensures exists m :: m in f && m.v == v
  {
    var k := |f| - 1;
    if v in Rows(f[..k]) {
      RowsFrom(f[..k], v);
      var m :| m in f[..k] && m.v == v;
      assert m in f;
    } else {
      assert f[k] in f && f[k].v == v;
    }
  }

  /** The messages of both passes for one PE, in any order. */
  ghost predicate Arrived(pes: nat, p: nat, edges: seq<Tuple>, h: seq<nat>, f: seq<Full>)
    requires pes > 0
  {
    multiset(f) == multiset(FullsFor(pes, p, edges)) && multiset(h) == multiset(Rows(FullsFor(pes, p, edges)))
  }

  lemma ArrivedInside(pes: nat, p: nat, edges: seq<Tuple>, n: nat, h: seq<nat>, f: seq<Full>)
    requires p < pes && Inside(edges, n) && Arrived(pes, p, edges, h, f)
    ensures forall k :: 0 <= k < |f| ==> f[k].v < LocalCount(pes, p, n) && f[k].tgt < n
    ensures forall k :: 0 <= k < |h| ==> h[k] < LocalCount(pes, p, n)
  {
    hide LocalCount, Inside, FullsFor, Rows;
    var all := FullsFor(pes, p, edges);
    forall k | 0 <= k < |f| ensures f[k].v < LocalCount(pes, p, n) && f[k].tgt < n {
      assert f[k] in multiset(f);
      FullsInside(pes, p, edges, n, f[k]);
    }
    forall k | 0 <= k < |h| ensures h[k] < LocalCount(pes, p, n) {
      assert h[k] in multiset(h);
      RowsFrom(all, h[k]);
      var m :| m in all && m.v == h[k];
      FullsInside(pes, p, edges, n, m);
    }
  }

  // ----- Counters -----

  /** How many counters each PE allocates, before any edge was looked at. */
  function Room(edges: nat, pes: nat): nat
    requires pes > 0
  {
    edges / 2 / pes + 1
  }

  function Max(a: nat, b: nat): nat {
    if a > b then a else b
  }

  /** One more than the largest end of an edge that is not a loop. */
  function Known(edges: seq<Tuple>): nat {
    if edges == [] then 0
    else
      var e, k := edges[|edges| - 1], Known(edges[..|edges| - 1]);
      if e.v0 == e.v1 then k else Max(k, Max(e.v0, e.v1) + 1)
  }

  /** The number of vertices that the graph is taken to have. */
  function Vertices(edges: seq<Tuple>): nat {
    Known(edges) + 1
  }

  lemma {:induction false} KnownIs(edges: seq<Tuple>, n: nat)
    ensures Inside(edges, n) <==> Known(edges) <= n
  {
    if edges != [] {
      var k := |edges| - 1;
      KnownIs(edges[..k], n);
      assert edges == edges[..k] + [edges[k]];
    }
  }

  lemma VerticesInside(edges: seq<Tuple>)
    ensures Inside(edges, Vertices(edges))
  {
    KnownIs(edges, Vertices(edges));
  }

  /** A bound on the local numbers of all PEs is a bound on the vertices. */
  lemma RoomIs(pes: nat, room: nat, v: nat)
    requires pes > 0
    ensures Local(pes, v) < room <==> v < pes * room
  {
    var q, r := v / pes, v % pes;
    assert v == q * pes + r;
    if q < room {
      ScaleAtMost(pes, q + 1, room);
      assert (q + 1) * pes == q * pes + pes;
    } else {
      ScaleAtMost(pes, room, q);
    }
  }

  ghost predicate AllCounted(pes: nat, edges: seq<Tuple>, room: nat)
    requires pes > 0
  {
    forall p, m :: 0 <= p < pes && m in FullsFor(pes, p, edges) ==> m.v < room
  }

  lemma {:induction false} EndsCounted(pes: nat, edges: seq<Tuple>, k: nat)
    requires pes > 0 && k < |edges| && edges[k].v0 != edges[k].v1
    ensures var e := edges[k];
            && Full(Local(pes, e.v0), e.v1, e.w) in FullsFor(pes, Owner(pes, e.v0), edges)
            && Full(Local(pes, e.v1), e.v0, e.w) in FullsFor(pes, Owner(pes, e.v1), edges)
  {
    hide Local, Owner;
    if k < |edges| - 1 {
      EndsCounted(pes, edges[..|edges| - 1], k);
    }
  }

  lemma {:induction false} CountedFrom(pes: nat, p: nat, edges: seq<Tuple>, m: Full) returns (v: nat)
    requires pes > 0 && m in FullsFor(pes, p, edges)
    ensures m.v == Local(pes, v) && v < Known(edges)
  {
    hide Local, Owner;
    var k := |edges| - 1;
    if m in FullsFor(pes, p, edges[..k]) {
      v := CountedFrom(pes, p, edges[..k], m);
    } else if m in ForPe(pes, p, edges[k].v0, edges[k].v1, edges[k].w) {
      v := edges[k].v0;
    } else {
      v := edges[k].v1;
    }
  }

  /** The first pass raises allocated counters only, on all PEs, if and only if every end of an edge that is not
      a loop is below the number of PEs times the counters of each. */
  lemma IncrementsInsideIff(pes: nat, edges: seq<Tuple>)
    requires pes > 0
    ensures AllCounted(pes, edges, Room(|edges|, pes)) <==> Known(edges) <= pes * Room(|edges|, pes)
  {
    hide FullsFor, Local, Owner, Known;
    var room := Room(|edges|, pes);
    hide Room;
    KnownIs(edges, pes * room);
    if AllCounted(pes, edges, room) {
      forall k | 0 <= k < |edges| && edges[k].v0 != edges[k].v1
        ensures edges[k].v0 < pes * room && edges[k].v1 < pes * room
      {
        EndsCounted(pes, edges, k);
        EndInside(pes, edges, room, edges[k].v0, Full(Local(pes, edges[k].v0), edges[k].v1, edges[k].w));
        EndInside(pes, edges, room, edges[k].v1, Full(Local(pes, edges[k].v1), edges[k].v0, edges[k].w));
      }
    }
    if Known(edges) <= pes * room {
      forall p, m | 0 <= p < pes && m in FullsFor(pes, p, edges) ensures m.v < room {
        var v := CountedFrom(pes, p, edges, m);
        RoomIs(pes, room, v);
      }
    }
  }

  lemma EndInside(pes: nat, edges: seq<Tuple>, room: nat, v: nat, m: Full)
    requires pes > 0 && AllCounted(pes, edges, room) && m in FullsFor(pes, Owner(pes, v), edges) && m.v == Local(pes, v)
    ensures v < pes * room
  {
    GlobalRoundTrip(pes, v);
    RoomIs(pes, room, v);
  }

  /** The whole build touches allocated counters only, on all PEs, if and only if this holds of one vertex more. */
  lemma CountersInsideIff(pes: nat, edges: seq<Tuple>)
    requires pes > 0
    ensures (forall p :: 0 <= p < pes ==> LocalCount(pes, p, Vertices(edges)) <= Room(|edges|, pes))
            <==> Vertices(edges) <= pes * Room(|edges|, pes)
  {
    var n, room := Vertices(edges), Room(|edges|, pes);
    hide Vertices, Room;
    if n <= pes * room {
      forall p | 0 <= p < pes ensures LocalCount(pes, p, n) <= room {
        FewEnough(pes, p, n, room);
      }
    } else {
      LocalCountIs(pes, n, pes * room);
      LocalRoundTrip(pes, 0, room);
      assert ToGlobal(pes, 0, room) == pes * room;
      assert LocalCount(pes, 0, n) > room;
    }
  }

  lemma FewEnough(pes: nat, p: nat, n: nat, room: nat)
    requires p < pes && n <= pes * room
    ensures LocalCount(pes, p, n) <= room
  {
    var v := ToGlobal(pes, p, room);
    LocalRoundTrip(pes, p, room);
    assert v == pes * room + p;
    LocalCountIs(pes, n, v);
  }

  /** One edge between vertices 0 and 5 makes a single PE raise a counter that it has not allocated. */
  lemma CounterOverrun()
    ensures var edges := [Tuple(0, 5, 1)];
            Room(|edges|, 1) == 1 && Full(5, 0, 1) in FullsFor(1, 0, edges) && !AllCounted(1, edges, 1)
  {
    var edges := [Tuple(0, 5, 1)];
    EndsCounted(1, edges, 0);
    assert Local(1, 5) == 5 && Owner(1, 5) == 0;
  }

  /** Twice as many edges as vertices are enough; a generated graph has sixteen times as many. */
  lemma EnoughEdges(pes: nat, edges: seq<Tuple>)
    requires pes > 0 && 2 * Vertices(edges) <= |edges|
    ensures Vertices(edges) <= pes * Room(|edges|, pes)
  {
    var n, half := Vertices(edges), |edges| / 2;
    hide Vertices;
    assert half == (half / pes) * pes + half % pes;
    assert pes * (half / pes + 1) == (half / pes) * pes + pes;
  }

  // ----- All PEs -----

  /** One PE builds its rows and reads them back. */
  method BuildRows(pes: nat, p: nat, edges: seq<Tuple>, h: seq<nat>, f: seq<Full>)
    returns (inside: bool, rows: seq<seq<Arc>>)
    requires p < pes && Vertices(edges) <= CAPACITY && Arrived(pes, p, edges, h, f)
    ensures inside <==> LocalCount(pes, p, Vertices(edges)) <= Room(|edges|, pes)
    ensures inside ==> |rows| == LocalCount(pes, p, Vertices(edges))
    ensures inside ==> forall v :: 0 <= v < |rows| ==> rows[v] == Targets(f, v)
  {
    hide LocalCount, Inside, Arrived, Targets, RowHolds, HalfCount, Room, Vertices;
    VerticesInside(edges);
    ArrivedInside(pes, p, edges, Vertices(edges), h, f);
    var b := new Builder(Room(|edges|, pes), LocalCount(pes, p, Vertices(edges)));
    forall v | 0 <= v < b.nlocalverts ensures HalfCount(h, v) == |Targets(f, v)| {
      ArrivedAgree(pes, p, edges, h, f, v);
    }
    inside := b.Build(h, f);
    rows := [];
    if inside {
      for v := 0 to b.nlocalverts
        modifies {}
        invariant |rows| == v && forall u :: 0 <= u < v ==> rows[u] == Targets(f, u)
      {
        var row := b.Row(v, Targets(f, v));
        rows := rows + [row];
      }
    }
  }

  lemma ArrivedAgree(pes: nat, p: nat, edges: seq<Tuple>, h: seq<nat>, f: seq<Full>, v: nat)
    requires pes > 0 && Arrived(pes, p, edges, h, f)
    ensures HalfCount(h, v) == |Targets(f, v)|
  {
    PassesAgree(pes, p, edges, h, f, v);
  }

  /** Whether all PEs stay inside their counters, which depends on the edge list alone, and then: the rows of all
      PEs, put together by owner and local index, are the undirected graph of the edge list without its loops,
      for any order of arrival in both passes at every PE. */
  method BuildGraph(pes: nat, edges: seq<Tuple>, h: seq<seq<nat>>, f: seq<seq<Full>>) returns (inside: bool, g: Graph)
    requires pes > 0 && Vertices(edges) <= CAPACITY && |h| == |f| == pes
    requires forall p :: 0 <= p < pes ==> Arrived(pes, p, edges, h[p], f[p])
    ensures inside <==> Vertices(edges) <= pes * Room(|edges|, pes)
    ensures inside ==> |g| == Vertices(edges) && Built(g, edges)
  {
    hide LocalCount, Arrived, Targets, Owner, Local, Neighbours, Vertices, Room;
    var n := Vertices(edges);
    inside, g := true, [];
    var parts: seq<seq<seq<Arc>>> := [];
    CountersInsideIff(pes, edges);
    for p := 0 to pes
      invariant |parts| == p
      invariant forall q :: 0 <= q < p ==> |parts[q]| == LocalCount(pes, q, n) <= Room(|edges|, pes)
      invariant forall q, v :: 0 <= q < p && 0 <= v < |parts[q]| ==> parts[q][v] == Targets(f[q], v)
    {
      var rows;
      inside, rows := BuildRows(pes, p, edges, h[p], f[p]);
      if !inside {
        return;
      }
      parts := parts + [rows];
    }
    inside := true;
    for v := 0 to n
      invariant |g| == v
      invariant forall u :: 0 <= u < v ==> multiset(g[u]) == multiset(Neighbours(edges, u))
    {
      LocalCountIs(pes, n, v);
      ArrivedRow(pes, edges, h[Owner(pes, v)], f[Owner(pes, v)], v);
      g := g + [parts[Owner(pes, v)][Local(pes, v)]];
    }
    VerticesInside(edges);
  }

  lemma ArrivedRow(pes: nat, edges: seq<Tuple>, h: seq<nat>, f: seq<Full>, v: nat)
    requires pes > 0 && Arrived(pes, Owner(pes, v), edges, h, f)
    ensures multiset(Targets(f, Local(pes, v))) == multiset(Neighbours(edges, v))
  {
    RowIsNeighbours(pes, edges, f, v);
  }
}
