/** Building the compressed rows of one PE in two passes over the edge list: the first counts, the
    second places. The messages of each pass arrive in any order. */
module Csr {
  import opened Graphs
  import opened Packing
  import opened Bits

  /** A second-pass message: local row, neighbour, weight. */
  datatype Full = Full(v: nat, tgt: nat, w: nat)

  function HalfCount(h: seq<nat>, v: nat): nat {
    if h == [] then 0 else HalfCount(h[..|h| - 1], v) + (if h[|h| - 1] == v then 1 else 0)
  }

  /** The entries for row `v`, in order of arrival. */
  function Targets(f: seq<Full>, v: nat): seq<Arc> {
    if f == [] then []
    else
      var m := f[|f| - 1];
      Targets(f[..|f| - 1], v) + (if m.v == v then [Arc(m.tgt, m.w)] else [])
  }

  /** Where row `v` starts when rows have these sizes. */
  function StartOf(sizes: seq<nat>, v: nat): nat
    requires v <= |sizes|
  {
    if v == 0 then 0 else StartOf(sizes, v - 1) + sizes[v - 1]
  }

  lemma StartStep(sizes: seq<nat>, v: nat)
    requires v < |sizes|
    ensures StartOf(sizes, 0) == 0 && StartOf(sizes, v + 1) == StartOf(sizes, v) + sizes[v]
  {
  }

  lemma StartZero(sizes: seq<nat>)
    ensures StartOf(sizes, 0) == 0
  {
  }

  lemma TargetsStep(f: seq<Full>, k: nat, v: nat)
    requires k < |f|
    ensures Targets(f[..k + 1], v) == Targets(f[..k], v) + (if f[k].v == v then [Arc(f[k].tgt, f[k].w)] else [])
  {
    assert f[..k + 1][..k] == f[..k];
  }

  lemma NoTargets(v: nat)
    ensures Targets([], v) == []
  {
  }

  lemma {:induction false} StartsGrow(sizes: seq<nat>, u: nat, v: nat)
    requires u <= v <= |sizes|
    ensures StartOf(sizes, u) <= StartOf(sizes, v)
  {
    if u < v {
      StartsGrow(sizes, u, v - 1);
    }
  }

  lemma {:induction false} TargetsPrefix(f: seq<Full>, k: nat, v: nat)
    requires k <= |f|
    ensures Targets(f[..k], v) <= Targets(f, v)
  {
    if k == |f| {
      assert f[..k] == f;
    } else {
      assert f[..|f| - 1][..k] == f[..k];
      TargetsPrefix(f[..|f| - 1], k, v);
    }
  }

  /** Both passes announce the same number of entries for every row. */
  ghost predicate Matches(sizes: seq<nat>, f: seq<Full>) {
    && (forall k :: 0 <= k < |f| ==> f[k].v < |sizes| && f[k].tgt < CAPACITY)
    && forall v :: 0 <= v < |sizes| ==> |Targets(f, v)| == sizes[v]
  }

  /** The slot for the next message is free and inside its row. */
  lemma SlotInside(sizes: seq<nat>, f: seq<Full>, k: nat)
    requires Matches(sizes, f) && k < |f|
    ensures var v := f[k].v;
            && Targets(f[..k + 1], v) == Targets(f[..k], v) + [Arc(f[k].tgt, f[k].w)]
            && |Targets(f[..k], v)| < sizes[v]
            && StartOf(sizes, v) + sizes[v] <= StartOf(sizes, |sizes|)
  {
    hide Targets, StartOf;
    var v := f[k].v;
    TargetsStep(f, k, v);
    TargetsPrefix(f, k + 1, v);
    StartStep(sizes, v);
    StartsGrow(sizes, v + 1, |sizes|);
  }

  lemma OtherRow(sizes: seq<nat>, f: seq<Full>, k: nat, u: nat)
    requires Matches(sizes, f) && k < |f| && u < |sizes| && u != f[k].v
    ensures Targets(f[..k + 1], u) == Targets(f[..k], u) && |Targets(f[..k], u)| <= sizes[u]
    ensures StartOf(sizes, u) + sizes[u] <= StartOf(sizes, f[k].v)
            || StartOf(sizes, f[k].v) + sizes[f[k].v] <= StartOf(sizes, u)
  {
    hide Targets, StartOf;
    TargetsStep(f, k, u);
    TargetsPrefix(f, k, u);
    StartStep(sizes, u);
    StartStep(sizes, f[k].v);
    if u < f[k].v {
      StartsGrow(sizes, u + 1, f[k].v);
    } else {
      StartsGrow(sizes, f[k].v + 1, u);
    }
  }

  /** The stored rows. */
  datatype Table = Table(column: seq<Byte>, weights: seq<nat>)

  /** The bytes allocated for `n` entries: whole pages. */
  function Allocated(n: nat): nat {
    (BYTES * n + 4095) / 4096 * 4096
  }

  lemma Pages(n: nat)
    ensures BYTES * n <= Allocated(n)
    ensures Allocated(n) < BYTES * n + 2 <==> n % 2048 == 0
  {
    var k, r := n / 2048, n % 2048;
    assert 6 * n + 4095 == 4096 * (3 * k) + 6 * r + 4095;
    assert (6 * n + 4095) / 4096 == 3 * k + (6 * r + 4095) / 4096;
  }

  /** Every entry is read inside the allocation, eight bytes at a time, exactly if `n` is not a positive
      multiple of 2048: else the read of the last entry takes in the two bytes behind the allocation, which
      the mask then drops. */
  lemma ReadsInside(n: nat)
    ensures (forall s :: 0 <= s < n ==> BYTES * s + 8 <= Allocated(n)) <==> n == 0 || n % 2048 != 0
  {
    hide Allocated;
    Pages(n);
    if n > 0 && (forall s :: 0 <= s < n ==> BYTES * s + 8 <= Allocated(n)) {
      assert BYTES * (n - 1) + 8 <= Allocated(n);
    }
  }

  ghost predicate Sized(t: Table, n: nat) {
    |t.weights| == n && |t.column| >= BYTES * n + 2
  }

  function EntryAt(t: Table, s: nat): Arc
    requires s < |t.weights| && BYTES * s + 8 <= |t.column|
  {
    Arc(Column(t.column, s), t.weights[s])
  }

  function Stored(t: Table, s: nat, a: Arc): Table
    requires s < |t.weights| && BYTES * s + BYTES <= |t.column|
  {
    Table(SetColumn(t.column, s, a.head), t.weights[s := a.weight])
  }

  ghost predicate RowHolds(t: Table, start: nat, ts: seq<Arc>) {
    forall j :: 0 <= j < |ts| ==> Holds(t, start + j, ts[j])
  }

  ghost predicate Holds(t: Table, s: nat, a: Arc) {
    s < |t.weights| && BYTES * s + 8 <= |t.column| && EntryAt(t, s) == a
  }

  lemma StoreHolds(t: Table, s: nat, a: Arc, i: nat, b: Arc)
    requires s < |t.weights| && BYTES * s + 8 <= |t.column| && a.head < CAPACITY
    ensures Holds(Stored(t, s, a), s, a)
    ensures i != s && Holds(t, i, b) ==> Holds(Stored(t, s, a), i, b)
  {
    hide Column, SetColumn;
    ColumnRoundTrip(t.column, s, a.head, s);
    if i < |t.weights| && BYTES * i + 8 <= |t.column| {
      ColumnRoundTrip(t.column, s, a.head, i);
    }
  }

  /** After `k` messages every row holds what arrived for it, in order of arrival. */
  ghost predicate Placed(t: Table, sizes: seq<nat>, f: seq<Full>, k: nat)
    requires k <= |f|
  {
    forall v :: 0 <= v < |sizes| ==> RowHolds(t, StartOf(sizes, v), Targets(f[..k], v))
  }

  lemma MatchFacts(sizes: seq<nat>, f: seq<Full>, k: nat)
    requires Matches(sizes, f) && k < |f|
    ensures f[k].v < |sizes| && f[k].tgt < CAPACITY
  {
  }

  lemma PlaceStep(t: Table, sizes: seq<nat>, f: seq<Full>, k: nat)
    requires Matches(sizes, f) && k < |f| && Sized(t, StartOf(sizes, |sizes|)) && Placed(t, sizes, f, k)
    ensures var slot := StartOf(sizes, f[k].v) + |Targets(f[..k], f[k].v)|;
            && slot < |t.weights| && BYTES * slot + 8 <= |t.column|
            && Placed(Stored(t, slot, Arc(f[k].tgt, f[k].w)), sizes, f, k + 1)
  {
    hide Stored, EntryAt, Column, SetColumn, Targets, StartOf, Matches;
    MatchFacts(sizes, f, k);
    var m := f[k];
    SlotInside(sizes, f, k);
    var slot, a := StartOf(sizes, m.v) + |Targets(f[..k], m.v)|, Arc(m.tgt, m.w);
    var t' := Stored(t, slot, a);
    forall v | 0 <= v < |sizes| ensures RowHolds(t', StartOf(sizes, v), Targets(f[..k + 1], v)) {
      var start, was := StartOf(sizes, v), Targets(f[..k], v);
      assert RowHolds(t, start, was);
      if v != m.v {
        OtherRow(sizes, f, k, v);
      }
      forall j | 0 <= j < |was| ensures Holds(t', start + j, was[j]) {
        StoreHolds(t, slot, a, start + j, was[j]);
      }
      StoreHolds(t, slot, a, slot, a);
    }
  }

  lemma NoneHeld(t: Table, start: nat)
    ensures RowHolds(t, start, [])
  {
  }

  lemma StoredSize(t: Table, s: nat, a: Arc, n: nat)
    requires s < |t.weights| && BYTES * s + BYTES <= |t.column| && Sized(t, n)
    ensures Sized(Stored(t, s, a), n) && |Stored(t, s, a).column| == |t.column|
  {
  }

  /** `degrees` has as many counters as were allocated before the number of local vertices was known. */
  class Builder {
    const degrees: array<nat>
    const nlocalverts: nat
    const rowstarts: array<nat>
    var table: Table

    constructor (room: nat, nlocalverts: nat)
      ensures degrees.Length == room && this.nlocalverts == nlocalverts && rowstarts.Length == nlocalverts + 1
      ensures fresh(degrees) && fresh(rowstarts) && degrees != rowstarts
      ensures forall v :: 0 <= v < room ==> degrees[v] == 0
    {
      this.nlocalverts := nlocalverts;
      degrees := new nat[room](_ => 0);
      rowstarts := new nat[nlocalverts + 1](_ => 0);
      table := Table([], []);
    }

    /** First pass. `inside` says whether every counter that is raised was allocated. */
    method CountHalves(h: seq<nat>) returns (inside: bool)
      requires forall v :: 0 <= v < degrees.Length ==> degrees[v] == 0
      modifies degrees
      ensures inside <==> forall k :: 0 <= k < |h| ==> h[k] < degrees.Length
      ensures inside ==> forall v :: 0 <= v < degrees.Length ==> degrees[v] == HalfCount(h, v)
    {
      for k := 0 to |h|
        invariant forall i :: 0 <= i < k ==> h[i] < degrees.Length
        invariant forall v :: 0 <= v < degrees.Length ==> degrees[v] == HalfCount(h[..k], v)
      {
        if h[k] >= degrees.Length {
          return false;
        }
        degrees[h[k]] := degrees[h[k]] + 1;
        assert h[..k + 1][..k] == h[..k];
      }
      assert h[..|h|] == h;
      inside := true;
    }

    /** Turns sizes into starts; the counters become cursors at the start of each row. */
    method PrefixSums()
      requires rowstarts.Length == nlocalverts + 1 && nlocalverts <= degrees.Length && degrees != rowstarts
      modifies degrees, rowstarts
      ensures forall v :: 0 <= v <= nlocalverts ==> rowstarts[v] == StartOf(old(degrees[..nlocalverts]), v)
      ensures forall v :: 0 <= v < nlocalverts ==> degrees[v] == rowstarts[v]
    {
      hide StartOf;
      ghost var sizes := degrees[..nlocalverts];
      StartZero(sizes);
      rowstarts[0] := 0;
      for i := 0 to nlocalverts
        invariant forall v :: 0 <= v <= i ==> rowstarts[v] == StartOf(sizes, v)
        invariant forall v :: 0 <= v < i ==> degrees[v] == rowstarts[v]
        invariant forall v :: i <= v < nlocalverts ==> degrees[v] == sizes[v]
      {
        StartStep(sizes, i);
        rowstarts[i + 1] := rowstarts[i] + degrees[i];
        degrees[i] := rowstarts[i];
      }
    }

    /** Second pass: each message is written to the cursor of its row. Every slot is written once, and
        every cursor ends where the next row starts. */
    method PlaceFulls(f: seq<Full>, ghost sizes: seq<nat>)
      requires |sizes| == nlocalverts <= degrees.Length && rowstarts.Length == |sizes| + 1 && degrees != rowstarts
      requires Matches(sizes, f)
      requires forall v :: 0 <= v <= |sizes| ==> rowstarts[v] == StartOf(sizes, v)
      requires forall v :: 0 <= v < |sizes| ==> degrees[v] == rowstarts[v]
      requires Sized(table, StartOf(sizes, |sizes|))
      modifies degrees, this`table
      ensures forall v :: 0 <= v < |sizes| ==> degrees[v] == rowstarts[v + 1]
      ensures forall v :: 0 <= v < |sizes| ==> rowstarts[v + 1] == rowstarts[v] + |Targets(f, v)|
      ensures forall v :: 0 <= v < |sizes| ==> RowHolds(table, rowstarts[v], Targets(f, v))
      ensures |table.column| == old(|table.column|)
    {
      hide Targets, StartOf, Stored, RowHolds;
      assert f[..0] == [];
      forall v | 0 <= v < |sizes| ensures Targets(f[..0], v) == [] && RowHolds(table, StartOf(sizes, v), []) {
        NoTargets(v);
        NoneHeld(table, StartOf(sizes, v));
      }
      for k := 0 to |f|
        invariant forall v :: 0 <= v < |sizes| ==> degrees[v] == rowstarts[v] + |Targets(f[..k], v)|
        invariant Sized(table, StartOf(sizes, |sizes|)) && Placed(table, sizes, f, k)
        invariant |table.column| == old(|table.column|)
      {
        PlaceStep(table, sizes, f, k);
        SlotInside(sizes, f, k);
        forall u | 0 <= u < |sizes| && u != f[k].v ensures Targets(f[..k + 1], u) == Targets(f[..k], u) {
          OtherRow(sizes, f, k, u);
        }
        var slot := degrees[f[k].v];
        degrees[f[k].v] := slot + 1;
        StoredSize(table, slot, Arc(f[k].tgt, f[k].w), StartOf(sizes, |sizes|));
        table := Stored(table, slot, Arc(f[k].tgt, f[k].w));
      }
      assert f[..|f|] == f;
      forall v | 0 <= v < |sizes| ensures rowstarts[v + 1] == rowstarts[v] + sizes[v] {
        StartStep(sizes, v);
      }
    }

    /** Reads a row. */
    method Row(v: nat, ghost ts: seq<Arc>) returns (row: seq<Arc>)
      requires rowstarts.Length == nlocalverts + 1 && v < nlocalverts
      requires rowstarts[v + 1] == rowstarts[v] + |ts| && RowHolds(table, rowstarts[v], ts)
      ensures row == ts
    {
      hide EntryAt;
      row := [];
      for j := rowstarts[v] to rowstarts[v + 1]
        invariant row == ts[..j - rowstarts[v]]
      {
        assert Holds(table, rowstarts[v] + (j - rowstarts[v]), ts[j - rowstarts[v]]);
        row := row + [EntryAt(table, j)];
      }
    }

    /** Both passes, for any order of arrival in each, as long as all counters that are touched exist. */
    method Build(h: seq<nat>, f: seq<Full>) returns (inside: bool)
      requires rowstarts.Length == nlocalverts + 1 && degrees != rowstarts
      requires forall v :: 0 <= v < degrees.Length ==> degrees[v] == 0
      requires forall k :: 0 <= k < |h| ==> h[k] < nlocalverts
      requires forall k :: 0 <= k < |f| ==> f[k].v < nlocalverts && f[k].tgt < CAPACITY
      requires forall v :: 0 <= v < nlocalverts ==> HalfCount(h, v) == |Targets(f, v)|
      modifies degrees, rowstarts, this`table
      ensures inside <==> nlocalverts <= degrees.Length
      ensures inside ==> |table.column| == Allocated(rowstarts[nlocalverts]) + 2
      ensures inside ==> rowstarts[0] == 0 && forall v :: 0 <= v < nlocalverts ==> degrees[v] == rowstarts[v + 1]
      ensures inside ==> forall v :: 0 <= v < nlocalverts ==> rowstarts[v + 1] == rowstarts[v] + |Targets(f, v)|
      ensures inside ==> forall v :: 0 <= v < nlocalverts ==> RowHolds(table, rowstarts[v], Targets(f, v))
    {
      inside := CountHalves(h);
      inside := inside && nlocalverts <= degrees.Length;
      if inside {
        ghost var sizes := degrees[..nlocalverts];
        PrefixSums();
        var n := rowstarts[nlocalverts];
        // The two bytes behind the allocation may be read and are never written.
        Pages(n);
        table := Table(seq(Allocated(n) + 2, _ => 0), seq(n, _ => 0));
        PlaceFulls(f, sizes);
      }
    }
  }
}
