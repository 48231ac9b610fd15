/** The distributed single-source shortest path kernel. One object stands for all PEs: PE `p` owns
    the entries of `dist` and `pred` of the vertices `v` with `Owner(v) == p`, and `q1[p]`, `q2[p]`
    are its queues. Between two barriers any PE may take its next sending step and any message in
    flight may be handled next; the proofs hold for every such order. */
module Sssp {
  import opened Graphs
  import opened Partition
  import opened SsspSpec

  // ----- Work left in a phase -----

  function Degree(g: Graph, u: nat): nat {
    if u < |g| then |g[u]| else 0
  }

  /** Steps one PE still has to take, a message counting as one more step. */
  function RowCost(g: Graph, todo: seq<nat>, row: Row): nat {
    if todo != [] then RowCost(g, todo[..|todo| - 1], row) + 2 * Degree(g, todo[|todo| - 1]) + 2
    else if row.Open? && row.j <= Degree(g, row.u) then 2 * (Degree(g, row.u) - row.j) + 1
    else 0
  }

  lemma {:induction false} OpenRowCost(g: Graph, todo: seq<nat>, row': Row)
    requires todo != [] && row' in {Idle, Open(todo[0], 0)}
    ensures RowCost(g, todo[1..], row') < RowCost(g, todo, Idle)
  {
    var k := |todo| - 1;
    if k == 0 {
      assert todo[..k] == [];
    } else {
      assert todo[1..][..k - 1] == todo[..k][1..];
      OpenRowCost(g, todo[..k], row');
    }
  }

  lemma {:induction false} ArcStepCost(g: Graph, todo: seq<nat>, row: Row, row': Row)
    requires row.Open? && row.j <= Degree(g, row.u)
    requires if row.j == Degree(g, row.u) then row' == Idle else row' == Open(row.u, row.j + 1)
    ensures RowCost(g, todo, row') + (if row'.Open? then 2 else 1) == RowCost(g, todo, row)
  {
    if todo != [] {
      ArcStepCost(g, todo[..|todo| - 1], row, row');
    }
  }

  lemma SendStepCost(job: Job, ph: Phase, dist: seq<int>, todo: seq<nat>, row: Row)
    requires HasWork(todo, row) && NextSend.requires(job, ph, dist, todo, row)
    ensures var st := NextSend(job, ph, dist, todo, row);
            RowCost(job.g, st.todo, st.row) + |st.sent| < RowCost(job.g, todo, row)
  {
    var st := NextSend(job, ph, dist, todo, row);
    if row.Open? {
      ArcStepCost(job.g, todo, row, st.row);
    } else {
      OpenRowCost(job.g, todo, st.row);
    }
  }

  function Cost(g: Graph, todo: seq<seq<nat>>, rows: seq<Row>): nat
    requires |todo| == |rows|
  {
    if todo == [] then 0
    else
      var k := |todo| - 1;
      Cost(g, todo[..k], rows[..k]) + RowCost(g, todo[k], rows[k])
  }

  lemma {:induction false} CostUpdate(g: Graph, todo: seq<seq<nat>>, rows: seq<Row>, p: nat, t: seq<nat>, r: Row)
    requires p < |todo| == |rows|
    ensures Cost(g, todo[p := t], rows[p := r])
         == Cost(g, todo, rows) - RowCost(g, todo[p], rows[p]) + RowCost(g, t, r)
  {
    var k := |todo| - 1;
    var todo', rows' := todo[p := t], rows[p := r];
    if p == k {
      assert todo'[..k] == todo[..k] && rows'[..k] == rows[..k];
    } else {
      assert todo'[..k] == todo[..k][p := t] && rows'[..k] == rows[..k][p := r];
      CostUpdate(g, todo[..k], rows[..k], p, t, r);
    }
  }

  // ----- Local vertices -----

  /** The vertices below `n` that PE `p` owns, in increasing order. */
  function Locals(pes: nat, n: nat, p: nat): (s: seq<nat>)
    requires pes > 0
    ensures forall v: nat :: v in s <==> v < n && Owner(pes, v) == p
  {
    if n == 0 then []
    else if Owner(pes, n - 1) == p then Locals(pes, n - 1, p) + [n - 1]
    else Locals(pes, n - 1, p)
  }

  /** The number of local vertices as the kernel computes it. */
  function LocalCount(pes: nat, n: nat, p: nat): nat
    requires p < pes
  {
    Local(pes, n + pes - 1 - p)
  }

  lemma {:induction false} LocalsCount(pes: nat, n: nat, p: nat)
    requires p < pes
    ensures |Locals(pes, n, p)| == LocalCount(pes, n, p)
  {
    if n == 0 {
      CountZero(pes, p);
    } else {
      LocalsCount(pes, n - 1, p);
      CountStep(pes, n - 1, p);
    }
  }

  lemma CountZero(pes: nat, p: nat)
    requires p < pes
    ensures Local(pes, pes - 1 - p) == 0
  {
  }

  lemma CountStep(pes: nat, n: nat, p: nat)
    requires p < pes
    ensures Local(pes, n + pes - p) == Local(pes, n + pes - 1 - p) + (if Owner(pes, n) == p then 1 else 0)
  {
    var q, r := n / pes, n % pes;
    assert n == q * pes + r;
    var x := n + pes - p;
    if r >= p {
      assert (q + 1) * pes == q * pes + pes;
      QuotientUnique(pes, q + 1, r - p, x / pes, x % pes);
      if r > p {
        QuotientUnique(pes, q + 1, r - p - 1, (x - 1) / pes, (x - 1) % pes);
      } else {
        QuotientUnique(pes, q, pes - 1, (x - 1) / pes, (x - 1) % pes);
      }
    } else {
      QuotientUnique(pes, q, r + pes - p, x / pes, x % pes);
      QuotientUnique(pes, q, r + pes - p - 1, (x - 1) / pes, (x - 1) % pes);
    }
  }

  lemma {:induction false} DistinctFits(q: seq<nat>, s: seq<nat>)
    requires Distinct(q) && forall v :: v in q ==> v in s
    ensures |q| <= |s|
  {
    if q != [] {
      var x := q[|q| - 1];
      assert x in q;
      var i :| 0 <= i < |s| && s[i] == x;
      var rest := s[..i] + s[i + 1..];
      forall v | v in q[..|q| - 1]
        ensures v in rest
      {
        assert v in q && v in s;
        var k :| 0 <= k < |s| && s[k] == v;
        assert k < i ==> rest[k] == v;
        assert k > i ==> rest[k - 1] == v;
      }
      DistinctFits(q[..|q| - 1], rest);
    }
  }

  /** The next queue of a PE never outgrows the buffer of `nlocalverts` entries. */
  lemma QueueFits(job: Job, ph: Phase, s: Store, p: nat)
    requires |s.dist| == |job.g| && NextOk(job, ph, s) && p < job.pes
    ensures |s.q2[p]| <= LocalCount(job.pes, |job.g|, p)
  {
    assert QueueOk(job, ph, s.dist, p, s.q2[p]);
    DistinctFits(s.q2[p], Locals(job.pes, |job.g|, p));
    LocalsCount(job.pes, |job.g|, p);
  }

  // ----- The bound on finished buckets -----

  function MaxDist(d: seq<int>): (m: int)
    ensures m >= -1 && forall i :: 0 <= i < |d| ==> d[i] <= m
  {
    if d == [] then -1
    else
      var m := MaxDist(d[..|d| - 1]);
      if d[|d| - 1] > m then d[|d| - 1] else m
  }

  function QueueTotal(q: seq<seq<nat>>): (n: nat)
    ensures n == 0 <==> forall p :: 0 <= p < |q| ==> q[p] == []
  {
    if q == [] then 0 else QueueTotal(q[..|q| - 1]) + |q[|q| - 1]|
  }

  class Kernel {
    const job: Job
    const dist: array<int>
    const pred: array<int>
    var q1: seq<seq<nat>>
    var q2: seq<seq<nat>>
    var visited: set<nat>
    var net: multiset<Packet>
    var lightphase: bool
    var mindelta: nat
    var maxdelta: nat
    ghost var stamp: seq<nat>
    ghost var clock: nat

    ghost function Snapshot(): Store
      reads this, dist, pred
    {
      Store(dist[..], pred[..], q2, visited)
    }

    ghost function Now(): Phase
      reads this
    {
      Phase(lightphase, mindelta, maxdelta)
    }

    /** Between phases: everything below `mindelta` is final and nothing is in flight. */
    ghost predicate Resting()
      reads this, dist, pred
    {
      && dist.Length == pred.Length == |job.g| && dist != pred
      && net == multiset{} && AllEmpty(job, q2) && maxdelta == mindelta + job.delta
      && Base(job, mindelta, dist[..], pred[..], stamp, clock)
    }

    /** `dist` and `pred` as the caller cleaned them: -1 everywhere. */
    constructor (job: Job, dist: array<int>, pred: array<int>)
      requires ValidJob(job) && dist.Length == pred.Length == |job.g| && dist != pred
      ensures this.job == job && this.dist == dist && this.pred == pred
      ensures net == multiset{} && q1 == q2 == seq(job.pes, _ => []) && visited == {}
      ensures lightphase && mindelta == 0 && maxdelta == job.delta
    {
      this.job, this.dist, this.pred := job, dist, pred;
      q1, q2 := seq(job.pes, _ => []), seq(job.pes, _ => []);
      visited, net := {}, multiset{};
      lightphase, mindelta, maxdelta := true, 0, job.delta;
      stamp, clock := [], 1;
    }

    /** The active-message handler. */
    method HandleRelax(m: Packet)
      requires job.pes > 0 && |q2| == job.pes && dist != pred
      requires Dest(job.pes, m) < dist.Length == pred.Length
      modifies this`q2, this`visited, dist, pred
      ensures Snapshot() == old(Relax(job, Now(), Snapshot(), Source(job.pes, m), Dest(job.pes, m), m.w))
    {
      var vloc := ToGlobal(job.pes, m.to, m.destLoc);
      if dist[vloc] < 0 || dist[vloc] > m.w {
        dist[vloc] := m.w;
        pred[vloc] := ToGlobal(job.pes, m.from, m.srcLoc);
        if lightphase && vloc !in visited {
          if m.w < maxdelta {
            q2 := Enqueue(job.pes, q2, vloc);
            visited := visited + {vloc};
          }
        }
      }
      assert dist[..] == old(Relax(job, Now(), Snapshot(), Source(job.pes, m), vloc, m.w).dist);
      assert pred[..] == old(Relax(job, Now(), Snapshot(), Source(job.pes, m), vloc, m.w).pred);
    }

    /** Hands one message in flight to the handler of its destination. */
    method Deliver(m: Packet, ghost todo: seq<seq<nat>>, ghost rows: seq<Row>)
      requires dist.Length == pred.Length && dist != pred
      requires RoundInv(job, Now(), Snapshot(), stamp, clock, net, todo, rows) && m in net
      modifies this`q2, this`visited, this`net, this`stamp, this`clock, dist, pred
      ensures RoundInv(job, Now(), Snapshot(), stamp, clock, net, todo, rows)
      ensures net == old(net) - multiset{m}
      ensures Snapshot() == old(Snapshot()) || LexLess(dist[..], old(dist[..]))
    {
      hide RoundInv, Relax, Source, Dest, StampAfter, LexLess;
      DeliverKeepsRound(job, Now(), Snapshot(), stamp, clock, net, todo, rows, m);
      ghost var stamp' := StampAfter(job, Snapshot(), stamp, clock, m);
      HandleRelax(m);
      stamp, clock := stamp', clock + 1;
      net := net - multiset{m};
    }

    /** One step of the sending loop of PE `p`. */
    method SendNext(p: nat, todo: seq<seq<nat>>, rows: seq<Row>) returns (todo': seq<seq<nat>>, rows': seq<Row>)
      requires dist.Length == pred.Length
      requires RoundInv(job, Now(), Snapshot(), stamp, clock, net, todo, rows)
      requires p < job.pes && HasWork(todo[p], rows[p])
      modifies this`net
      ensures RoundInv(job, Now(), Snapshot(), stamp, clock, net, todo', rows')
      ensures |todo'| == |rows'| == job.pes && Cost(job.g, todo', rows') + |net| < Cost(job.g, todo, rows) + |old(net)|
    {
      SendKeepsRound(job, Now(), Snapshot(), stamp, clock, net, todo, rows, p);
      var st := NextSend(job, Phase(lightphase, mindelta, maxdelta), dist[..], todo[p], rows[p]);
      SendStepCost(job, Now(), dist[..], todo[p], rows[p]);
      CostUpdate(job.g, todo, rows, p, st.todo, st.row);
      net := net + multiset(st.sent);
      todo', rows' := todo[p := st.todo], rows[p := st.row];
    }

    /** One send loop up to and including the barrier that ends it, in any order of sends and
        deliveries over all PEs. */
    method Exchange(work: seq<seq<nat>>)
      requires dist.Length == pred.Length && dist != pred && |work| == job.pes
      requires RoundInv(job, Now(), Snapshot(), stamp, clock, net, work, IdleRows(job.pes))
      modifies this`q2, this`visited, this`net, this`stamp, this`clock, dist, pred
      ensures exists todo, rows ::
                RoundInv(job, Now(), Snapshot(), stamp, clock, net, todo, rows) && Quiet(net, todo, rows)
      ensures net == multiset{}
      ensures Snapshot() == old(Snapshot()) || LexLess(dist[..], old(dist[..]))
    {
      hide RoundInv, Unreached, Total, Cost;
      var todo := work;
      var rows := IdleRows(job.pes);
      while true
        invariant |todo| == |rows| == job.pes
        invariant RoundInv(job, Now(), Snapshot(), stamp, clock, net, todo, rows)
        invariant Snapshot() == old(Snapshot()) || LexLess(dist[..], old(dist[..]))
        decreases Cost(job.g, todo, rows) + |net|
      {
        if
        case net != multiset{} =>
          var m :| m in net;
          Deliver(m, todo, rows);
        case exists p :: 0 <= p < job.pes && HasWork(todo[p], rows[p]) =>
          var p :| 0 <= p < job.pes && HasWork(todo[p], rows[p]);
          todo, rows := SendNext(p, todo, rows);
        case net == multiset{} && forall p :: 0 <= p < job.pes ==> !HasWork(todo[p], rows[p]) =>
          break;
      }
      assert Quiet(net, todo, rows);
    }

    /** Repeats light rounds until no vertex falls into the bucket again. */
    method LightRounds()
      requires Resting() && |q1| == job.pes
      requires QueuesOk(job, Phase(true, mindelta, maxdelta), dist[..], q1)
      requires LightBut(job, Phase(true, mindelta, maxdelta), dist[..], q1)
      modifies this`q1, this`q2, this`visited, this`net, this`stamp, this`clock, this`lightphase, dist, pred
      ensures Resting() && AllEmpty(job, q1)
      ensures LightBut(job, Phase(true, mindelta, maxdelta), dist[..], q1)
      ensures dist[..] == old(dist[..]) || LexLess(dist[..], old(dist[..]))
    {
      hide Base, Unreached, Total, LightBut, QueuesOk, RoundInv;
      var sum := 1;
      while sum != 0
        invariant Resting() && |q1| == job.pes
        invariant QueuesOk(job, Phase(true, mindelta, maxdelta), dist[..], q1)
        invariant LightBut(job, Phase(true, mindelta, maxdelta), dist[..], q1)
        invariant sum == 0 ==> AllEmpty(job, q1)
        invariant dist[..] == old(dist[..]) || LexLess(dist[..], old(dist[..]))
        decreases Unreached(dist[..]), Total(dist[..]), sum
      {
        visited := {};
        lightphase := true;
        StartLight(job, mindelta, Snapshot(), stamp, clock, q1);
        Exchange(q1);
        ghost var todo, rows :|
          RoundInv(job, Now(), Snapshot(), stamp, clock, net, todo, rows) && Quiet(net, todo, rows);
        EndLight(job, Now(), Snapshot(), stamp, clock, net, todo, rows);
        q1, q2 := q2, seq(job.pes, _ => []);
        sum := QueueTotal(q1);
      }
    }

    /** Relaxes the heavy arcs out of the bucket. */
    method HeavyRound()
      requires Resting() && AllEmpty(job, q1)
      requires LightBut(job, Phase(true, mindelta, maxdelta), dist[..], q1)
      modifies this`q2, this`visited, this`net, this`stamp, this`clock, this`lightphase, dist, pred
      ensures dist.Length == pred.Length == |job.g| && net == multiset{} && AllEmpty(job, q2)
      ensures Base(job, maxdelta, dist[..], pred[..], stamp, clock)
      ensures dist[..] == old(dist[..]) || LexLess(dist[..], old(dist[..]))
    {
      hide LightBut, RoundInv;
      var work := seq(job.pes, p requires 0 <= p < job.pes => Locals(job.pes, |job.g|, p));
      lightphase := false;
      StartHeavy(job, mindelta, Snapshot(), stamp, clock, work, q1);
      hide Base;
      Exchange(work);
      ghost var todo, rows :|
        RoundInv(job, Now(), Snapshot(), stamp, clock, net, todo, rows) && Quiet(net, todo, rows);
      EndHeavy(job, Now(), Snapshot(), stamp, clock, net, todo, rows);
    }

    /** Queues the lowest bucket left and counts the vertices still to be processed. Local vertices
        are met in increasing order on every PE. */
    method CollectBucket() returns (sum: nat)
      requires |dist[..]| == |job.g| && job.pes > 0
      modifies this`q1
      ensures HoldsBucket(job, Phase(true, mindelta, maxdelta), dist[..], q1)
      ensures sum == 0 <==> forall v :: 0 <= v < dist.Length ==> dist[v] < mindelta
    {
      ghost var ph := Phase(true, mindelta, maxdelta);
      q1 := seq(job.pes, _ => []);
      sum := 0;
      for i := 0 to dist.Length
        invariant QueuesOk(job, ph, dist[..], q1)
        invariant forall v :: 0 <= v < i && InBucket(ph, dist[v]) ==> v in q1[Owner(job.pes, v)]
        invariant forall p, v :: 0 <= p < |q1| && v in q1[p] ==> v < i
        invariant sum == 0 <==> forall v :: 0 <= v < i ==> dist[v] < mindelta
      {
        if dist[i] >= mindelta {
          sum := sum + 1;
          if dist[i] < maxdelta {
            CollectKeepsQueues(job, ph, dist[..], q1, i);
            q1 := Enqueue(job.pes, q1, i);
          }
        }
      }
    }

    /** Sets the bounds of the first bucket and queues the root. */
    method Begin()
      requires ValidJob(job) && dist.Length == pred.Length == |job.g| && dist != pred
      requires forall v :: 0 <= v < dist.Length ==> dist[v] == pred[v] == -1
      modifies this, dist, pred
      ensures Resting() && mindelta == 0 && dist[job.root] == 0
      ensures HoldsBucket(job, Phase(true, mindelta, maxdelta), dist[..], q1)
    {
      mindelta, maxdelta := 0, job.delta;
      q2, net := seq(job.pes, _ => []), multiset{};
      dist[job.root] := 0;
      pred[job.root] := job.root;
      stamp, clock := seq(|job.g|, _ => 0), 1;
      InitialBase(job, dist[..], pred[..]);
      q1 := seq(job.pes, _ => []);
      GlobalRoundTrip(job.pes, job.root);
      q1 := Enqueue(job.pes, q1, job.root);
    }

    /** The kernel: exact shortest distances and a shortest-path tree, from arrays holding -1. */
    method Run()
      requires ValidJob(job) && dist.Length == pred.Length == |job.g| && dist != pred
      requires forall v :: 0 <= v < dist.Length ==> dist[v] == pred[v] == -1
      modifies this, dist, pred
      ensures Solved(job, dist[..], pred[..])
    {
      hide Base, HoldsBucket, Solved, Unreached, Total, LightBut, QueuesOk;
      Begin();
      var sum := 1;
      while sum != 0
        invariant Resting() && job.pes > 0 && job.delta > 0
        invariant HoldsBucket(job, Phase(true, mindelta, maxdelta), dist[..], q1)
        invariant sum == 0 <==> forall v :: 0 <= v < dist.Length ==> dist[v] < mindelta
        decreases Unreached(dist[..]), Total(dist[..]), MaxDist(dist[..]) - mindelta
      {
        BucketIsWork(job, Phase(true, mindelta, maxdelta), dist[..], q1);
        LightRounds();
        HeavyRound();
        mindelta := maxdelta;
        maxdelta := maxdelta + job.delta;
        sum := CollectBucket();
      }
      BaseSolves(job, mindelta, dist[..], pred[..], stamp, clock);
    }
  }

  lemma CollectKeepsQueues(job: Job, ph: Phase, dist: seq<int>, q: seq<seq<nat>>, v: nat)
    requires |dist| == |job.g| && QueuesOk(job, ph, dist, q) && v < |dist| && InBucket(ph, dist[v])
    requires forall p, x :: 0 <= p < |q| && x in q[p] ==> x < v
    ensures QueuesOk(job, ph, dist, Enqueue(job.pes, q, v))
  {
    GlobalRoundTrip(job.pes, v);
    var q' := Enqueue(job.pes, q, v);
    forall p | 0 <= p < |q'|
      ensures QueueOk(job, ph, dist, p, q'[p])
    {
      assert QueueOk(job, ph, dist, p, q[p]);
      assert v !in q[p];
    }
  }
}
