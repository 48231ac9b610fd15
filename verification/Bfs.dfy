/** The distributed breadth-first search kernel, one object standing for all PEs as in the shortest
    path kernel. */
module Bfs {
  import opened Graphs
  import opened Partition
  import opened BfsSpec
  import SsspSpec
  import Sssp

  /** The visited bitmap agrees with the depths. */
  ghost predicate Marked(visited: set<nat>, depth: seq<int>) {
    forall v: nat :: v in visited <==> v < |depth| && depth[v] >= 0
  }

  lemma MarkedVisit(visited: set<nat>, depth: seq<int>, v: nat, d: nat)
    requires Marked(visited, depth) && v < |depth|
    ensures v in visited <==> depth[v] >= 0
    ensures Marked(visited + {v}, depth[v := d])
  {
  }

  /** The next queue of a PE never outgrows the buffer of `nlocalverts` entries. */
  lemma QueueFits(job: Job, level: int, depth: seq<int>, q: seq<seq<nat>>, p: nat)
    requires |depth| == |job.g| && QueuesOk(job, level, depth, q) && p < job.pes
    ensures |q[p]| <= Sssp.LocalCount(job.pes, |job.g|, p)
  {
    assert QueueOk(job, level, depth, p, q[p]);
    Sssp.DistinctFits(q[p], Sssp.Locals(job.pes, |job.g|, p));
    Sssp.LocalsCount(job.pes, |job.g|, p);
  }

  /** So at every moment of a level all queues fit. */
  lemma LevelQueueFits(job: Job, d: nat, depth: seq<int>, pred: seq<int>, q2: seq<seq<nat>>,
                       net: multiset<Visit>, todo: seq<seq<nat>>, rows: seq<Row>, p: nat)
    requires LevelInv(job, d, depth, pred, q2, net, todo, rows) && p < job.pes
    ensures |q2| == job.pes && |q2[p]| <= Sssp.LocalCount(job.pes, |job.g|, p)
  {
    QueueFits(job, d + 1, depth, q2, p);
  }

  lemma SendStepCost(job: Job, todo: seq<nat>, row: Row)
    requires HasWork(todo, row) && job.pes > 0 && (row.Open? ==> row.u < |job.g| && row.j <= |job.g[row.u]|)
    ensures var st := NextSend(job, todo, row);
            Sssp.RowCost(job.g, st.todo, st.row) + |st.sent| < Sssp.RowCost(job.g, todo, row)
  {
    var st := NextSend(job, todo, row);
    if row.Open? {
      Sssp.ArcStepCost(job.g, todo, row, st.row);
    } else {
      Sssp.OpenRowCost(job.g, todo, st.row);
    }
  }

  /** Fewer unvisited vertices whenever a level adds one. */
  lemma {:induction false} UnreachedMonotone(a: seq<int>, b: seq<int>)
    requires |a| == |b| && forall v :: 0 <= v < |a| ==> a[v] == b[v] || (a[v] == -1 && b[v] != -1)
    ensures SsspSpec.Unreached(b) <= SsspSpec.Unreached(a)
    ensures a != b ==> SsspSpec.Unreached(b) < SsspSpec.Unreached(a)
  {
    if a != [] {
      var n := |a| - 1;
      UnreachedMonotone(a[..n], b[..n]);
      if a[..n] == b[..n] && a[n] == b[n] {
        assert a == a[..n] + [a[n]] && b == b[..n] + [b[n]];
      }
    }
  }

  class Kernel {
    const job: Job
    const pred: array<int>
    var q1: seq<seq<nat>>
    var q2: seq<seq<nat>>
    var visited: set<nat>
    var net: multiset<Visit>
    ghost var depth: seq<int>
    ghost var level: nat

    ghost predicate Inv(todo: seq<seq<nat>>, rows: seq<Row>)
      reads this, pred
    {
      LevelInv(job, level, depth, pred[..], q2, net, todo, rows) && Marked(visited, depth)
    }

    constructor (job: Job, pred: array<int>)
      requires ValidJob(job) && pred.Length == |job.g|
      ensures this.job == job && this.pred == pred
    {
      this.job, this.pred := job, pred;
      q1, q2, visited, net, depth, level := [], [], {}, multiset{}, [], 0;
    }

    /** The active-message handler, run for any message in flight. */
    method HandleVisit(m: Visit, ghost todo: seq<seq<nat>>, ghost rows: seq<Row>)
      requires Inv(todo, rows) && m in net
      modifies this`q2, this`visited, this`net, this`depth, pred
      ensures Inv(todo, rows) && net == old(net) - multiset{m}
      ensures |depth| == |old(depth)|
              && forall v :: 0 <= v < |depth| ==> depth[v] == old(depth)[v] || (old(depth)[v] == -1 && depth[v] != -1)
    {
      hide LevelInv, Marked, ToGlobal, Owner, SsspSpec.Enqueue;
      DeliverKeeps(job, level, depth, pred[..], q2, net, todo, rows, m);
      var v := ToGlobal(job.pes, m.to, m.vloc);
      MarkedVisit(visited, depth, v, level + 1);
      if v !in visited {
        ghost var pred' := pred[..][v := Source(job.pes, m)];
        visited := visited + {v};
        q2 := SsspSpec.Enqueue(job.pes, q2, v);
        pred[v] := ToGlobal(job.pes, m.from, m.vfrom);
        depth := depth[v := level + 1];
        assert pred[..] == pred';
      }
      net := net - multiset{m};
    }

    /** One step of the sending loop of PE `p`. */
    method SendNext(p: nat, todo: seq<seq<nat>>, rows: seq<Row>) returns (todo': seq<seq<nat>>, rows': seq<Row>)
      requires Inv(todo, rows) && |todo| == |rows| == job.pes && p < job.pes && HasWork(todo[p], rows[p])
      modifies this`net
      ensures Inv(todo', rows') && |todo'| == |rows'| == job.pes
      ensures Sssp.Cost(job.g, todo', rows') + |net| < Sssp.Cost(job.g, todo, rows) + |old(net)|
    {
      hide DepthOk, Followed, QueuesOk, NetOk, Cover;
      DepthLength(job, level, depth, pred[..]);
      assert PlaceOk(job, level, depth, p, todo[p], rows[p]);
      var st := NextSend(job, todo[p], rows[p]);
      SendKeepsNet(job, level, depth, net, p, todo[p], rows[p]);
      SendKeepsPlace(job, level, depth, p, todo[p], rows[p]);
      SendKeepsCover(job, level, depth, net, todo, rows, p);
      SendStepCost(job, todo[p], rows[p]);
      Sssp.CostUpdate(job.g, todo, rows, p, st.todo, st.row);
      net := net + multiset(st.sent);
      todo', rows' := todo[p := st.todo], rows[p := st.row];
      forall q | 0 <= q < |todo'| ensures PlaceOk(job, level, depth, q, todo'[q], rows'[q]) {
        assert PlaceOk(job, level, depth, q, todo[q], rows[q]);
      }
    }

    /** One level up to and including the barrier, in any order of sends and deliveries. */
    method Exchange() returns (ghost todo: seq<seq<nat>>, ghost rows: seq<Row>)
      requires |q1| == job.pes && Inv(q1, SsspSpec.IdleRows(job.pes))
      modifies this`q2, this`visited, this`net, this`depth, pred
      ensures Inv(todo, rows) && Quiet(net, todo, rows)
      ensures |depth| == |old(depth)|
              && forall v :: 0 <= v < |depth| ==> depth[v] == old(depth)[v] || (old(depth)[v] == -1 && depth[v] != -1)
    {
      hide LevelInv, Marked, Sssp.Cost;
      var t, r := q1, SsspSpec.IdleRows(job.pes);
      while true
        invariant |t| == |r| == job.pes && Inv(t, r)
        invariant |depth| == |old(depth)|
        invariant forall v :: 0 <= v < |depth| ==>
                    depth[v] == old(depth)[v] || (old(depth)[v] == -1 && depth[v] != -1)
        decreases Sssp.Cost(job.g, t, r) + |net|
      {
        if
        case net != multiset{} =>
          var m :| m in net;
          HandleVisit(m, t, r);
        case exists p :: 0 <= p < job.pes && HasWork(t[p], r[p]) =>
          var p :| 0 <= p < job.pes && HasWork(t[p], r[p]);
          t, r := SendNext(p, t, r);
        case net == multiset{} && forall p :: 0 <= p < job.pes ==> !HasWork(t[p], r[p]) =>
          break;
      }
      todo, rows := t, r;
    }

    /** The kernel, from a `pred` that holds -1 everywhere: exactly the reachable vertices get a
        predecessor, and following it leads to the root in as many steps as the hop distance. */
    method Run()
      requires ValidJob(job) && pred.Length == |job.g| && forall v :: 0 <= v < pred.Length ==> pred[v] == -1
      modifies this, pred
      ensures Solved(job, depth, pred[..])
    {
      hide Solved, SsspSpec.Unreached;
      level, depth := 0, seq(|job.g|, _ => -1)[job.root := 0];
      q1, q2, net := seq(job.pes, _ => []), seq(job.pes, _ => []), multiset{};
      pred[job.root] := job.root;
      visited := {job.root};
      q1 := SsspSpec.Enqueue(job.pes, q1, job.root);
      FirstLevel(job, depth, pred[..], q1, q2);
      var sum := 1;
      while sum != 0
        invariant Between()
        invariant sum == 0 ==> forall p :: 0 <= p < |q1| ==> q1[p] == []
        decreases SsspSpec.Unreached(depth), sum
      {
        sum := Level(sum);
      }
      SearchEnds(job, level, depth, pred[..], q1);
    }

    /** Between two levels: the queue holds the current level, nothing lies deeper, nothing is in
        flight. */
    ghost predicate Between()
      reads this, pred
    {
      && ValidJob(job) && |q1| == job.pes && Marked(visited, depth) && net == multiset{}
      && DepthOk(job, level, depth, pred[..]) && Followed(job, level, depth)
      && QueuesOk(job, level, depth, q1) && QueuesOk(job, level + 1, depth, q2)
      && forall v :: 0 <= v < |depth| ==> depth[v] <= level
    }

    /** Visits the next level and makes it the current one. */
    method Level(sum: nat) returns (sum': nat)
      requires Between() && sum != 0
      modifies this`q1, this`q2, this`visited, this`net, this`depth, this`level, pred
      ensures Between()
      ensures sum' == 0 ==> forall p :: 0 <= p < |q1| ==> q1[p] == []
      ensures || SsspSpec.Unreached(depth) < SsspSpec.Unreached(old(depth))
              || (SsspSpec.Unreached(depth) == SsspSpec.Unreached(old(depth)) && sum' < sum)
    {
      hide DepthOk, Followed, QueuesOk, Cover, WorkOk, SsspSpec.Unreached;
      DepthLength(job, level, depth, pred[..]);
      LevelStarts(job, level, depth, q1);
      ghost var before := depth;
      ghost var todo, rows := Exchange();
      DepthLength(job, level, depth, pred[..]);
      WorkShape(job, level, depth, todo, rows);
      LevelEnds(job, level, depth, net, todo, rows);
      UnreachedMonotone(before, depth);
      QueueCount(job, level + 1, depth, q2);
      if before == depth {
        NoneQueued(job, level + 1, depth, q2);
      }
      q1, q2 := q2, seq(job.pes, _ => []);
      level := level + 1;
      sum' := Sssp.QueueTotal(q1);
      NextLevel(job, level, depth, pred[..], q2);
    }
  }

  // ----- Facts taken from the invariants one at a time -----

  lemma NoneQueued(job: Job, level: int, depth: seq<int>, q: seq<seq<nat>>)
    requires QueuesOk(job, level, depth, q) && forall v :: 0 <= v < |depth| ==> depth[v] < level
    ensures forall p :: 0 <= p < |q| ==> q[p] == []
  {
    forall p | 0 <= p < |q| ensures q[p] == [] {
      assert QueueOk(job, level, depth, p, q[p]);
      if q[p] != [] {
        SomeMember(q[p]);
      }
    }
  }

  lemma SomeMember(q: seq<nat>)
    requires q != []
    ensures exists v :: v in q
  {
    assert q[0] in q;
  }

  lemma NextLevel(job: Job, level: nat, depth: seq<int>, pred: seq<int>, q: seq<seq<nat>>)
    requires job.pes > 0 && level > 0 && DepthOk(job, level - 1, depth, pred) && |q| == job.pes
             && forall p :: 0 <= p < |q| ==> q[p] == []
    ensures DepthOk(job, level, depth, pred) && QueuesOk(job, level + 1, depth, q)
    ensures forall v :: 0 <= v < |depth| ==> depth[v] <= level
  {
    forall p | 0 <= p < |q| ensures QueueOk(job, level + 1, depth, p, q[p]) {
    }
  }

  lemma FirstLevel(job: Job, depth: seq<int>, pred: seq<int>, q1: seq<seq<nat>>, q2: seq<seq<nat>>)
    requires ValidJob(job) && |depth| == |pred| == |job.g| && depth[job.root] == 0 && pred[job.root] == job.root
    requires forall v :: 0 <= v < |depth| && v != job.root ==> depth[v] == -1 == pred[v]
    requires |q2| == job.pes
             && (forall p :: 0 <= p < |q2| ==> q2[p] == []) && q1 == SsspSpec.Enqueue(job.pes, q2, job.root)
    ensures DepthOk(job, 0, depth, pred) && Followed(job, 0, depth) && QueuesOk(job, 0, depth, q1)
            && QueuesOk(job, 1, depth, q2)
  {
    forall v | 0 <= v < |depth| ensures Hangs(job, depth, pred, v) {
    }
    GlobalRoundTrip(job.pes, job.root);
    forall p | 0 <= p < |q1| ensures QueueOk(job, 0, depth, p, q1[p]) && QueueOk(job, 1, depth, p, q2[p]) {
    }
  }
}
