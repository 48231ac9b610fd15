/** Level-synchronous breadth-first search as steps on values, with the invariants that every order of
    sends and deliveries inside one level keeps. */
module BfsSpec {
  import opened Graphs
  import opened Partition
  import SsspSpec

  type Row = SsspSpec.Row

  /** The graph with every arc one hop long. */
  function Hop(g: Graph): (h: Graph)
    ensures |h| == |g|
  {
    seq(|g|, u requires 0 <= u < |g| => seq(|g[u]|, j requires 0 <= j < |g[u]| => Arc(g[u][j].head, 1)))
  }

  predicate HasArc(g: Graph, u: int, v: int) {
    0 <= u < |g| && exists j :: 0 <= j < |g[u]| && g[u][j].head == v
  }

  lemma HopArc(g: Graph, u: nat, v: nat)
    requires HasArc(g, u, v)
    ensures u < |Hop(g)| && Arc(v, 1) in Hop(g)[u]
  {
    var j :| 0 <= j < |g[u]| && g[u][j].head == v;
    assert Hop(g)[u][j] == Arc(v, 1);
  }

  /** A visit message: the two local indices and the PEs the transport knows. */
  datatype Visit = Visit(to: nat, from: nat, vloc: nat, vfrom: nat)

  function Dest(pes: nat, m: Visit): nat { ToGlobal(pes, m.to, m.vloc) }

  function Source(pes: nat, m: Visit): nat { ToGlobal(pes, m.from, m.vfrom) }

  datatype Job = Job(g: Graph, pes: nat, root: nat)

  ghost predicate ValidJob(job: Job) {
    WellFormed(job.g) && job.pes > 0 && job.root < |job.g|
  }

  // ----- Invariants of level `d`; `depth` is -1 on vertices not visited -----

  /** A visited vertex hangs off its predecessor by an arc, one level down. */
  ghost predicate Hangs(job: Job, depth: seq<int>, pred: seq<int>, v: nat)
    requires |depth| == |pred| == |job.g| && v < |depth|
  {
    if v == job.root then depth[v] == 0 && pred[v] == v
    else if depth[v] == -1 then pred[v] == -1
    else HasArc(job.g, pred[v], v) && depth[pred[v]] >= 0 && depth[v] == depth[pred[v]] + 1
  }

  ghost predicate DepthOk(job: Job, d: nat, depth: seq<int>, pred: seq<int>) {
    && |depth| == |pred| == |job.g|
    && (forall v :: 0 <= v < |depth| ==> -1 <= depth[v] <= d + 1)
    && (forall v :: 0 <= v < |depth| ==> Hangs(job, depth, pred, v))
  }

  predicate Seen(depth: seq<int>, v: nat, bound: int) {
    v < |depth| && 0 <= depth[v] <= bound
  }

  /** All arcs out of levels above `d` have been followed. */
  ghost predicate Followed(job: Job, d: nat, depth: seq<int>)
    requires |depth| == |job.g|
  {
    forall u, j :: 0 <= u < |depth| && 0 <= depth[u] < d && 0 <= j < |job.g[u]| ==>
      Seen(depth, job.g[u][j].head, depth[u] + 1)
  }

  /** A queue holds exactly the vertices of one level that its PE owns, none twice. */
  ghost predicate QueueOk(job: Job, level: int, depth: seq<int>, p: nat, q: seq<nat>)
    requires job.pes > 0
  {
    && SsspSpec.Distinct(q)
    && forall v: nat :: v in q <==> v < |depth| && Owner(job.pes, v) == p && depth[v] == level
  }

  ghost predicate QueuesOk(job: Job, level: int, depth: seq<int>, q: seq<seq<nat>>) {
    job.pes > 0 && |q| == job.pes && forall p :: 0 <= p < |q| ==> QueueOk(job, level, depth, p, q[p])
  }

  /** A message in flight stands for an arc out of the current level. */
  ghost predicate Honest(job: Job, d: nat, depth: seq<int>, m: Visit) {
    var u, v := Source(job.pes, m), Dest(job.pes, m);
    u < |depth| && v < |depth| && depth[u] == d && HasArc(job.g, u, v)
  }

  ghost predicate NetOk(job: Job, d: nat, depth: seq<int>, net: multiset<Visit>) {
    forall m :: m in net ==> Honest(job, d, depth, m)
  }

  ghost predicate PlaceOk(job: Job, d: nat, depth: seq<int>, p: nat, todo: seq<nat>, row: Row)
    requires |depth| == |job.g| && job.pes > 0
  {
    && (forall v :: v in todo ==> v < |depth| && Owner(job.pes, v) == p && depth[v] == d)
    && (row.Open? ==> row.u < |depth| && Owner(job.pes, row.u) == p && depth[row.u] == d && row.j <= |job.g[row.u]|)
  }

  ghost predicate WorkOk(job: Job, d: nat, depth: seq<int>, todo: seq<seq<nat>>, rows: seq<Row>)
    requires |depth| == |job.g|
  {
    && job.pes > 0 && |todo| == |rows| == job.pes
    && forall p :: 0 <= p < |todo| ==> PlaceOk(job, d, depth, p, todo[p], rows[p])
  }

  ghost predicate InFlight(job: Job, net: multiset<Visit>, v: nat) {
    exists m :: m in net && Dest(job.pes, m) == v
  }

  ghost predicate ArcServed(job: Job, d: nat, depth: seq<int>, net: multiset<Visit>, todo: seq<seq<nat>>,
      rows: seq<Row>, u: nat, j: nat)
    requires |depth| == |job.g| && job.pes > 0 && |todo| == |rows| == job.pes && u < |job.g| && j < |job.g[u]|
  {
    || Seen(depth, job.g[u][j].head, d + 1)
    || InFlight(job, net, job.g[u][j].head)
    || SsspSpec.Owed(todo[Owner(job.pes, u)], rows[Owner(job.pes, u)], u, j)
  }

  /** Every arc out of the current level has been followed, is in flight, or is still to be sent. */
  ghost predicate Cover(job: Job, d: nat, depth: seq<int>, net: multiset<Visit>, todo: seq<seq<nat>>, rows: seq<Row>)
    requires |depth| == |job.g| && job.pes > 0 && |todo| == |rows| == job.pes
  {
    forall u, j :: 0 <= u < |depth| && depth[u] == d && 0 <= j < |job.g[u]| ==>
      ArcServed(job, d, depth, net, todo, rows, u, j)
  }

  ghost predicate LevelInv(job: Job, d: nat, depth: seq<int>, pred: seq<int>, q2: seq<seq<nat>>,
                           net: multiset<Visit>, todo: seq<seq<nat>>, rows: seq<Row>) {
    && ValidJob(job) && DepthOk(job, d, depth, pred) && Followed(job, d, depth) && QueuesOk(job, d + 1, depth, q2)
    && NetOk(job, d, depth, net) && WorkOk(job, d, depth, todo, rows) && Cover(job, d, depth, net, todo, rows)
  }

  // ----- Delivering a message -----

  lemma VisitKeepsDepth(job: Job, d: nat, depth: seq<int>, pred: seq<int>, u: nat, v: nat)
    requires DepthOk(job, d, depth, pred) && u < |depth| && v < |depth| && depth[u] == d && depth[v] == -1
             && HasArc(job.g, u, v)
    requires v != job.root
    ensures DepthOk(job, d, depth[v := d + 1], pred[v := u])
  {
    var depth', pred' := depth[v := d + 1], pred[v := u];
    forall x | 0 <= x < |depth| ensures Hangs(job, depth', pred', x) {
      assert Hangs(job, depth, pred, x);
    }
  }

  lemma VisitKeepsFollowed(job: Job, d: nat, depth: seq<int>, v: nat)
    requires |depth| == |job.g| && v < |depth| && depth[v] == -1 && Followed(job, d, depth)
    ensures Followed(job, d, depth[v := d + 1])
  {
    var depth' := depth[v := d + 1];
    forall u, j | 0 <= u < |depth'| && 0 <= depth'[u] < d && 0 <= j < |job.g[u]|
      ensures Seen(depth', job.g[u][j].head, depth'[u] + 1)
    {
      assert Seen(depth, job.g[u][j].head, depth[u] + 1);
    }
  }

  lemma VisitKeepsQueues(job: Job, d: nat, depth: seq<int>, q2: seq<seq<nat>>, v: nat)
    requires QueuesOk(job, d + 1, depth, q2) && v < |depth| && depth[v] == -1
    ensures QueuesOk(job, d + 1, depth[v := d + 1], SsspSpec.Enqueue(job.pes, q2, v))
  {
    GlobalRoundTrip(job.pes, v);
    var depth', q' := depth[v := d + 1], SsspSpec.Enqueue(job.pes, q2, v);
    forall p | 0 <= p < |q'| ensures QueueOk(job, d + 1, depth', p, q'[p]) {
      assert QueueOk(job, d + 1, depth, p, q2[p]);
      assert v !in q2[p];
    }
  }

  lemma VisitKeepsNet(job: Job, d: nat, depth: seq<int>, net: multiset<Visit>, v: nat, m: Visit)
    requires NetOk(job, d, depth, net) && v < |depth| && depth[v] == -1
    ensures NetOk(job, d, depth[v := d + 1], net - multiset{m})
  {
    forall k | k in net - multiset{m} ensures Honest(job, d, depth[v := d + 1], k) {
      assert k in net && Honest(job, d, depth, k);
    }
  }

  lemma VisitKeepsWork(job: Job, d: nat, depth: seq<int>, todo: seq<seq<nat>>, rows: seq<Row>, v: nat)
    requires |depth| == |job.g| && WorkOk(job, d, depth, todo, rows) && v < |depth| && depth[v] == -1
    ensures WorkOk(job, d, depth[v := d + 1], todo, rows)
  {
    forall p | 0 <= p < |todo| ensures PlaceOk(job, d, depth[v := d + 1], p, todo[p], rows[p]) {
      assert PlaceOk(job, d, depth, p, todo[p], rows[p]);
    }
  }

  /** Once the head of the message is seen, the message is not needed any more. */
  lemma DropKeepsCover(job: Job, d: nat, depth: seq<int>, depth': seq<int>, net: multiset<Visit>,
                       todo: seq<seq<nat>>, rows: seq<Row>, m: Visit)
    requires |depth| == |job.g| == |depth'| && job.pes > 0 && |todo| == |rows| == job.pes
             && Cover(job, d, depth, net, todo, rows)
    requires Dest(job.pes, m) < |depth| && Seen(depth', Dest(job.pes, m), d + 1)
    requires forall x :: 0 <= x < |depth| ==> depth'[x] == depth[x] || (depth[x] == -1 && depth'[x] == d + 1)
    ensures Cover(job, d, depth', net - multiset{m}, todo, rows)
  {
    forall u, j | 0 <= u < |depth'| && depth'[u] == d && 0 <= j < |job.g[u]|
      ensures ArcServed(job, d, depth', net - multiset{m}, todo, rows, u, j)
    {
      assert ArcServed(job, d, depth, net, todo, rows, u, j);
      var v := job.g[u][j].head;
      if InFlight(job, net, v) {
        var k :| k in net && Dest(job.pes, k) == v;
        if k != m {
          assert k in net - multiset{m};
        }
      }
    }
  }

  lemma NetHonest(job: Job, d: nat, depth: seq<int>, net: multiset<Visit>, m: Visit)
    requires NetOk(job, d, depth, net) && m in net
    ensures Honest(job, d, depth, m)
    ensures NetOk(job, d, depth, net - multiset{m})
  {
    forall k | k in net - multiset{m} ensures Honest(job, d, depth, k) {
      assert k in net;
    }
  }

  lemma DepthLength(job: Job, d: nat, depth: seq<int>, pred: seq<int>)
    requires DepthOk(job, d, depth, pred)
    ensures |depth| == |pred| == |job.g| && forall v :: 0 <= v < |depth| ==> -1 <= depth[v] <= d + 1
    ensures job.root < |job.g| ==> depth[job.root] == 0
  {
    if job.root < |job.g| {
      assert Hangs(job, depth, pred, job.root);
    }
  }

  lemma QueueCount(job: Job, level: int, depth: seq<int>, q: seq<seq<nat>>)
    requires QueuesOk(job, level, depth, q)
    ensures |q| == job.pes > 0
  {
  }

  lemma WorkShape(job: Job, d: nat, depth: seq<int>, todo: seq<seq<nat>>, rows: seq<Row>)
    requires |depth| == |job.g| && WorkOk(job, d, depth, todo, rows)
    ensures |todo| == |rows| == job.pes > 0
  {
  }

  /** Handling a message keeps the invariant: a vertex not visited before joins the next level. */
  lemma DeliverKeeps(job: Job, d: nat, depth: seq<int>, pred: seq<int>, q2: seq<seq<nat>>,
                     net: multiset<Visit>, todo: seq<seq<nat>>, rows: seq<Row>, m: Visit)
    requires LevelInv(job, d, depth, pred, q2, net, todo, rows) && m in net
    ensures |depth| == |pred| == |job.g| && |q2| == job.pes > 0 && Dest(job.pes, m) < |depth|
            && depth[Dest(job.pes, m)] >= -1
    ensures var v, u := Dest(job.pes, m), Source(job.pes, m);
            if depth[v] < 0
            then LevelInv(job, d, depth[v := d + 1], pred[v := u], SsspSpec.Enqueue(job.pes, q2, v), net - multiset{m},
                 todo, rows)
            else LevelInv(job, d, depth, pred, q2, net - multiset{m}, todo, rows)
  {
    hide DepthOk, Followed, QueuesOk, NetOk, WorkOk, Cover;
    NetHonest(job, d, depth, net, m);
    DepthLength(job, d, depth, pred);
    QueueCount(job, d + 1, depth, q2);
    WorkShape(job, d, depth, todo, rows);
    var v, u := Dest(job.pes, m), Source(job.pes, m);
    if depth[v] < 0 {
      VisitKeepsDepth(job, d, depth, pred, u, v);
      VisitKeepsFollowed(job, d, depth, v);
      VisitKeepsQueues(job, d, depth, q2, v);
      VisitKeepsNet(job, d, depth, net, v, m);
      VisitKeepsWork(job, d, depth, todo, rows, v);
      DropKeepsCover(job, d, depth, depth[v := d + 1], net, todo, rows, m);
    } else {
      DropKeepsCover(job, d, depth, depth, net, todo, rows, m);
    }
  }

  // ----- Sending a message -----

  datatype Sent = Sent(todo: seq<nat>, row: Row, sent: seq<Visit>)

  predicate HasWork(todo: seq<nat>, row: Row) {
    todo != [] || row.Open?
  }

  /** One step of the loops over the current queue and the arcs of a row. */
  function NextSend(job: Job, todo: seq<nat>, row: Row): Sent
    requires HasWork(todo, row) && job.pes > 0 && (row.Open? ==> row.u < |job.g|)
  {
    match row
    case Idle => Sent(todo[1..], SsspSpec.Open(todo[0], 0), [])
    case Open(u, j) =>
      if j >= |job.g[u]| then Sent(todo, SsspSpec.Idle, [])
      else
        var v := job.g[u][j].head;
        Sent(todo, SsspSpec.Open(u, j + 1),
          [Visit(Owner(job.pes, v), Owner(job.pes, u), Local(job.pes, v), Local(job.pes, u))])
  }

  lemma SendKeepsNet(job: Job, d: nat, depth: seq<int>, net: multiset<Visit>, p: nat, todo: seq<nat>, row: Row)
    requires ValidJob(job) && |depth| == |job.g| && NetOk(job, d, depth, net) && PlaceOk(job, d, depth, p, todo, row)
             && HasWork(todo, row)
    ensures NetOk(job, d, depth, net + multiset(NextSend(job, todo, row).sent))
  {
    var st := NextSend(job, todo, row);
    forall m | m in net + multiset(st.sent) ensures Honest(job, d, depth, m) {
      if m !in net {
        var u, v := row.u, job.g[row.u][row.j].head;
        assert m == Visit(Owner(job.pes, v), Owner(job.pes, u), Local(job.pes, v), Local(job.pes, u));
        assert job.g[u][row.j] in job.g[u];
        GlobalRoundTrip(job.pes, u);
        GlobalRoundTrip(job.pes, v);
      }
    }
  }

  lemma SendKeepsPlace(job: Job, d: nat, depth: seq<int>, p: nat, todo: seq<nat>, row: Row)
    requires |depth| == |job.g| && job.pes > 0 && PlaceOk(job, d, depth, p, todo, row) && HasWork(todo, row)
    ensures var st := NextSend(job, todo, row); PlaceOk(job, d, depth, p, st.todo, st.row)
  {
    if row.Idle? {
      assert todo[0] in todo;
      assert forall v :: v in todo[1..] ==> v in todo;
    }
  }

  lemma SendKeepsCover(job: Job, d: nat, depth: seq<int>, net: multiset<Visit>, todo: seq<seq<nat>>, rows: seq<Row>,
      p: nat)
    requires ValidJob(job) && |depth| == |job.g| && WorkOk(job, d, depth, todo, rows)
             && Cover(job, d, depth, net, todo, rows)
    requires p < job.pes && HasWork(todo[p], rows[p]) && (rows[p].Open? ==> rows[p].u < |job.g|)
    ensures var st := NextSend(job, todo[p], rows[p]);
            Cover(job, d, depth, net + multiset(st.sent), todo[p := st.todo], rows[p := st.row])
  {
    var st := NextSend(job, todo[p], rows[p]);
    var net', todo', rows' := net + multiset(st.sent), todo[p := st.todo], rows[p := st.row];
    assert PlaceOk(job, d, depth, p, todo[p], rows[p]);
    forall u, j | 0 <= u < |depth| && depth[u] == d && 0 <= j < |job.g[u]|
      ensures ArcServed(job, d, depth, net', todo', rows', u, j)
    {
      assert ArcServed(job, d, depth, net, todo, rows, u, j);
      SendServes(job, d, depth, net, todo, rows, p, u, j);
    }
  }

  lemma SendServes(job: Job, d: nat, depth: seq<int>, net: multiset<Visit>, todo: seq<seq<nat>>, rows: seq<Row>, p: nat,
      u: nat, j: nat)
    requires ValidJob(job) && |depth| == |job.g| && |todo| == |rows| == job.pes && u < |job.g| && j < |job.g[u]|
    requires p < job.pes && HasWork(todo[p], rows[p]) && (rows[p].Open? ==> rows[p].u < |job.g|)
    requires ArcServed(job, d, depth, net, todo, rows, u, j)
    ensures var st := NextSend(job, todo[p], rows[p]);
            ArcServed(job, d, depth, net + multiset(st.sent), todo[p := st.todo], rows[p := st.row], u, j)
  {
    var st := NextSend(job, todo[p], rows[p]);
    var net' := net + multiset(st.sent);
    var v := job.g[u][j].head;
    if InFlight(job, net, v) {
      var k :| k in net && Dest(job.pes, k) == v;
      assert k in net';
    } else if Owner(job.pes, u) == p && rows[p].Open? && rows[p].u == u && rows[p].j == j {
      GlobalRoundTrip(job.pes, v);
      var m := Visit(Owner(job.pes, v), Owner(job.pes, u), Local(job.pes, v), Local(job.pes, u));
      assert m in st.sent && m in net' && Dest(job.pes, m) == v;
    }
  }

  // ----- A level ends, and the search ends -----

  predicate Quiet(net: multiset<Visit>, todo: seq<seq<nat>>, rows: seq<Row>) {
    net == multiset{} && |todo| == |rows| && forall p :: 0 <= p < |todo| ==> !HasWork(todo[p], rows[p])
  }

  /** After the barrier all arcs out of the level have been followed. */
  lemma LevelEnds(job: Job, d: nat, depth: seq<int>, net: multiset<Visit>, todo: seq<seq<nat>>, rows: seq<Row>)
    requires |depth| == |job.g| && job.pes > 0 && |todo| == |rows| == job.pes
    requires Followed(job, d, depth) && Cover(job, d, depth, net, todo, rows) && Quiet(net, todo, rows)
    ensures Followed(job, d + 1, depth)
  {
    forall u, j | 0 <= u < |depth| && 0 <= depth[u] < d + 1 && 0 <= j < |job.g[u]|
      ensures Seen(depth, job.g[u][j].head, depth[u] + 1)
    {
      if depth[u] == d {
        assert ArcServed(job, d, depth, net, todo, rows, u, j);
        GlobalRoundTrip(job.pes, u);
        assert !HasWork(todo[Owner(job.pes, u)], rows[Owner(job.pes, u)]);
      } else {
        assert Seen(depth, job.g[u][j].head, depth[u] + 1);
      }
    }
  }

  lemma LevelStarts(job: Job, d: nat, depth: seq<int>, q: seq<seq<nat>>)
    requires ValidJob(job) && |depth| == |job.g| && QueuesOk(job, d, depth, q)
    ensures WorkOk(job, d, depth, q, SsspSpec.IdleRows(job.pes))
    ensures Cover(job, d, depth, multiset{}, q, SsspSpec.IdleRows(job.pes))
  {
    var rows := SsspSpec.IdleRows(job.pes);
    forall p | 0 <= p < |q| ensures PlaceOk(job, d, depth, p, q[p], rows[p]) {
      assert QueueOk(job, d, depth, p, q[p]);
    }
    forall u, j | 0 <= u < |depth| && depth[u] == d && 0 <= j < |job.g[u]|
      ensures ArcServed(job, d, depth, multiset{}, q, rows, u, j)
    {
      GlobalRoundTrip(job.pes, u);
      assert QueueOk(job, d, depth, Owner(job.pes, u), q[Owner(job.pes, u)]);
    }
  }

  /** What the search is for: exact hop distances, and a tree of shortest hop paths in `pred`. */
  ghost predicate Solved(job: Job, depth: seq<int>, pred: seq<int>) {
    && |depth| == |pred| == |job.g| && job.root < |pred| && pred[job.root] == job.root
    && Shortest(Hop(job.g), job.root, depth)
    && (forall v :: 0 <= v < |pred| ==> (pred[v] == -1 <==> !Reachable(Hop(job.g), job.root, v)))
    && (forall v :: 0 <= v < |pred| && pred[v] != -1 ==> TreeAt(Hop(job.g), job.root, depth, pred, v))
  }

  lemma {:induction false} DepthIsTree(job: Job, d: nat, depth: seq<int>, pred: seq<int>, v: nat)
    requires ValidJob(job) && DepthOk(job, d, depth, pred) && v < |depth| && depth[v] >= 0
    ensures TreeAt(Hop(job.g), job.root, depth, pred, v)
    decreases depth[v]
  {
    assert Hangs(job, depth, pred, v);
    if v == job.root {
      assert IsWalk(Hop(job.g), job.root, v, Start) && Length(Start) == 0 && FollowsPred(pred, v, Start);
    } else {
      var u := pred[v];
      DepthIsTree(job, d, depth, pred, u);
      var w :| IsWalk(Hop(job.g), job.root, u, w) && Length(w) == depth[u] && FollowsPred(pred, u, w);
      HopArc(job.g, u, v);
      var w' := Step(w, u, Arc(v, 1));
      assert IsWalk(Hop(job.g), job.root, v, w') && Length(w') == depth[v] && FollowsPred(pred, v, w');
    }
  }

  lemma SearchEnds(job: Job, d: nat, depth: seq<int>, pred: seq<int>, q: seq<seq<nat>>)
    requires ValidJob(job) && DepthOk(job, d, depth, pred) && Followed(job, d, depth)
    requires QueuesOk(job, d, depth, q) && (forall p :: 0 <= p < |q| ==> q[p] == [])
    requires forall v :: 0 <= v < |depth| ==> depth[v] <= d
    ensures Solved(job, depth, pred)
  {
    var h := Hop(job.g);
    assert Hangs(job, depth, pred, job.root);
    forall u, a | 0 <= u < |h| && depth[u] != -1 && a in h[u] ensures Relaxed(h, depth, u, a) {
      GlobalRoundTrip(job.pes, u);
      assert QueueOk(job, d, depth, Owner(job.pes, u), q[Owner(job.pes, u)]);
      assert depth[u] != d;
      var j :| 0 <= j < |h[u]| && h[u][j] == a;
      assert Seen(depth, job.g[u][j].head, depth[u] + 1);
    }
    forall v | 0 <= v < |depth| && depth[v] != -1
      ensures Reaches(h, job.root, v, depth[v]) && TreeAt(h, job.root, depth, pred, v)
    {
      DepthIsTree(job, d, depth, pred, v);
    }
    ClosedAndReachedIsShortest(h, job.root, depth);
    forall v | 0 <= v < |pred| ensures pred[v] == -1 <==> !Reachable(h, job.root, v) {
      assert Hangs(job, depth, pred, v) && ShortestAt(h, job.root, v, depth[v]);
    }
  }
}
