/** Delta-stepping relaxation as steps on values: what one relaxation message does, and the
    invariants that every interleaving of sends and deliveries inside one phase keeps. */
module SsspSpec {
  import opened Graphs
  import opened Partition

  /** The graph, the number of PEs, the root and the bucket width. */
  datatype Job = Job(g: Graph, pes: nat, root: nat, delta: nat)

  ghost predicate ValidJob(job: Job) {
    WellFormed(job.g) && job.pes > 0 && job.root < |job.g| && job.delta > 0
  }

  /** A phase relaxes the light or the heavy arcs of the bucket `lo <= distance < hi`. */
  datatype Phase = Phase(light: bool, lo: nat, hi: nat)

  /** A relaxation message: offered distance and the two local indices, with the PEs that the
      transport knows. */
  datatype Packet = Packet(to: nat, from: nat, w: nat, destLoc: nat, srcLoc: nat)

  function Dest(pes: nat, m: Packet): nat { ToGlobal(pes, m.to, m.destLoc) }

  function Source(pes: nat, m: Packet): nat { ToGlobal(pes, m.from, m.srcLoc) }

  /** Everything a message handler may change. `q2[p]` is the next queue of PE `p`. */
  datatype Store = Store(dist: seq<int>, pred: seq<int>, q2: seq<seq<nat>>, visited: set<nat>)

  predicate Improves(dist: seq<int>, v: nat, w: int)
    requires v < |dist|
  {
    dist[v] < 0 || dist[v] > w
  }

  function Enqueue(pes: nat, q: seq<seq<nat>>, v: nat): seq<seq<nat>>
    requires pes > 0 && |q| == pes
  {
    q[Owner(pes, v) := q[Owner(pes, v)] + [v]]
  }

  /** Effect of the relaxation handler: offer distance `w` for `v` along an arc from `u`. */
  function Relax(job: Job, ph: Phase, s: Store, u: nat, v: nat, w: nat): Store
    requires v < |s.dist| == |s.pred| && job.pes > 0 && |s.q2| == job.pes
  {
    if !Improves(s.dist, v, w) then s
    else
      var s' := s.(dist := s.dist[v := w], pred := s.pred[v := u]);
      if ph.light && v !in s.visited && w < ph.hi
      then s'.(q2 := Enqueue(job.pes, s.q2, v), visited := s.visited + {v})
      else s'
  }

  /** Where a PE stands in its sending loop: between rows, or about to treat arc `j` of row `u`. */
  datatype Row = Idle | Open(u: nat, j: nat)

  function IdleRows(pes: nat): seq<Row> { seq(pes, _ => Idle) }

  predicate Chosen(job: Job, ph: Phase, a: Arc) {
    if ph.light then a.weight < job.delta else a.weight >= job.delta
  }

  predicate InBucket(ph: Phase, d: int) { ph.lo <= d < ph.hi }

  // ----- Invariants of a phase -----

  ghost predicate Sound(job: Job, dist: seq<int>) {
    && |dist| == |job.g| && job.root < |job.g| && dist[job.root] == 0
    && forall v :: 0 <= v < |dist| ==>
         dist[v] >= -1 && (dist[v] != -1 ==> Reaches(job.g, job.root, v, dist[v]))
  }

  /** `v` hangs off its predecessor by an arc that explains its distance; on a tie the predecessor
      got its distance earlier. */
  ghost predicate Hangs(job: Job, dist: seq<int>, pred: seq<int>, stamp: seq<nat>, v: nat)
    requires |dist| == |pred| == |stamp| == |job.g| && v < |dist|
  {
    && 0 <= pred[v] < |job.g| && dist[pred[v]] != -1
    && ArcWithin(job.g, pred[v], v, dist[v] - dist[pred[v]])
    && (dist[pred[v]] == dist[v] ==> stamp[pred[v]] < stamp[v])
  }

  ghost predicate ArcWithin(g: Graph, u: nat, v: nat, slack: int) {
    u < |g| && exists a :: a in g[u] && a.head == v && a.weight <= slack
  }

  ghost predicate PredOk(job: Job, dist: seq<int>, pred: seq<int>, stamp: seq<nat>, clock: nat) {
    && |dist| == |pred| == |stamp| == |job.g| && job.root < |job.g|
    && pred[job.root] == job.root
    && (forall v :: 0 <= v < |stamp| ==> stamp[v] < clock)
    && forall v :: 0 <= v < |dist| && v != job.root ==>
         if dist[v] == -1 then pred[v] == -1 else Hangs(job, dist, pred, stamp, v)
  }

  /** A message in flight offers the length of a real walk through an arc of its source. */
  ghost predicate Honest(job: Job, ph: Phase, dist: seq<int>, m: Packet)
    requires |dist| == |job.g| && job.pes > 0
  {
    var u, v := Source(job.pes, m), Dest(job.pes, m);
    && u < |job.g| && v < |job.g|
    && (if ph.light then ph.lo else ph.hi) <= m.w
    && dist[u] != -1 && dist[u] <= m.w && ArcWithin(job.g, u, v, m.w - dist[u])
    && Reaches(job.g, job.root, v, m.w)
  }

  ghost predicate NetOk(job: Job, ph: Phase, dist: seq<int>, net: multiset<Packet>)
    requires |dist| == |job.g| && job.pes > 0
  {
    forall m :: m in net ==> Honest(job, ph, dist, m)
  }

  /** All arcs are relaxed out of vertices below `lo`; in a heavy phase also the light arcs out of
      the bucket. */
  ghost predicate Settled(job: Job, ph: Phase, dist: seq<int>)
    requires |dist| == |job.g|
  {
    forall u, a :: 0 <= u < |dist| && dist[u] != -1 && a in job.g[u]
      && (dist[u] < ph.lo || (!ph.light && dist[u] < ph.hi && a.weight < job.delta))
      ==> Relaxed(job.g, dist, u, a)
  }

  ghost predicate Distinct(q: seq<nat>) {
    forall i, k :: 0 <= i < k < |q| ==> q[i] != q[k]
  }

  /** A queue of PE `p`: its own vertices, none twice, all in the bucket. */
  ghost predicate QueueOk(job: Job, ph: Phase, dist: seq<int>, p: nat, q: seq<nat>)
    requires |dist| == |job.g| && job.pes > 0
  {
    && Distinct(q)
    && forall v :: v in q ==> v < |dist| && Owner(job.pes, v) == p && InBucket(ph, dist[v])
  }

  ghost predicate QueuesOk(job: Job, ph: Phase, dist: seq<int>, q: seq<seq<nat>>)
    requires |dist| == |job.g|
  {
    job.pes > 0 && |q| == job.pes && forall p :: 0 <= p < |q| ==> QueueOk(job, ph, dist, p, q[p])
  }

  ghost predicate NextOk(job: Job, ph: Phase, s: Store)
    requires |s.dist| == |job.g|
  {
    && QueuesOk(job, ph, s.dist, s.q2)
    && if ph.light
       then forall v: nat :: v in s.visited <==> v < |s.dist| && v in s.q2[Owner(job.pes, v)]
       else forall p :: 0 <= p < |s.q2| ==> s.q2[p] == []
  }

  /** The rows a PE still has to treat belong to it; an opened row lies in the bucket. */
  ghost predicate TodoOk(job: Job, ph: Phase, dist: seq<int>, p: nat, todo: seq<nat>)
    requires |dist| == |job.g| && job.pes > 0
  {
    forall v :: v in todo ==>
      v < |dist| && Owner(job.pes, v) == p && (ph.light ==> InBucket(ph, dist[v]))
  }

  ghost predicate RowOk(job: Job, ph: Phase, dist: seq<int>, p: nat, row: Row)
    requires |dist| == |job.g| && job.pes > 0
  {
    row.Open? ==>
      && row.u < |dist| && Owner(job.pes, row.u) == p && InBucket(ph, dist[row.u])
      && row.j <= |job.g[row.u]|
  }

  ghost predicate WorkOk(job: Job, ph: Phase, dist: seq<int>, todo: seq<seq<nat>>, rows: seq<Row>)
    requires |dist| == |job.g|
  {
    && job.pes > 0 && |todo| == |rows| == job.pes
    && (forall p :: 0 <= p < |todo| ==> TodoOk(job, ph, dist, p, todo[p]))
    && (forall p :: 0 <= p < |rows| ==> RowOk(job, ph, dist, p, rows[p]))
  }

  ghost predicate Covered(job: Job, dist: seq<int>, net: multiset<Packet>, u: nat, a: Arc)
    requires u < |dist|
  {
    exists m :: m in net && Dest(job.pes, m) == a.head && m.w <= dist[u] + a.weight
  }

  predicate Owed(todo: seq<nat>, row: Row, u: nat, j: nat) {
    u in todo || (row.Open? && row.u == u && row.j <= j)
  }

  ghost predicate ArcServed(job: Job, dist: seq<int>, net: multiset<Packet>,
                            todo: seq<seq<nat>>, rows: seq<Row>, u: nat, j: nat)
    requires |dist| == |job.g| && job.pes > 0 && |todo| == |rows| == job.pes
    requires u < |dist| && j < |job.g[u]|
  {
    || Relaxed(job.g, dist, u, job.g[u][j])
    || Covered(job, dist, net, u, job.g[u][j])
    || Owed(todo[Owner(job.pes, u)], rows[Owner(job.pes, u)], u, j)
  }

  function Skipped(ph: Phase, s: Store): set<nat> {
    if ph.light then s.visited else {}
  }

  /** Every chosen arc out of the bucket is relaxed, in flight, or still to be sent, except out of
      vertices already queued for the next round. */
  ghost predicate CoverInv(job: Job, ph: Phase, s: Store, net: multiset<Packet>,
                           todo: seq<seq<nat>>, rows: seq<Row>)
    requires |s.dist| == |job.g| && job.pes > 0 && |todo| == |rows| == job.pes
  {
    forall u, j :: 0 <= u < |s.dist| && 0 <= j < |job.g[u]|
      && InBucket(ph, s.dist[u]) && u !in Skipped(ph, s) && Chosen(job, ph, job.g[u][j])
      ==> ArcServed(job, s.dist, net, todo, rows, u, j)
  }

  ghost predicate StoreOk(job: Job, ph: Phase, s: Store, stamp: seq<nat>, clock: nat) {
    && ValidJob(job) && ph.lo < ph.hi && ph.hi == ph.lo + job.delta
    && Sound(job, s.dist)
    && PredOk(job, s.dist, s.pred, stamp, clock)
    && Settled(job, ph, s.dist)
    && NextOk(job, ph, s)
  }

  ghost predicate RoundInv(job: Job, ph: Phase, s: Store, stamp: seq<nat>, clock: nat,
                           net: multiset<Packet>, todo: seq<seq<nat>>, rows: seq<Row>) {
    && StoreOk(job, ph, s, stamp, clock)
    && NetOk(job, ph, s.dist, net)
    && WorkOk(job, ph, s.dist, todo, rows)
    && CoverInv(job, ph, s, net, todo, rows)
  }

  // ----- Progress: fewer unreached vertices, or a smaller sum of distances -----

  function Unreached(d: seq<int>): nat {
    if d == [] then 0 else Unreached(d[..|d| - 1]) + (if d[|d| - 1] == -1 then 1 else 0)
  }

  function Total(d: seq<int>): nat {
    if d == [] then 0 else Total(d[..|d| - 1]) + (if d[|d| - 1] < 0 then 0 else d[|d| - 1])
  }

  ghost predicate LexLess(d: seq<int>, e: seq<int>) {
    Unreached(d) < Unreached(e) || (Unreached(d) == Unreached(e) && Total(d) < Total(e))
  }

  lemma {:induction false} UpdateSums(d: seq<int>, v: nat, w: nat)
    requires v < |d| && forall i :: 0 <= i < |d| ==> d[i] >= -1
    ensures Unreached(d[v := w]) == Unreached(d) - (if d[v] == -1 then 1 else 0)
    ensures Total(d[v := w]) == Total(d) - (if d[v] == -1 then 0 else d[v]) + w
  {
    var last := |d| - 1;
    if v == last {
      assert d[v := w][..last] == d[..last];
    } else {
      assert d[v := w][..last] == d[..last][v := w];
      UpdateSums(d[..last], v, w);
    }
  }

  lemma ImproveLexLess(d: seq<int>, v: nat, w: nat)
    requires v < |d| && Improves(d, v, w)
    requires forall i :: 0 <= i < |d| ==> d[i] >= -1
    ensures LexLess(d[v := w], d)
  {
    UpdateSums(d, v, w);
  }

  // ----- Delivering one message -----

  lemma RelaxKeepsSound(job: Job, ph: Phase, dist: seq<int>, m: Packet)
    requires job.pes > 0 && Sound(job, dist) && Honest(job, ph, dist, m)
    requires Improves(dist, Dest(job.pes, m), m.w)
    ensures Sound(job, dist[Dest(job.pes, m) := m.w])
  {
  }

  lemma RelaxKeepsPred(job: Job, ph: Phase, dist: seq<int>, pred: seq<int>,
                       stamp: seq<nat>, clock: nat, m: Packet)
    requires job.pes > 0 && Sound(job, dist) && PredOk(job, dist, pred, stamp, clock)
    requires Honest(job, ph, dist, m) && Improves(dist, Dest(job.pes, m), m.w)
    ensures var u, v := Source(job.pes, m), Dest(job.pes, m);
            PredOk(job, dist[v := m.w], pred[v := u], stamp[v := clock], clock + 1)
  {
    var u, v := Source(job.pes, m), Dest(job.pes, m);
    var dist', pred', stamp' := dist[v := m.w], pred[v := u], stamp[v := clock];
    assert u != v;
    assert Hangs(job, dist', pred', stamp', v);
    forall x | 0 <= x < |dist| && x != job.root && x != v && dist'[x] != -1
      ensures Hangs(job, dist', pred', stamp', x)
    {
      assert Hangs(job, dist, pred, stamp, x);
      if pred[x] == v {
        var a :| a in job.g[v] && a.head == x && a.weight <= dist[x] - dist[v];
        assert ArcWithin(job.g, v, x, dist'[x] - dist'[v]);
      }
    }
  }

  lemma RelaxKeepsNet(job: Job, ph: Phase, dist: seq<int>, net: multiset<Packet>, m: Packet)
    requires job.pes > 0 && Sound(job, dist) && NetOk(job, ph, dist, net) && m in net
    requires Improves(dist, Dest(job.pes, m), m.w)
    ensures NetOk(job, ph, dist[Dest(job.pes, m) := m.w], net - multiset{m})
  {
    var v := Dest(job.pes, m);
    var dist' := dist[v := m.w];
    forall k | k in net - multiset{m}
      ensures Honest(job, ph, dist', k)
    {
      assert k in net && Honest(job, ph, dist, k);
      var u := Source(job.pes, k);
      var a :| a in job.g[u] && a.head == Dest(job.pes, k) && a.weight <= k.w - dist[u];
      assert ArcWithin(job.g, u, Dest(job.pes, k), k.w - dist'[u]);
    }
  }

  lemma RelaxKeepsSettled(job: Job, ph: Phase, dist: seq<int>, m: Packet)
    requires ValidJob(job) && ph.lo < ph.hi && Sound(job, dist) && Settled(job, ph, dist)
    requires Honest(job, ph, dist, m) && Improves(dist, Dest(job.pes, m), m.w)
    ensures Settled(job, ph, dist[Dest(job.pes, m) := m.w])
  {
    var v := Dest(job.pes, m);
    var dist' := dist[v := m.w];
    forall u, a | 0 <= u < |dist'| && dist'[u] != -1 && a in job.g[u]
      && (dist'[u] < ph.lo || (!ph.light && dist'[u] < ph.hi && a.weight < job.delta))
      ensures Relaxed(job.g, dist', u, a)
    {
      assert u != v;
      assert Relaxed(job.g, dist, u, a);
    }
  }

  lemma RelaxKeepsNext(job: Job, ph: Phase, s: Store, m: Packet)
    requires ValidJob(job) && ph.lo < ph.hi && Sound(job, s.dist) && NextOk(job, ph, s)
    requires |s.pred| == |s.dist|
    requires Honest(job, ph, s.dist, m) && Improves(s.dist, Dest(job.pes, m), m.w)
    ensures NextOk(job, ph, Relax(job, ph, s, Source(job.pes, m), Dest(job.pes, m), m.w))
  {
    var v := Dest(job.pes, m);
    var s' := Relax(job, ph, s, Source(job.pes, m), v, m.w);
    var o := Owner(job.pes, v);
    GlobalRoundTrip(job.pes, v);
    forall p | 0 <= p < |s'.q2|
      ensures QueueOk(job, ph, s'.dist, p, s'.q2[p])
    {
      assert QueueOk(job, ph, s.dist, p, s.q2[p]);
    }
    if ph.light {
      forall x: nat
        ensures x in s'.visited <==> x < |s'.dist| && x in s'.q2[Owner(job.pes, x)]
      {
        GlobalRoundTrip(job.pes, x);
      }
    }
  }

  lemma RelaxKeepsWork(job: Job, ph: Phase, dist: seq<int>, todo: seq<seq<nat>>, rows: seq<Row>, m: Packet)
    requires ValidJob(job) && ph.lo < ph.hi && Sound(job, dist) && WorkOk(job, ph, dist, todo, rows)
    requires Honest(job, ph, dist, m) && Improves(dist, Dest(job.pes, m), m.w)
    ensures WorkOk(job, ph, dist[Dest(job.pes, m) := m.w], todo, rows)
  {
    var dist' := dist[Dest(job.pes, m) := m.w];
    forall p | 0 <= p < job.pes
      ensures TodoOk(job, ph, dist', p, todo[p]) && RowOk(job, ph, dist', p, rows[p])
    {
      assert TodoOk(job, ph, dist, p, todo[p]) && RowOk(job, ph, dist, p, rows[p]);
    }
  }

  lemma RelaxKeepsCover(job: Job, ph: Phase, s: Store, net: multiset<Packet>,
                        todo: seq<seq<nat>>, rows: seq<Row>, m: Packet)
    requires ValidJob(job) && ph.lo < ph.hi && Sound(job, s.dist) && NextOk(job, ph, s)
    requires |s.pred| == |s.dist| && |todo| == |rows| == job.pes
    requires CoverInv(job, ph, s, net, todo, rows)
    requires m in net && Honest(job, ph, s.dist, m)
    ensures CoverInv(job, ph, Relax(job, ph, s, Source(job.pes, m), Dest(job.pes, m), m.w),
                     net - multiset{m}, todo, rows)
  {
    var v := Dest(job.pes, m);
    var s' := Relax(job, ph, s, Source(job.pes, m), v, m.w);
    var net' := net - multiset{m};
    forall u, j | 0 <= u < |s'.dist| && 0 <= j < |job.g[u]|
      && InBucket(ph, s'.dist[u]) && u !in Skipped(ph, s') && Chosen(job, ph, job.g[u][j])
      ensures ArcServed(job, s'.dist, net', todo, rows, u, j)
    {
      assert s'.dist[u] == s.dist[u];
      assert u !in Skipped(ph, s);
      assert ArcServed(job, s.dist, net, todo, rows, u, j);
      var a := job.g[u][j];
      if Relaxed(job.g, s.dist, u, a) {
        assert Relaxed(job.g, s'.dist, u, a);
      } else if Covered(job, s.dist, net, u, a) {
        var k :| k in net && Dest(job.pes, k) == a.head && k.w <= s.dist[u] + a.weight;
        if k == m {
          assert Relaxed(job.g, s'.dist, u, a);
        } else {
          assert k in net';
        }
      }
    }
  }

  ghost function StampAfter(job: Job, s: Store, stamp: seq<nat>, clock: nat, m: Packet): seq<nat>
    requires job.pes > 0 && Dest(job.pes, m) < |s.dist| == |stamp|
  {
    if Improves(s.dist, Dest(job.pes, m), m.w) then stamp[Dest(job.pes, m) := clock] else stamp
  }

  /** Handling any message in flight keeps the invariant of the phase, and changes nothing or makes
      progress. */
  lemma DeliverKeepsRound(job: Job, ph: Phase, s: Store, stamp: seq<nat>, clock: nat,
                          net: multiset<Packet>, todo: seq<seq<nat>>, rows: seq<Row>, m: Packet)
    requires RoundInv(job, ph, s, stamp, clock, net, todo, rows) && m in net
    ensures job.pes > 0 && Dest(job.pes, m) < |s.dist| == |s.pred| == |stamp| && |s.q2| == job.pes
    ensures var s' := Relax(job, ph, s, Source(job.pes, m), Dest(job.pes, m), m.w);
            && RoundInv(job, ph, s', StampAfter(job, s, stamp, clock, m), clock + 1,
                        net - multiset{m}, todo, rows)
            && (s' == s || LexLess(s'.dist, s.dist))
  {
    assert Honest(job, ph, s.dist, m);
    var v := Dest(job.pes, m);
    RelaxKeepsCover(job, ph, s, net, todo, rows, m);
    if Improves(s.dist, v, m.w) {
      RelaxKeepsSound(job, ph, s.dist, m);
      RelaxKeepsPred(job, ph, s.dist, s.pred, stamp, clock, m);
      RelaxKeepsNet(job, ph, s.dist, net, m);
      RelaxKeepsSettled(job, ph, s.dist, m);
      RelaxKeepsNext(job, ph, s, m);
      RelaxKeepsWork(job, ph, s.dist, todo, rows, m);
      ImproveLexLess(s.dist, v, m.w);
    }
  }

  // ----- One step of a sending loop -----

  /** What PE `p` does next: open its next row (a heavy phase first tests the bucket), send or skip
      the current arc, or leave the row. */
  datatype SendStep = SendStep(todo: seq<nat>, row: Row, sent: seq<Packet>)

  predicate HasWork(todo: seq<nat>, row: Row) { row.Open? || todo != [] }

  function RelaxPacket(pes: nat, u: nat, v: nat, w: nat): Packet
    requires pes > 0
  {
    Packet(Owner(pes, v), Owner(pes, u), w, Local(pes, v), Local(pes, u))
  }

  function NextSend(job: Job, ph: Phase, dist: seq<int>, todo: seq<nat>, row: Row): SendStep
    requires HasWork(todo, row) && job.pes > 0 && |dist| == |job.g|
    requires row.Idle? ==> todo[0] < |dist|
    requires row.Open? ==> row.u < |dist| && row.j <= |job.g[row.u]| && dist[row.u] >= 0
  {
    match row
    case Idle =>
      SendStep(todo[1..],
               if ph.light || InBucket(ph, dist[todo[0]]) then Open(todo[0], 0) else Idle, [])
    case Open(u, j) =>
      if j == |job.g[u]| then SendStep(todo, Idle, [])
      else
        var a := job.g[u][j];
        SendStep(todo, Open(u, j + 1),
                 if Chosen(job, ph, a) then [RelaxPacket(job.pes, u, a.head, dist[u] + a.weight)] else [])
  }

  /** A message names its source and destination unambiguously. */
  lemma PacketRoundTrip(pes: nat, u: nat, v: nat, w: nat)
    requires pes > 0
    ensures Dest(pes, RelaxPacket(pes, u, v, w)) == v
    ensures Source(pes, RelaxPacket(pes, u, v, w)) == u
  {
    GlobalRoundTrip(pes, u);
    GlobalRoundTrip(pes, v);
  }

  lemma SentIsHonest(job: Job, ph: Phase, dist: seq<int>, u: nat, a: Arc)
    requires ValidJob(job) && Sound(job, dist) && ph.hi == ph.lo + job.delta
    requires u < |dist| && InBucket(ph, dist[u]) && a in job.g[u] && Chosen(job, ph, a)
    ensures Honest(job, ph, dist, RelaxPacket(job.pes, u, a.head, dist[u] + a.weight))
  {
    PacketRoundTrip(job.pes, u, a.head, dist[u] + a.weight);
    ReachesStep(job.g, job.root, u, dist[u], a);
  }

  lemma SendKeepsWork(job: Job, ph: Phase, dist: seq<int>, todo: seq<seq<nat>>, rows: seq<Row>, p: nat)
    requires |dist| == |job.g| && WorkOk(job, ph, dist, todo, rows)
    requires p < job.pes && HasWork(todo[p], rows[p])
    requires NextSend.requires(job, ph, dist, todo[p], rows[p])
    ensures var st := NextSend(job, ph, dist, todo[p], rows[p]);
            WorkOk(job, ph, dist, todo[p := st.todo], rows[p := st.row])
  {
    var st := NextSend(job, ph, dist, todo[p], rows[p]);
    assert TodoOk(job, ph, dist, p, todo[p]) && RowOk(job, ph, dist, p, rows[p]);
    assert rows[p].Idle? ==> todo[p][0] in todo[p];
    assert TodoOk(job, ph, dist, p, st.todo) && RowOk(job, ph, dist, p, st.row);
  }

  lemma SendKeepsNet(job: Job, ph: Phase, dist: seq<int>, net: multiset<Packet>, todo: seq<nat>, row: Row, p: nat)
    requires ValidJob(job) && Sound(job, dist) && ph.hi == ph.lo + job.delta
    requires NetOk(job, ph, dist, net) && HasWork(todo, row) && RowOk(job, ph, dist, p, row)
    requires NextSend.requires(job, ph, dist, todo, row)
    ensures NetOk(job, ph, dist, net + multiset(NextSend(job, ph, dist, todo, row).sent))
  {
    if row.Open? && row.j < |job.g[row.u]| && Chosen(job, ph, job.g[row.u][row.j]) {
      SentIsHonest(job, ph, dist, row.u, job.g[row.u][row.j]);
    }
  }

  /** Any PE may take its next step without disturbing the invariant of the phase. */
  lemma SendKeepsRound(job: Job, ph: Phase, s: Store, stamp: seq<nat>, clock: nat,
                       net: multiset<Packet>, todo: seq<seq<nat>>, rows: seq<Row>, p: nat)
    requires RoundInv(job, ph, s, stamp, clock, net, todo, rows)
    requires p < job.pes && HasWork(todo[p], rows[p])
    ensures NextSend.requires(job, ph, s.dist, todo[p], rows[p])
    ensures var st := NextSend(job, ph, s.dist, todo[p], rows[p]);
            RoundInv(job, ph, s, stamp, clock, net + multiset(st.sent), todo[p := st.todo], rows[p := st.row])
  {
    assert TodoOk(job, ph, s.dist, p, todo[p]) && RowOk(job, ph, s.dist, p, rows[p]);
    assert rows[p].Idle? ==> todo[p][0] in todo[p];
    SendKeepsWork(job, ph, s.dist, todo, rows, p);
    SendKeepsNet(job, ph, s.dist, net, todo[p], rows[p], p);
    SendKeepsCover(job, ph, s, net, todo, rows, p);
  }

  lemma SendKeepsCover(job: Job, ph: Phase, s: Store, net: multiset<Packet>,
                       todo: seq<seq<nat>>, rows: seq<Row>, p: nat)
    requires |s.dist| == |job.g| && job.pes > 0 && |todo| == |rows| == job.pes
    requires CoverInv(job, ph, s, net, todo, rows)
    requires p < job.pes && HasWork(todo[p], rows[p])
    requires NextSend.requires(job, ph, s.dist, todo[p], rows[p])
    ensures var st := NextSend(job, ph, s.dist, todo[p], rows[p]);
            CoverInv(job, ph, s, net + multiset(st.sent), todo[p := st.todo], rows[p := st.row])
  {
    var st := NextSend(job, ph, s.dist, todo[p], rows[p]);
    forall u, j | 0 <= u < |s.dist| && 0 <= j < |job.g[u]|
      && InBucket(ph, s.dist[u]) && u !in Skipped(ph, s) && Chosen(job, ph, job.g[u][j])
      ensures ArcServed(job, s.dist, net + multiset(st.sent), todo[p := st.todo], rows[p := st.row], u, j)
    {
      SendKeepsArc(job, ph, s, net, todo, rows, p, u, j);
    }
  }

  lemma SendKeepsArc(job: Job, ph: Phase, s: Store, net: multiset<Packet>,
                     todo: seq<seq<nat>>, rows: seq<Row>, p: nat, u: nat, j: nat)
    requires |s.dist| == |job.g| && job.pes > 0 && |todo| == |rows| == job.pes
    requires CoverInv(job, ph, s, net, todo, rows)
    requires p < job.pes && HasWork(todo[p], rows[p])
    requires NextSend.requires(job, ph, s.dist, todo[p], rows[p])
    requires u < |s.dist| && j < |job.g[u]|
    requires InBucket(ph, s.dist[u]) && u !in Skipped(ph, s) && Chosen(job, ph, job.g[u][j])
    ensures var st := NextSend(job, ph, s.dist, todo[p], rows[p]);
            ArcServed(job, s.dist, net + multiset(st.sent), todo[p := st.todo], rows[p := st.row], u, j)
  {
    var st := NextSend(job, ph, s.dist, todo[p], rows[p]);
    var net' := net + multiset(st.sent);
    assert ArcServed(job, s.dist, net, todo, rows, u, j);
    var a := job.g[u][j];
    var o := Owner(job.pes, u);
    if Covered(job, s.dist, net, u, a) {
      var k :| k in net && Dest(job.pes, k) == a.head && k.w <= s.dist[u] + a.weight;
      assert k in net';
    } else if Owed(todo[o], rows[o], u, j) && o == p && !Owed(st.todo, st.row, u, j) {
      assert rows[p] == Open(u, j);
      var m := RelaxPacket(job.pes, u, a.head, s.dist[u] + a.weight);
      PacketRoundTrip(job.pes, u, a.head, s.dist[u] + a.weight);
      assert m in net';
    }
  }

  // ----- From phase to phase -----

  ghost predicate Quiet(net: multiset<Packet>, todo: seq<seq<nat>>, rows: seq<Row>) {
    net == multiset{} && |todo| == |rows| && forall p :: 0 <= p < |rows| ==> !HasWork(todo[p], rows[p])
  }

  /** What holds between phases: everything below `lo` is final, nothing above is wrong. */
  ghost predicate Base(job: Job, lo: nat, dist: seq<int>, pred: seq<int>, stamp: seq<nat>, clock: nat) {
    && ValidJob(job) && Sound(job, dist) && PredOk(job, dist, pred, stamp, clock)
    && Settled(job, Phase(true, lo, lo + job.delta), dist)
  }

  ghost predicate AllEmpty(job: Job, q: seq<seq<nat>>) {
    |q| == job.pes && forall p :: 0 <= p < |q| ==> q[p] == []
  }

  /** The light arcs out of the bucket are relaxed, except out of the vertices of `q`. */
  ghost predicate LightBut(job: Job, ph: Phase, dist: seq<int>, q: seq<seq<nat>>)
    requires |dist| == |job.g|
  {
    && job.pes > 0 && |q| == job.pes
    && forall u, a ::
         (0 <= u < |dist| && InBucket(ph, dist[u]) && u !in q[Owner(job.pes, u)]
          && a in job.g[u] && a.weight < job.delta)
         ==> Relaxed(job.g, dist, u, a)
  }

  ghost predicate HoldsBucket(job: Job, ph: Phase, dist: seq<int>, q: seq<seq<nat>>)
    requires |dist| == |job.g|
  {
    && QueuesOk(job, ph, dist, q)
    && forall v :: 0 <= v < |dist| && InBucket(ph, dist[v]) ==> v in q[Owner(job.pes, v)]
  }

  lemma StartLight(job: Job, lo: nat, s: Store, stamp: seq<nat>, clock: nat, q: seq<seq<nat>>)
    requires Base(job, lo, s.dist, s.pred, stamp, clock)
    requires AllEmpty(job, s.q2) && s.visited == {}
    requires QueuesOk(job, Phase(true, lo, lo + job.delta), s.dist, q)
    requires LightBut(job, Phase(true, lo, lo + job.delta), s.dist, q)
    ensures RoundInv(job, Phase(true, lo, lo + job.delta), s, stamp, clock, multiset{}, q, IdleRows(job.pes))
  {
    var ph := Phase(true, lo, lo + job.delta);
    var rows := IdleRows(job.pes);
    forall v: nat
      ensures v !in s.q2[Owner(job.pes, v)]
    {
      GlobalRoundTrip(job.pes, v);
    }
    forall p | 0 <= p < job.pes
      ensures TodoOk(job, ph, s.dist, p, q[p])
    {
      assert QueueOk(job, ph, s.dist, p, q[p]);
    }
    forall u, j | 0 <= u < |s.dist| && 0 <= j < |job.g[u]|
      && InBucket(ph, s.dist[u]) && u !in Skipped(ph, s) && Chosen(job, ph, job.g[u][j])
      ensures ArcServed(job, s.dist, multiset{}, q, rows, u, j)
    {
      assert job.g[u][j] in job.g[u];
    }
  }

  lemma EndLight(job: Job, ph: Phase, s: Store, stamp: seq<nat>, clock: nat,
                 net: multiset<Packet>, todo: seq<seq<nat>>, rows: seq<Row>)
    requires RoundInv(job, ph, s, stamp, clock, net, todo, rows) && Quiet(net, todo, rows) && ph.light
    ensures Base(job, ph.lo, s.dist, s.pred, stamp, clock)
    ensures QueuesOk(job, ph, s.dist, s.q2) && LightBut(job, ph, s.dist, s.q2)
  {
    QuietRelaxed(job, ph, s, stamp, clock, net, todo, rows);
  }

  lemma BucketIsWork(job: Job, ph: Phase, dist: seq<int>, q: seq<seq<nat>>)
    requires |dist| == |job.g| && HoldsBucket(job, ph, dist, q)
    ensures |q| == job.pes && QueuesOk(job, ph, dist, q) && LightBut(job, ph, dist, q)
  {
  }

  ghost predicate AllLocals(job: Job, work: seq<seq<nat>>) {
    && job.pes > 0 && |work| == job.pes
    && forall p, v: nat :: 0 <= p < job.pes ==> (v in work[p] <==> v < |job.g| && Owner(job.pes, v) == p)
  }

  lemma HeavySettled(job: Job, lo: nat, dist: seq<int>, none: seq<seq<nat>>)
    requires |dist| == |job.g| && job.pes > 0 && AllEmpty(job, none)
    requires Settled(job, Phase(true, lo, lo + job.delta), dist)
    requires LightBut(job, Phase(true, lo, lo + job.delta), dist, none)
    ensures Settled(job, Phase(false, lo, lo + job.delta), dist)
  {
    forall u, a | 0 <= u < |dist| && dist[u] != -1 && a in job.g[u]
      && (dist[u] < lo || (dist[u] < lo + job.delta && a.weight < job.delta))
      ensures Relaxed(job.g, dist, u, a)
    {
      if dist[u] >= lo {
        GlobalRoundTrip(job.pes, u);
        assert u !in none[Owner(job.pes, u)];
      }
    }
  }

  lemma HeavyCover(job: Job, ph: Phase, s: Store, work: seq<seq<nat>>)
    requires |s.dist| == |job.g| && AllLocals(job, work)
    ensures CoverInv(job, ph, s, multiset{}, work, IdleRows(job.pes))
  {
    forall u, j | 0 <= u < |s.dist| && 0 <= j < |job.g[u]| && Chosen(job, ph, job.g[u][j])
      ensures ArcServed(job, s.dist, multiset{}, work, IdleRows(job.pes), u, j)
    {
      GlobalRoundTrip(job.pes, u);
    }
  }

  lemma StartHeavy(job: Job, lo: nat, s: Store, stamp: seq<nat>, clock: nat, work: seq<seq<nat>>, none: seq<seq<nat>>)
    requires Base(job, lo, s.dist, s.pred, stamp, clock)
    requires AllEmpty(job, s.q2) && AllEmpty(job, none)
    requires LightBut(job, Phase(true, lo, lo + job.delta), s.dist, none)
    requires AllLocals(job, work)
    ensures RoundInv(job, Phase(false, lo, lo + job.delta), s, stamp, clock, multiset{}, work, IdleRows(job.pes))
  {
    var ph := Phase(false, lo, lo + job.delta);
    assert |s.dist| == |job.g|;
    hide CoverInv, Settled, PredOk, Sound, LightBut;
    HeavySettled(job, lo, s.dist, none);
    HeavyCover(job, ph, s, work);
    forall p | 0 <= p < job.pes
      ensures TodoOk(job, ph, s.dist, p, work[p]) && QueueOk(job, ph, s.dist, p, s.q2[p])
    {
    }
  }

  /** After the heavy arcs, the bucket is final too. */
  lemma EndHeavy(job: Job, ph: Phase, s: Store, stamp: seq<nat>, clock: nat,
                 net: multiset<Packet>, todo: seq<seq<nat>>, rows: seq<Row>)
    requires RoundInv(job, ph, s, stamp, clock, net, todo, rows) && Quiet(net, todo, rows) && !ph.light
    ensures Base(job, ph.hi, s.dist, s.pred, stamp, clock)
    ensures AllEmpty(job, s.q2)
  {
    QuietRelaxed(job, ph, s, stamp, clock, net, todo, rows);
  }

  /** In a quiet phase every chosen arc out of the bucket is relaxed, except out of vertices queued
      again. */
  lemma QuietRelaxed(job: Job, ph: Phase, s: Store, stamp: seq<nat>, clock: nat,
                     net: multiset<Packet>, todo: seq<seq<nat>>, rows: seq<Row>)
    requires RoundInv(job, ph, s, stamp, clock, net, todo, rows) && Quiet(net, todo, rows)
    ensures forall u, a ::
              (0 <= u < |s.dist| && InBucket(ph, s.dist[u]) && u !in Skipped(ph, s)
               && a in job.g[u] && Chosen(job, ph, a))
              ==> Relaxed(job.g, s.dist, u, a)
  {
    forall u, a | 0 <= u < |s.dist| && InBucket(ph, s.dist[u]) && u !in Skipped(ph, s)
      && a in job.g[u] && Chosen(job, ph, a)
      ensures Relaxed(job.g, s.dist, u, a)
    {
      var j :| 0 <= j < |job.g[u]| && job.g[u][j] == a;
      assert ArcServed(job, s.dist, net, todo, rows, u, j);
    }
  }

  /** What the kernel promises: exact distances, and predecessors along shortest walks. */
  ghost predicate Solved(job: Job, dist: seq<int>, pred: seq<int>) {
    && |pred| == |dist| && job.root < |pred| && pred[job.root] == job.root
    && Shortest(job.g, job.root, dist)
    && forall v :: 0 <= v < |dist| ==>
         if dist[v] == -1 then pred[v] == -1 else TreeAt(job.g, job.root, dist, pred, v)
  }

  /** A finished predecessor forest: following `pred` from any reached vertex is a shortest walk. */
  lemma {:induction false} PredIsTree(job: Job, dist: seq<int>, pred: seq<int>, stamp: seq<nat>, clock: nat, v: nat)
    requires ValidJob(job) && Sound(job, dist) && Closed(job.g, dist)
    requires PredOk(job, dist, pred, stamp, clock)
    requires v < |dist| && dist[v] != -1
    ensures TreeAt(job.g, job.root, dist, pred, v)
    decreases dist[v], stamp[v]
  {
    if v == job.root {
      assert IsWalk(job.g, job.root, v, Start) && Length(Start) == 0 && FollowsPred(pred, v, Start);
    } else {
      assert Hangs(job, dist, pred, stamp, v);
      var u := pred[v];
      var a :| a in job.g[u] && a.head == v && a.weight <= dist[v] - dist[u];
      assert Relaxed(job.g, dist, u, a);
      PredIsTree(job, dist, pred, stamp, clock, u);
      var w :| IsWalk(job.g, job.root, u, w) && Length(w) == dist[u] && FollowsPred(pred, u, w);
      var w' := Step(w, u, a);
      assert IsWalk(job.g, job.root, v, w') && Length(w') == dist[v] && FollowsPred(pred, v, w');
    }
  }

  /** When no distance is left at or above `lo`, the problem is solved. */
  lemma BaseSolves(job: Job, lo: nat, dist: seq<int>, pred: seq<int>, stamp: seq<nat>, clock: nat)
    requires Base(job, lo, dist, pred, stamp, clock)
    requires forall v :: 0 <= v < |dist| ==> dist[v] < lo
    ensures Solved(job, dist, pred)
  {
    ClosedAndReachedIsShortest(job.g, job.root, dist);
    forall v | 0 <= v < |dist| && dist[v] != -1
      ensures TreeAt(job.g, job.root, dist, pred, v)
    {
      PredIsTree(job, dist, pred, stamp, clock, v);
    }
  }

  lemma {:induction false} SettledBoundsWalks(job: Job, lo: nat, dist: seq<int>, v: nat, w: Walk)
    requires ValidJob(job) && Sound(job, dist) && Settled(job, Phase(true, lo, lo + job.delta), dist)
    requires IsWalk(job.g, job.root, v, w) && Length(w) < lo
    ensures v < |dist| && dist[v] != -1 && dist[v] <= Length(w)
    decreases w
  {
    match w
    case Start =>
    case Step(p, u, a) =>
      SettledBoundsWalks(job, lo, dist, u, p);
      assert Relaxed(job.g, dist, u, a);
  }

  /** Once the buckets below `lo` are closed, every vertex at a distance below `lo` is final. */
  lemma ClosedBucketIsFinal(job: Job, lo: nat, dist: seq<int>, pred: seq<int>, stamp: seq<nat>, clock: nat, v: nat)
    requires Base(job, lo, dist, pred, stamp, clock) && v < |dist|
    ensures dist[v] != -1 && dist[v] < lo ==> ShortestAt(job.g, job.root, v, dist[v])
    ensures (exists w :: IsWalk(job.g, job.root, v, w) && Length(w) < lo) ==> dist[v] != -1 && dist[v] < lo
  {
    forall w | IsWalk(job.g, job.root, v, w) && Length(w) < lo
      ensures dist[v] != -1 && dist[v] <= Length(w)
    {
      SettledBoundsWalks(job, lo, dist, v, w);
    }
  }

  lemma InitialBase(job: Job, dist: seq<int>, pred: seq<int>)
    requires ValidJob(job) && |dist| == |pred| == |job.g|
    requires forall v :: 0 <= v < |dist| ==> dist[v] == if v == job.root then 0 else -1
    requires forall v :: 0 <= v < |pred| ==> pred[v] == if v == job.root then job.root else -1
    ensures Base(job, 0, dist, pred, seq(|job.g|, _ => 0), 1)
  {
    assert IsWalk(job.g, job.root, job.root, Start) && Length(Start) == 0;
  }
}
