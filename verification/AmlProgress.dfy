/** The barrier always completes: once every process has entered it, every further step of a process
    inside the barrier lowers a measure, and as long as one process is still inside, some such step
    is possible. */
module AmlProgress {
  import opened Sums
  import opened AckLink
  import opened Aml
  import opened AmlBarrier
  import opened AmlRoute

  // ----- The measure -----

  /** Weight of a communicator: `wb` for a gathered entry, 2 for a delayed acknowledgement, 1 for a
      bare acknowledgement in flight, 2 plus `wi` per entry for a data message. */
  function RankWeight(r: Rank<Item>, wb: nat): nat {
    Count(r.bufs, (b: seq<Item>) => wb * |b|) + Count(r.acks, (n: nat) => 2 * n)
  }

  function WireWeight(w: Wire<Item>, wi: nat): nat {
    if w.body == [] then 1 else 2 + wi * |w.body|
  }

  function CommWeight(c: Comm<Item>, wb: nat, wi: nat): nat {
    Count(c.ranks, (r: Rank<Item>) => RankWeight(r, wb)) + Count(c.net, (w: Wire<Item>) => WireWeight(w, wi))
  }

  lemma RankWeightUpdate(r: Rank<Item>, d: nat, b: seq<Item>, n: nat, ack: int, wb: nat)
    requires d < |r.bufs| == |r.acks|
    ensures RankWeight(Rank(r.bufs[d := b], r.acks[d := n], ack), wb)
         == RankWeight(r, wb) - wb * |r.bufs[d]| + wb * |b| - 2 * r.acks[d] + 2 * n
  {
    CountUpdate(r.bufs, d, b, (b: seq<Item>) => wb * |b|);
    CountUpdate(r.acks, d, n, (n: nat) => 2 * n);
  }

  lemma CommWeightUpdate(c: Comm<Item>, r: nat, x: Rank<Item>, net: seq<Wire<Item>>, wb: nat, wi: nat)
    requires r < |c.ranks|
    ensures CommWeight(Comm(c.ranks[r := x], net), wb, wi)
         == CommWeight(c, wb, wi) - RankWeight(c.ranks[r], wb) + RankWeight(x, wb)
            - Count(c.net, (w: Wire<Item>) => WireWeight(w, wi)) + Count(net, (w: Wire<Item>) => WireWeight(w, wi))
  {
    CountUpdate(c.ranks, r, x, (r: Rank<Item>) => RankWeight(r, wb));
  }

  lemma AppendWeight(c: Comm<Item>, r: nat, d: nat, e: Item, wb: nat, wi: nat)
    requires Shape(c) && r < |c.ranks| && d < |c.ranks|
    ensures CommWeight(Append(c, r, d, e), wb, wi) == CommWeight(c, wb, wi) + wb
  {
    var k := c.ranks[r];
    var b := k.bufs[d] + [e];
    assert wb * |b| == wb * |k.bufs[d]| + wb;
    RankWeightUpdate(k, d, b, k.acks[d], k.ack, wb);
    assert k.acks[d := k.acks[d]] == k.acks;
    CommWeightUpdate(c, r, Append(c, r, d, e).ranks[r], c.net, wb, wi);
  }

  /** Flushing never adds weight, and takes some away when there is something to flush. */
  lemma FlushWeight(c: Comm<Item>, r: nat, d: nat, wb: nat, wi: nat)
    requires Shape(c) && r < |c.ranks| && d < |c.ranks| && wb >= wi + 3
    ensures CommWeight(Flush(c, r, d), wb, wi) <= CommWeight(c, wb, wi)
    ensures c.ranks[r].bufs[d] != [] ==> CommWeight(Flush(c, r, d), wb, wi) < CommWeight(c, wb, wi)
  {
    var c' := Flush(c, r, d);
    if c' != c {
      var k := c.ranks[r];
      var m := |k.bufs[d]|;
      RankWeightUpdate(k, d, [], 0, c'.ranks[r].ack, wb);
      CommWeightUpdate(c, r, c'.ranks[r], c'.net, wb, wi);
      CountAppend(c.net, c'.net[|c.net|], (w: Wire<Item>) => WireWeight(w, wi));
      ScaleBound(wb, wi, m);
    }
  }

  lemma {:induction false} ScaleBound(wb: nat, wi: nat, m: nat)
    requires wb >= wi + 3
    ensures wb * m >= wi * m + 3 * m
  {
    if m > 0 {
      ScaleBound(wb, wi, m - 1);
      assert wb * m == wb * (m - 1) + wb && wi * m == wi * (m - 1) + wi;
    }
  }

  lemma ReceivedNet(c: Comm<Item>, k: nat, wi: nat)
    requires Shape(c) && k < |c.net|
    ensures Count(Receive(c, k, true).net, (w: Wire<Item>) => WireWeight(w, wi))
         == Count(c.net, (w: Wire<Item>) => WireWeight(w, wi)) - 1 - wi * |c.net[k].body|
  {
    var w := c.net[k];
    var rest := c.net[..k] + c.net[k + 1..];
    CountRemove(c.net, k, (w: Wire<Item>) => WireWeight(w, wi));
    if w.body != [] {
      CountAppend(rest, Wire(w.dst, w.src, 1, []), (w: Wire<Item>) => WireWeight(w, wi));
    }
  }

  /** Receiving inside a barrier takes off one, and the entries of the body. */
  lemma ReceiveWeight(c: Comm<Item>, k: nat, wb: nat, wi: nat)
    requires Shape(c) && k < |c.net|
    ensures CommWeight(Receive(c, k, true), wb, wi) == CommWeight(c, wb, wi) - 1 - wi * |c.net[k].body|
  {
    ReceivedNet(c, k, wi);
    hide WireWeight;
    var c' := Receive(c, k, true);
    var w := c.net[k];
    CommWeightUpdate(c, w.dst, c'.ranks[w.dst], c'.net, wb, wi);
  }

  function StageWeight(t: Topo, s: Stage): nat {
    match s
    case Running => 0
    case FlushInter(i) => if i <= t.groups then (t.groups - i) + t.locals + 10 else 0
    case AwaitInter => t.locals + 8
    case SyncInter => t.locals + 7
    case FlushIntra(i) => if i <= t.locals then (t.locals - i) + 5 else 0
    case AwaitIntra => 4
    case SyncIntra => 3
    case SyncWorld => 2
  }

  function CtlWeight(t: Topo, x: Ctl): nat {
    StageWeight(t, x.stage) + 4 * |x.held|
  }

  function RowWeight(t: Topo, row: seq<Ctl>): nat {
    Count(row, (x: Ctl) => CtlWeight(t, x))
  }

  /** Weight of everything that is still to happen before the barrier is over. */
  function Measure(t: Topo, s: State): nat {
    Count(s.inter, (c: Comm<Item>) => CommWeight(c, 8, 5))
    + Count(s.intra, (c: Comm<Item>) => CommWeight(c, 3, 0))
    + Count(s.ctl, (row: seq<Ctl>) => RowWeight(t, row))
  }

  function ViewWeight(t: Topo, e: Comm<Item>, i: Comm<Item>, x: Ctl): nat {
    CommWeight(e, 8, 5) + CommWeight(i, 3, 0) + CtlWeight(t, x)
  }

  lemma ApplyMeasure(t: Topo, s: State, p: Pid, d: Effect)
    requires p.l < |s.inter| && p.g < |s.intra| && p.g < |s.ctl| && p.l < |s.ctl[p.g]|
    ensures Measure(t, Apply(s, p, d))
         == Measure(t, s) - ViewWeight(t, s.inter[p.l], s.intra[p.g], C(s, p)) + ViewWeight(t, d.e, d.i, d.x)
  {
    hide CommWeight;
    var row := s.ctl[p.g];
    CountUpdate(s.inter, p.l, d.e, (c: Comm<Item>) => CommWeight(c, 8, 5));
    CountUpdate(s.intra, p.g, d.i, (c: Comm<Item>) => CommWeight(c, 3, 0));
    CountUpdate(row, p.l, d.x, (x: Ctl) => CtlWeight(t, x));
    CountUpdate(s.ctl, p.g, row[p.l := d.x], (row: seq<Ctl>) => RowWeight(t, row));
  }

  /** Every step inside the barrier lowers the weight. */
  lemma EffectWeight(t: Topo, p: Pid, e: Comm<Item>, i: Comm<Item>, x: Ctl, a: Action)
    requires Sized(t, p, e, i) && CanDo(t, p, e, i, x, a) && x.stage != Running
    requires Local(t, x, e.ranks[p.g], i.ranks[p.l], p)
    requires forall k :: 0 <= k < |x.held| ==> |x.held[k].item.data| + HDR_INTRA <= AGGR
    ensures var d := EffectOf(t, p, e, i, x, a);
            ViewWeight(t, d.e, d.i, d.x) < ViewWeight(t, e, i, x)
  {
    hide CommWeight;
    match a
    case FlushToLocal(b) =>
      assert i.ranks[p.l].bufs[b] != [];
      FlushWeight(i, p.l, b, 3, 0);
    case Poll(k) => ReceiveWeight(e, k, 8, 5);
    case PollIntra(k) => ReceiveWeight(i, k, 3, 0);
    case Process =>
      var h := x.held[0];
      if Reach(t, h.item.routing) != p.l {
        AppendWeight(i, p.l, Reach(t, h.item.routing), h.item.(routing := h.fromGroup), 3, 0);
      }
    case Advance =>
      if x.stage.FlushInter? && x.stage.i < t.groups {
        FlushWeight(e, p.g, Ring(p.g, x.stage.i, t.groups), 8, 5);
      } else if x.stage.FlushIntra? && x.stage.i < t.locals {
        FlushWeight(i, p.l, Ring(p.l, x.stage.i, t.locals), 3, 0);
      }
  }

  /** A step of a process that is inside the barrier. */
  ghost predicate BarrierStep(t: Topo, s: State, s': State) {
    StateShape(t, s) && exists p, a ::
      In(t, p) && C(s, p).stage != Running && Enabled(t, s, p, a) && s' == Next(t, s, p, a)
  }

  lemma BarrierStepLowers(t: Topo, s: State, s': State)
    requires Inv(t, s) && BarrierStep(t, s, s')
    ensures Inv(t, s') && Measure(t, s') < Measure(t, s)
  {
    var p, a :| In(t, p) && C(s, p).stage != Running && Enabled(t, s, p, a) && s' == Next(t, s, p, a);
    StepInv(t, s, p, a);
    ViewOf(t, s, p);
    assert HeldOk(t, p.g, C(s, p));
    hide Inv, LocalInv, LinkInv, SyncInv, AckInv, CommShape, StateShape, CanDo, Measure, ViewWeight, MayPass;
    EffectWeight(t, p, s.inter[p.l], s.intra[p.g], C(s, p), a);
    hide EffectOf;
    ApplyMeasure(t, s, p, EffectOf(t, p, s.inter[p.l], s.intra[p.g], C(s, p), a));
  }

  // ----- Some step is always possible -----

  /** Everybody is inside barrier number `round`, or has already left it and does nothing. */
  ghost predicate Closing(t: Topo, s: State, round: nat)
    requires StateShape(t, s)
  {
    forall g, l :: 0 <= g < t.groups && 0 <= l < t.locals ==>
      if s.ctl[g][l].stage == Running then s.ctl[g][l].round == round + 1 && s.ctl[g][l].held == []
      else s.ctl[g][l].round == round
  }

  /** Every process still inside has handled what it received and is at level `n` or above. */
  ghost predicate Above(t: Topo, s: State, n: nat)
    requires StateShape(t, s)
  {
    forall g, l :: 0 <= g < t.groups && 0 <= l < t.locals ==>
      s.ctl[g][l].held == [] && (s.ctl[g][l].stage == Running || Level(s.ctl[g][l].stage) >= n)
  }

  ghost predicate CanStep(t: Topo, s: State, p: Pid, a: Action)
    requires StateShape(t, s)
  {
    In(t, p) && C(s, p).stage != Running && Enabled(t, s, p, a)
  }

  /** The builds and group sizes in which no local number outside the arrays is computed. */
  predicate StaysInside(t: Topo) {
    t.masked || t.locals <= 128
  }

  /** A process whose next entry is for a local number outside the arrays. */
  predicate Stuck(t: Topo, x: Ctl) {
    x.held != [] && Reach(t, x.held[0].item.routing) >= t.locals
  }

  lemma NeverStuck(t: Topo, s: State, p: Pid)
    requires StateShape(t, s) && In(t, p) && StaysInside(t)
    ensures !Stuck(t, C(s, p))
  {
    var x := C(s, p);
    if x.held != [] && !t.masked {
      assert HeldOk(t, p.g, x);
      Remainder(x.held[0].item.routing, t.locals);
    }
  }

  lemma HeldCanStep(t: Topo, s: State, p: Pid) returns (a: Action)
    requires StaysInside(t) && Inv(t, s) && In(t, p) && C(s, p).stage != Running && C(s, p).held != []
    ensures CanStep(t, s, p, a)
  {
    hide LinkInv, AckInv, SyncInv, Reach;
    var x := C(s, p);
    NeverStuck(t, s, p);
    ViewOf(t, s, p);
    if CanDo(t, p, s.inter[p.l], s.intra[p.g], x, Process) {
      a := Process;
    } else {
      a := FlushToLocal(Reach(t, x.held[0].item.routing));
    }
  }

  /** As long as somebody is before the last synchronisation, nobody has left. */
  lemma NobodyLeft(t: Topo, s: State, p: Pid, round: nat, q: Pid)
    requires Inv(t, s) && Closing(t, s, round) && In(t, p) && In(t, q)
    requires C(s, p).stage != Running && C(s, p).stage != SyncWorld
    ensures C(s, q).stage != Running && C(s, q).round == round
  {
    hide LinkInv, LocalInv, CommShape;
    assert Paired(s.ctl[p.g][p.l], s.ctl[q.g][q.l], p.l == q.l, p.g == q.g);
  }

  lemma AwaitInterCanStep(t: Topo, s: State, p: Pid, round: nat) returns (q: Pid, a: Action)
    requires Inv(t, s) && Closing(t, s, round) && Above(t, s, 2)
    requires In(t, p) && C(s, p).stage == AwaitInter
    ensures CanStep(t, s, q, a)
  {
    var e := s.inter[p.l];
    ViewOf(t, s, p);
    if e.ranks[p.g].ack == 0 {
      q, a := p, Advance;
    } else {
      forall h | 0 <= h < t.groups
        ensures e.ranks[h].acks[p.g] == 0
      {
        NobodyLeft(t, s, p, round, Pid(h, p.l));
        ViewOf(t, s, Pid(h, p.l));
        assert Flushed(e.ranks[h].bufs, e.ranks[h].acks, p.g);
      }
      var k := WaitingHasWire(e, p.g);
      q, a := Pid(e.net[k].dst, p.l), Poll(k);
      NobodyLeft(t, s, p, round, q);
      assert Paired(s.ctl[q.g][q.l], s.ctl[p.g][p.l], true, q.g == p.g);
    }
  }

  lemma AwaitIntraCanStep(t: Topo, s: State, p: Pid, round: nat) returns (q: Pid, a: Action)
    requires Inv(t, s) && Closing(t, s, round) && Above(t, s, 5)
    requires In(t, p) && C(s, p).stage == AwaitIntra
    ensures CanStep(t, s, q, a)
  {
    var i := s.intra[p.g];
    ViewOf(t, s, p);
    if i.ranks[p.l].ack == 0 {
      q, a := p, Advance;
    } else {
      forall b | 0 <= b < t.locals
        ensures i.ranks[b].acks[p.l] == 0
      {
        NobodyLeft(t, s, p, round, Pid(p.g, b));
        ViewOf(t, s, Pid(p.g, b));
        assert Flushed(i.ranks[b].bufs, i.ranks[b].acks, p.l);
      }
      var k := WaitingHasWire(i, p.l);
      q, a := Pid(p.g, i.net[k].dst), PollIntra(k);
      NobodyLeft(t, s, p, round, q);
      assert Paired(s.ctl[q.g][q.l], s.ctl[p.g][p.l], q.l == p.l, true);
    }
  }

  /** A process at a synchronisation point that everybody has reached can pass it. */
  lemma SyncCanStep(t: Topo, s: State, p: Pid, round: nat)
    requires Inv(t, s) && Closing(t, s, round) && In(t, p)
    requires C(s, p).stage in {SyncInter, SyncIntra, SyncWorld} && Above(t, s, Level(C(s, p).stage))
    ensures CanStep(t, s, p, Advance)
  {
    hide LinkInv, LocalInv, SyncInv, CommShape;
  }

  /** As long as one process is inside the barrier, some process inside it can take a step. */
  lemma SomebodyCanStep(t: Topo, s: State, round: nat, p: Pid) returns (q: Pid, a: Action)
    requires StaysInside(t) && Inv(t, s) && Closing(t, s, round) && In(t, p) && C(s, p).stage != Running
    ensures CanStep(t, s, q, a)
  {
    if g, l :| 0 <= g < t.groups && 0 <= l < t.locals && s.ctl[g][l].held != [] {
      q := Pid(g, l);
      a := HeldCanStep(t, s, q);
    } else {
      q := Lowest(t, s, p);
      var x := C(s, q);
      match x.stage
      case AwaitInter => q, a := AwaitInterCanStep(t, s, q, round);
      case AwaitIntra => q, a := AwaitIntraCanStep(t, s, q, round);
      case FlushInter(_) => a := Advance;
      case FlushIntra(_) => a := Advance;
      case _ => a := Advance; SyncCanStep(t, s, q, round);
    }
  }

  /** A process inside the barrier at the lowest level. */
  lemma {:induction false} Lowest(t: Topo, s: State, p: Pid) returns (q: Pid)
    requires StateShape(t, s) && In(t, p) && C(s, p).stage != Running
    requires forall g, l :: 0 <= g < t.groups && 0 <= l < t.locals ==> s.ctl[g][l].held == []
    ensures In(t, q) && C(s, q).stage != Running && Above(t, s, Level(C(s, q).stage))
    decreases Level(C(s, p).stage)
  {
    hide CommShape;
    if g, l :| 0 <= g < t.groups && 0 <= l < t.locals && s.ctl[g][l].stage != Running
               && Level(s.ctl[g][l].stage) < Level(C(s, p).stage) {
      q := Lowest(t, s, Pid(g, l));
    } else {
      q := p;
    }
  }

  // ----- The barrier completes -----

  ghost predicate IsBarrierRun(t: Topo, run: seq<State>) {
    run != [] && forall i :: 0 <= i < |run| - 1 ==> BarrierStep(t, run[i], run[i + 1])
  }

  lemma ClosingKept(t: Topo, s: State, s': State, round: nat)
    requires Inv(t, s) && Closing(t, s, round) && BarrierStep(t, s, s') && StateShape(t, s')
    ensures Closing(t, s', round)
  {
    hide LinkInv, LocalInv, SyncInv, CanDo, MayPass, EffectOf, HeldOk;
    var p, a :| In(t, p) && C(s, p).stage != Running && Enabled(t, s, p, a) && s' == Next(t, s, p, a);
    LeavesClean(t, p, s.inter[p.l], s.intra[p.g], C(s, p), a);
  }

  /** A process leaves the barrier only into the next round, and with nothing left to handle. */
  lemma LeavesClean(t: Topo, p: Pid, e: Comm<Item>, i: Comm<Item>, x: Ctl, a: Action)
    requires Sized(t, p, e, i) && CanDo(t, p, e, i, x, a) && x.stage != Running
    ensures var y := EffectOf(t, p, e, i, x, a).x;
            if y.stage == Running then y.round == x.round + 1 && y.held == [] else y.round == x.round
  {
  }

  lemma {:induction false} BarrierRunKeeps(t: Topo, run: seq<State>, round: nat, k: nat)
    requires IsBarrierRun(t, run) && k < |run|
    requires Inv(t, run[0]) && Closing(t, run[0], round)
    ensures Inv(t, run[k]) && Closing(t, run[k], round) && k + Measure(t, run[k]) <= Measure(t, run[0])
  {
    hide Inv, Measure;
    if k > 0 {
      BarrierRunKeeps(t, run, round, k - 1);
      assert BarrierStep(t, run[k - 1], run[k - 1 + 1]);
      BarrierStepLowers(t, run[k - 1], run[k]);
      assert StateShape(t, run[k]) by { InvShape(t, run[k]); }
      ClosingKept(t, run[k - 1], run[k], round);
    }
  }

  lemma InvShape(t: Topo, s: State)
    requires Inv(t, s)
    ensures StateShape(t, s)
  {
  }

  /** From any state in which every process has entered the barrier, no run of the barrier is longer
      than the measure, and a run that cannot be continued has let every process out, in all builds and
      group sizes that stay inside the arrays. */
  lemma BarrierCompletes(t: Topo, run: seq<State>, round: nat)
    requires IsBarrierRun(t, run) && Inv(t, run[0]) && Closing(t, run[0], round)
    ensures |run| <= Measure(t, run[0]) + 1
    ensures var last := run[|run| - 1];
            StateShape(t, last) &&
            (StaysInside(t) && (forall p, a :: !CanStep(t, last, p, a)) ==>
               forall g, l :: 0 <= g < t.groups && 0 <= l < t.locals ==>
                 last.ctl[g][l].stage == Running && last.ctl[g][l].round == round + 1)
  {
    var last := run[|run| - 1];
    BarrierRunKeeps(t, run, round, |run| - 1);
    hide Inv, Measure, CanStep, Closing;
    InvShape(t, last);
    if StaysInside(t) && forall p, a :: !CanStep(t, last, p, a) {
      AllOut(t, last, round);
    }
  }

  lemma AllOut(t: Topo, s: State, round: nat)
    requires StaysInside(t) && Inv(t, s) && StateShape(t, s) && Closing(t, s, round)
    requires forall p, a :: !CanStep(t, s, p, a)
    ensures forall g, l :: 0 <= g < t.groups && 0 <= l < t.locals ==>
              s.ctl[g][l].stage == Running && s.ctl[g][l].round == round + 1
  {
    hide Inv, CanStep, StaysInside;
    forall g, l | 0 <= g < t.groups && 0 <= l < t.locals ensures s.ctl[g][l].stage == Running {
      if s.ctl[g][l].stage != Running {
        var q, a := SomebodyCanStep(t, s, round, Pid(g, l));
      }
    }
  }

  // ----- Leaving the arrays -----

  /** A stuck process stays stuck whatever the others do, and never leaves its barrier. */
  lemma StuckStays(t: Topo, s: State, p: Pid, q: Pid, a: Action)
    requires StateShape(t, s) && In(t, p) && In(t, q) && Stuck(t, C(s, p)) && Enabled(t, s, q, a)
    ensures In(t, p) && p.g < |Next(t, s, q, a).ctl| && p.l < |Next(t, s, q, a).ctl[p.g]|
    ensures C(Next(t, s, q, a), p) == C(s, p)
  {
    hide CommShape, HeldOk, MayPass, Reach;
    SizedOf(t, s, q);
    if q == p {
      StuckEffect(t, p, s.inter[p.l], s.intra[p.g], C(s, p), a);
    }
  }

  lemma StuckEffect(t: Topo, p: Pid, e: Comm<Item>, i: Comm<Item>, x: Ctl, a: Action)
    requires Sized(t, p, e, i) && CanDo(t, p, e, i, x, a) && Stuck(t, x)
    ensures EffectOf(t, p, e, i, x, a).x == x
  {
    hide Reach;
  }

  lemma {:induction false} StuckForever(t: Topo, run: seq<State>, k: nat, m: nat, p: Pid)
    requires IsRun(t, run) && k <= m < |run| && In(t, p) && StateShape(t, run[k]) && Stuck(t, C(run[k], p))
    ensures StateShape(t, run[m]) && C(run[m], p) == C(run[k], p)
  {
    hide Stuck, CommShape, HeldOk, CanDo, MayPass, EffectOf, Init;
    RunShape(t, run, m);
    if k < m {
      RunShape(t, run, m - 1);
      StuckForever(t, run, k, m - 1, p);
      var s := run[m - 1];
      assert IsStep(t, s, run[m - 1 + 1]);
      var q, a :| In(t, q) && Enabled(t, s, q, a) && run[m] == Next(t, s, q, a);
      StuckStays(t, s, p, q, a);
    }
  }

  lemma RunShape(t: Topo, run: seq<State>, k: nat)
    requires IsRun(t, run) && k < |run|
    ensures StateShape(t, run[k])
  {
    RunInv(t, run, k);
    InvShape(t, run[k]);
  }

  function FarItem(): Item {
    Item(-128, 0, [], 0)
  }

  /** The message for local number 128 of another group is sent... */
  lemma SendFar(t: Topo) returns (s: State)
    requires t.groups >= 2 && !StaysInside(t)
    ensures Inv(t, s) && IsStep(t, Init(t), s)
    ensures s.inter[0].ranks[0].bufs[1] == [FarItem()] && s.inter[0].net == []
    ensures forall g, l :: 0 <= g < t.groups && 0 <= l < t.locals ==> s.ctl[g][l] == Ctl(Running, 0, [])
  {
    hide CommShape, LinkInv, LocalInv, SyncInv, Conserved, Current, HeldOk;
    InitInv(t);
    var p, a := Pid(0, 0), Send(Pid(1, 128), 0, []);
    var s0 := Init(t);
    CanSendFar(t, s0);
    StepInv(t, s0, p, a);
    s := Next(t, s0, p, a);
    assert s.inter[0] == Append(s0.inter[0], 0, 1, FarItem());
  }

  lemma CanSendFar(t: Topo, s: State)
    requires t.groups >= 2 && !StaysInside(t) && s == Init(t) && StateShape(t, s)
    ensures Enabled(t, s, Pid(0, 0), Send(Pid(1, 128), 0, []))
  {
    hide CommShape, HeldOk;
    SizedOf(t, s, Pid(0, 0));
    assert Bytes([], HDR) == 0;
  }

  /** ...flushed... */
  lemma FlushFar(t: Topo, s: State) returns (s': State)
    requires Inv(t, s) && t.groups >= 2 && t.locals > 0
    requires s.inter[0].ranks[0].bufs[1] == [FarItem()] && s.inter[0].net == []
    requires forall g, l :: 0 <= g < t.groups && 0 <= l < t.locals ==> s.ctl[g][l] == Ctl(Running, 0, [])
    ensures Inv(t, s') && IsStep(t, s, s')
    ensures |s'.inter[0].net| == 1 && s'.inter[0].net[0].dst == 1 && s'.inter[0].net[0].body == [FarItem()]
    ensures forall g, l :: 0 <= g < t.groups && 0 <= l < t.locals ==> s'.ctl[g][l] == Ctl(Running, 0, [])
  {
    hide LinkInv, LocalInv, SyncInv, Conserved, Current;
    var p := Pid(0, 0);
    assert Enabled(t, s, p, FlushTo(1));
    StepInv(t, s, p, FlushTo(1));
    s' := Next(t, s, p, FlushTo(1));
  }

  /** ...and received: its byte says -128. */
  lemma PollFar(t: Topo, s: State) returns (s': State)
    requires Inv(t, s) && t.groups >= 2 && t.locals > 0 && !StaysInside(t)
    requires |s.inter[0].net| == 1 && s.inter[0].net[0].dst == 1 && s.inter[0].net[0].body == [FarItem()]
    requires forall g, l :: 0 <= g < t.groups && 0 <= l < t.locals ==> s.ctl[g][l] == Ctl(Running, 0, [])
    ensures Inv(t, s') && IsStep(t, s, s') && Stuck(t, C(s', Pid(1, 0)))
  {
    hide LinkInv, LocalInv, SyncInv, Conserved, Current;
    var q := Pid(1, 0);
    assert Enabled(t, s, q, Poll(0));
    StepInv(t, s, q, Poll(0));
    s' := Next(t, s, q, Poll(0));
    Remainder(128, t.locals);
    assert C(s', q).held[0].item == FarItem();
  }

  lemma StuckRun(t: Topo) returns (run: seq<State>)
    requires t.groups >= 2 && !StaysInside(t)
    ensures IsRun(t, run) && |run| == 4 && StateShape(t, run[3]) && In(t, Pid(1, 0)) && Stuck(t, C(run[3], Pid(1, 0)))
  {
    hide Inv, Stuck, IsStep, Init;
    var s1 := SendFar(t);
    var s2 := FlushFar(t, s1);
    var s3 := PollFar(t, s2);
    InvShape(t, s3);
    run := [Init(t), s1, s2, s3];
  }

  ghost predicate StuckAt(t: Topo, run: seq<State>, k: nat, p: Pid) {
    IsRun(t, run) && k < |run| && StateShape(t, run[k]) && In(t, p) && Stuck(t, C(run[k], p))
  }

  /** Some run leaves the arrays exactly in the build that does not mask with more than 128 processes per group. */
  lemma StuckIff(t: Topo)
    requires t.groups >= 2
    ensures !StaysInside(t) <==>
            exists run: seq<State>, k: nat, p: Pid :: StuckAt(t, run, k, p)
  {
    hide StateShape, Stuck;
    if !StaysInside(t) {
      var run := StuckRun(t);
      assert StuckAt(t, run, 3, Pid(1, 0));
    } else {
      forall run: seq<State>, k: nat, p: Pid ensures !StuckAt(t, run, k, p) {
        if StuckAt(t, run, k, p) {
          NeverStuck(t, run[k], p);
        }
      }
    }
  }
}
