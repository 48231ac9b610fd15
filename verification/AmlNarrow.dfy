/** The whole active-message layer with delayed acknowledgements in 16 bits: as long as no process has 65536 data
    messages unacknowledged, it is the machine with unbounded counters, and its barrier ends. */
module AmlNarrow {
  import opened AckLink
  import opened AckWidth
  import A = Aml
  import B = AmlBarrier
  import P = AmlProgress

  // ----- Steps -----

  ghost function EffectOf16(t: A.Topo, p: A.Pid, e: Comm<A.Item>, i: Comm<A.Item>, x: A.Ctl, a: A.Action): A.Effect
    requires A.Sized(t, p, e, i) && A.CanDo(t, p, e, i, x, a)
  {
    match a
    case Poll(k) => A.EffectOf(t, p, e, i, x, a).(e := Receive16(e, k, A.InBarrier(x.stage)))
    case PollIntra(k) => A.EffectOf(t, p, e, i, x, a).(i := Receive16(i, k, A.InBarrier(x.stage)))
    case _ => A.EffectOf(t, p, e, i, x, a)
  }

  ghost function Next16(t: A.Topo, s: A.State, p: A.Pid, a: A.Action): A.State
    requires A.StateShape(t, s) && A.In(t, p) && A.Enabled(t, s, p, a)
  {
    A.Apply(s, p, EffectOf16(t, p, s.inter[p.l], s.intra[p.g], A.C(s, p), a))
  }

  ghost predicate IsStep16(t: A.Topo, s: A.State, s': A.State) {
    A.StateShape(t, s) && exists p, a :: A.In(t, p) && A.Enabled(t, s, p, a) && s' == Next16(t, s, p, a)
  }

  ghost predicate IsRun16(t: A.Topo, run: seq<A.State>) {
    && run != [] && run[0] == A.Init(t)
    && forall i :: 0 <= i < |run| - 1 ==> IsStep16(t, run[i], run[i + 1])
  }

  /** A step of a process inside the barrier. */
  ghost predicate BarrierStep16(t: A.Topo, s: A.State, s': A.State) {
    A.StateShape(t, s) && exists p, a ::
      A.In(t, p) && A.C(s, p).stage != A.Running && A.Enabled(t, s, p, a) && s' == Next16(t, s, p, a)
  }

  // ----- Counters -----

  datatype Place = Inter(l: nat) | Intra(g: nat)

  predicate At(t: A.Topo, c: Place, r: nat) {
    match c
    case Inter(l) => l < t.locals && r < t.groups
    case Intra(g) => g < t.groups && r < t.locals
  }

  /** The number of data messages of a rank that are not yet acknowledged. */
  function Counter(s: A.State, c: Place, r: nat): int {
    match c
    case Inter(l) => if l < |s.inter| && r < |s.inter[l].ranks| then s.inter[l].ranks[r].ack else 0
    case Intra(g) => if g < |s.intra| && r < |s.intra[g].ranks| then s.intra[g].ranks[r].ack else 0
  }

  ghost predicate Slim(t: A.Topo, s: A.State) {
    forall c, r :: At(t, c, r) ==> Counter(s, c, r) < WIDTH
  }

  /** With all counters below 65536 a step with 16 bits is the step of the unbounded machine. */
  lemma SameStep(t: A.Topo, s: A.State, p: A.Pid, a: A.Action)
    requires B.Inv(t, s) && Slim(t, s) && A.In(t, p) && A.Enabled(t, s, p, a)
    ensures Next16(t, s, p, a) == A.Next(t, s, p, a)
  {
    hide B.LocalInv, B.SyncInv, B.Conserved, B.Current, A.CommShape, A.MayPass, A.HeldOk;
    B.SizedOf(t, s, p);
    match a
    case Poll(k) =>
      assert Counter(s, Inter(p.l), s.inter[p.l].net[k].src) < WIDTH;
      SameBelow(s.inter[p.l], k, A.InBarrier(A.C(s, p).stage));
    case PollIntra(k) =>
      assert Counter(s, Intra(p.g), s.intra[p.g].net[k].src) < WIDTH;
      SameBelow(s.intra[p.g], k, A.InBarrier(A.C(s, p).stage));
    case _ =>
  }

  ghost predicate AllSlim(t: A.Topo, run: seq<A.State>) {
    forall k :: 0 <= k < |run| ==> Slim(t, run[k])
  }

  /** A run with 16 bits in which no counter reaches 65536 is a run of the unbounded machine. */
  lemma {:induction false} SlimRunIsRun(t: A.Topo, run: seq<A.State>, k: nat)
    requires IsRun16(t, run) && k < |run| && AllSlim(t, run)
    ensures A.IsRun(t, run[..k + 1]) && B.Inv(t, run[k])
  {
    hide B.Inv, A.StateShape, Slim, Next16, A.Next, A.Enabled, A.Init;
    if k > 0 {
      SlimRunIsRun(t, run, k - 1);
      assert IsStep16(t, run[k - 1], run[k - 1 + 1]);
      var p, a :| A.In(t, p) && A.Enabled(t, run[k - 1], p, a) && run[k] == Next16(t, run[k - 1], p, a);
      SameStep(t, run[k - 1], p, a);
      assert A.IsStep(t, run[k - 1], run[k]);
      var short := run[..k + 1];
      forall i | 0 <= i < |short| - 1 ensures A.IsStep(t, short[i], short[i + 1]) {
        if i < k - 1 {
          assert A.IsStep(t, run[..k][i], run[..k][i + 1]);
        }
      }
    }
    B.RunInv(t, run[..k + 1], k);
  }

  // ----- The barrier -----

  /** A barrier of the machine with 16 bits that all processes have entered: as long as no counter reaches 65536 it
      ends within the measure, and, where no local number leaves the arrays, a run of it that cannot go on has let
      every process out into the next round. */
  lemma BarrierCompletes16(t: A.Topo, run: seq<A.State>, start: nat, round: nat)
    requires IsRun16(t, run) && AllSlim(t, run) && start < |run|
    requires A.StateShape(t, run[start]) && P.Closing(t, run[start], round)
    requires forall i :: start <= i < |run| - 1 ==> BarrierStep16(t, run[i], run[i + 1])
    ensures |run| - start <= P.Measure(t, run[start]) + 1
    ensures var last := run[|run| - 1];
            A.StateShape(t, last) &&
            (P.StaysInside(t) && (forall p, a :: !P.CanStep(t, last, p, a)) ==>
               forall g, l :: 0 <= g < t.groups && 0 <= l < t.locals ==>
                 last.ctl[g][l].stage == A.Running && last.ctl[g][l].round == round + 1)
  {
    hide B.Inv, A.StateShape, Slim, Next16, A.Next, A.Enabled, P.Measure, P.Closing, P.CanStep, P.StaysInside;
    SlimRunIsRun(t, run, start);
    var tail := run[start..];
    forall i | 0 <= i < |tail| - 1 ensures P.BarrierStep(t, tail[i], tail[i + 1]) {
      SlimRunIsRun(t, run, start + i);
      SlimBarrierStep(t, run[start + i], run[start + i + 1]);
    }
    P.BarrierCompletes(t, tail, round);
  }

  lemma SlimBarrierStep(t: A.Topo, s: A.State, s': A.State)
    requires B.Inv(t, s) && Slim(t, s) && BarrierStep16(t, s, s')
    ensures P.BarrierStep(t, s, s')
  {
    hide B.Inv, A.CommShape, A.HeldOk, Slim, Next16, A.Next, A.Enabled;
    var p, a :| A.In(t, p) && A.C(s, p).stage != A.Running && A.Enabled(t, s, p, a) && s' == Next16(t, s, p, a);
    SameStep(t, s, p, a);
  }

  // ----- A bound on what is sent -----

  ghost predicate Raised(s: A.State, s': A.State, c: Place, r: nat) {
    Counter(s', c, r) > Counter(s, c, r)
  }

  /** How many times rank `r` sends data from state `i` up to state `k`: its counter is raised just then. */
  ghost function Raises(run: seq<A.State>, i: nat, k: nat, c: Place, r: nat): nat
    requires i <= k < |run|
    decreases k
  {
    if i == k then 0 else Raises(run, i, k - 1, c, r) + if Raised(run[k - 1], run[k], c, r) then 1 else 0
  }

  /** The counters of a communicator are raised by one at most. */
  ghost predicate Gently(c: Comm<A.Item>, c': Comm<A.Item>) {
    |c'.ranks| == |c.ranks| && forall r :: 0 <= r < |c.ranks| ==> c'.ranks[r].ack <= c.ranks[r].ack + 1
  }

  lemma CommRaises(c: Comm<A.Item>)
    requires Shape(c)
    ensures Gently(c, c)
    ensures forall r, d, e :: 0 <= r < |c.ranks| && 0 <= d < |c.ranks| ==> Gently(c, Append(c, r, d, e))
    ensures forall r, d :: 0 <= r < |c.ranks| && 0 <= d < |c.ranks| ==> Gently(c, Flush(c, r, d))
    ensures forall k, prompt :: 0 <= k < |c.net| ==> Gently(c, Receive16(c, k, prompt))
  {
  }

  lemma AdvanceRaises(t: A.Topo, p: A.Pid, e: Comm<A.Item>, i: Comm<A.Item>, x: A.Ctl)
    requires A.Sized(t, p, e, i)
    ensures var d := A.DoAdvance(t, p, e, i, x); Gently(e, d.e) && Gently(i, d.i)
  {
    hide Gently, Flush;
    CommRaises(e);
    CommRaises(i);
  }

  lemma SendRaises(t: A.Topo, p: A.Pid, e: Comm<A.Item>, i: Comm<A.Item>, x: A.Ctl, dest: A.Pid, hndl: nat,
      data: seq<nat>)
    requires A.Sized(t, p, e, i) && A.In(t, dest)
    ensures var d := A.DoSend(t, p, e, i, x, dest, hndl, data); Gently(e, d.e) && Gently(i, d.i)
  {
    hide Gently, Append;
    CommRaises(e);
    CommRaises(i);
  }

  lemma ProcessRaises(t: A.Topo, p: A.Pid, e: Comm<A.Item>, i: Comm<A.Item>, x: A.Ctl)
    requires A.Sized(t, p, e, i) && x.held != [] && A.Reach(t, x.held[0].item.routing) < t.locals
    ensures var d := A.DoProcess(t, p, e, i, x); Gently(e, d.e) && Gently(i, d.i)
  {
    hide A.Reach, Gently, Append;
    CommRaises(e);
    CommRaises(i);
  }

  lemma EffectRaises(t: A.Topo, p: A.Pid, e: Comm<A.Item>, i: Comm<A.Item>, x: A.Ctl, a: A.Action)
    requires A.Sized(t, p, e, i) && A.CanDo(t, p, e, i, x, a)
    ensures var d := EffectOf16(t, p, e, i, x, a); Gently(e, d.e) && Gently(i, d.i)
  {
    hide A.Reach, Gently, Flush, Receive, Receive16, A.DoAdvance, A.DoSend, A.DoProcess, A.RunAll, A.Take;
    match a
    case Send(dest, hndl, data) => SendRaises(t, p, e, i, x, dest, hndl, data);
    case Process => ProcessRaises(t, p, e, i, x);
    case Advance => AdvanceRaises(t, p, e, i, x);
    case _ =>
      CommRaises(e);
      CommRaises(i);
  }

  /** A step raises a counter by one at most. */
  lemma StepRaises(t: A.Topo, s: A.State, s': A.State, c: Place, r: nat)
    requires IsStep16(t, s, s') && At(t, c, r)
    ensures Counter(s', c, r) <= Counter(s, c, r) + 1
  {
    hide EffectOf16, A.CanDo, A.MayPass, A.CommShape, A.HeldOk;
    var p, a :| A.In(t, p) && A.Enabled(t, s, p, a) && s' == Next16(t, s, p, a);
    B.SizedOf(t, s, p);
    EffectRaises(t, p, s.inter[p.l], s.intra[p.g], A.C(s, p), a);
  }

  lemma {:induction false} CounterAtMost(t: A.Topo, run: seq<A.State>, i: nat, k: nat, c: Place, r: nat)
    requires IsRun16(t, run) && i <= k < |run| && At(t, c, r)
    ensures Counter(run[k], c, r) <= Counter(run[i], c, r) + Raises(run, i, k, c, r)
    decreases k
  {
    hide Counter, A.Init, IsStep16, At;
    if i < k {
      CounterAtMost(t, run, i, k - 1, c, r);
      assert IsStep16(t, run[k - 1], run[k - 1 + 1]);
      StepRaises(t, run[k - 1], run[k], c, r);
    }
  }

  /** Since some moment when the counter of `r` was zero, as it is in every barrier, `r` has sent data fewer than 65536
      times. */
  ghost predicate ModerateAt(run: seq<A.State>, k: nat, c: Place, r: nat)
    requires k < |run|
  {
    exists i :: 0 <= i <= k && Counter(run[i], c, r) == 0 && Raises(run, i, k, c, r) < WIDTH
  }

  /** Processes that send data fewer than 65536 times between their barriers keep all counters below 65536. */
  lemma ModerateIsSlim(t: A.Topo, run: seq<A.State>)
    requires IsRun16(t, run)
    requires forall k, c, r :: 0 <= k < |run| && At(t, c, r) ==> ModerateAt(run, k, c, r)
    ensures AllSlim(t, run)
  {
    hide Counter, IsRun16, Raises;
    forall k, c, r | 0 <= k < |run| && At(t, c, r) ensures Counter(run[k], c, r) < WIDTH {
      assert ModerateAt(run, k, c, r);
      var i :| 0 <= i <= k && Counter(run[i], c, r) == 0 && Raises(run, i, k, c, r) < WIDTH;
      CounterAtMost(t, run, i, k, c, r);
    }
  }
}
