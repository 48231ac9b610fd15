/** What every step of the active-message layer keeps, and from it: whenever any process has left a
    barrier, every message sent before that barrier has run its handler exactly once, at its
    destination and with its true origin. */
module AmlBarrier {
  import opened Sums
  import opened AckLink
  import opened Aml
  import opened AmlRoute

  // ----- Shape is kept -----

  lemma AppendShape(c: Comm<Item>, n: nat, routes: Routes, hdr: nat, r: nat, d: nat, e: Item)
    requires CommShape(c, n, routes, hdr) && r < n && d < n
    requires routes.lo <= e.routing < routes.hi && |e.data| + HDR_INTRA <= AGGR
    requires Bytes(c.ranks[r].bufs[d], hdr) + |e.data| + hdr <= AGGR
    ensures CommShape(Append(c, r, d, e), n, routes, hdr)
  {
    CountAppend(c.ranks[r].bufs[d], e, (e: Item) => |e.data| + hdr);
  }

  lemma FlushShape(c: Comm<Item>, n: nat, routes: Routes, hdr: nat, r: nat, d: nat)
    requires CommShape(c, n, routes, hdr) && r < n && d < n && r != d
    ensures CommShape(Flush(c, r, d), n, routes, hdr)
  {
  }

  lemma ReceiveShape(c: Comm<Item>, n: nat, routes: Routes, hdr: nat, k: nat, prompt: bool)
    requires CommShape(c, n, routes, hdr) && k < |c.net|
    ensures CommShape(Receive(c, k, prompt), n, routes, hdr)
  {
    var c' := Receive(c, k, prompt);
    forall r, d | 0 <= r < n && 0 <= d < n
      ensures BufferOk(c'.ranks[r].bufs[d], routes, hdr)
    {
      assert BufferOk(c.ranks[r].bufs[d], routes, hdr);
    }
  }

  lemma RingOther(me: nat, i: nat, n: nat)
    requires me < n && 1 <= i < n
    ensures Ring(me, i, n) < n && Ring(me, i, n) != me
    ensures Ring(me, i, n) == if me + i < n then me + i else me + i - n
  {
  }

  /** The ring order visits every other rank. */
  lemma RingCovers(me: nat, d: nat, n: nat) returns (i: nat)
    requires me < n && d < n && d != me
    ensures 1 <= i < n && Ring(me, i, n) == d
  {
    i := if d > me then d - me else d + n - me;
    RingOther(me, i, n);
  }

  // ----- The invariant -----

  ghost predicate Flushed(bufs: seq<seq<Item>>, acks: seq<nat>, d: nat) {
    d < |bufs| && d < |acks| && bufs[d] == [] && acks[d] == 0
  }

  ghost predicate AllFlushed(bufs: seq<seq<Item>>, acks: seq<nat>, n: nat) {
    forall d :: 0 <= d < n ==> Flushed(bufs, acks, d)
  }

  ghost predicate RingFlushed(bufs: seq<seq<Item>>, acks: seq<nat>, me: nat, i: nat, n: nat)
    requires n > 0
  {
    1 <= i <= n && forall j :: 1 <= j < i ==> Flushed(bufs, acks, Ring(me, j, n))
  }

  /** What a process has achieved when it has reached its stage of the barrier. */
  ghost predicate Local(t: Topo, x: Ctl, e: Rank<Item>, i: Rank<Item>, p: Pid)
    requires In(t, p)
  {
    && Flushed(e.bufs, e.acks, p.g) && Flushed(i.bufs, i.acks, p.l)
    && (x.stage.FlushInter? ==> RingFlushed(e.bufs, e.acks, p.g, x.stage.i, t.groups))
    && (Level(x.stage) >= 2 ==> AllFlushed(e.bufs, e.acks, t.groups))
    && (Level(x.stage) >= 3 ==> e.ack == 0)
    && (Level(x.stage) >= 4 ==> x.held == [])
    && (x.stage.FlushIntra? ==> RingFlushed(i.bufs, i.acks, p.l, x.stage.i, t.locals))
    && (Level(x.stage) >= 5 ==> AllFlushed(i.bufs, i.acks, t.locals))
    && (Level(x.stage) >= 6 ==> i.ack == 0)
  }

  ghost predicate LocalInv(t: Topo, s: State)
    requires StateShape(t, s)
  {
    forall g, l :: 0 <= g < t.groups && 0 <= l < t.locals ==>
      Local(t, s.ctl[g][l], s.inter[l].ranks[g], s.intra[g].ranks[l], Pid(g, l))
  }

  ghost predicate LinkInv(t: Topo, s: State)
    requires StateShape(t, s)
  {
    && (forall l :: 0 <= l < t.locals ==> AckInv(s.inter[l]))
    && (forall g :: 0 <= g < t.groups ==> AckInv(s.intra[g]))
  }

  /** Rounds differ by at most one, and a process has passed a synchronisation only if its partners
      have reached it. */
  ghost predicate Paired(x: Ctl, y: Ctl, sameLocal: bool, sameGroup: bool) {
    && y.round <= x.round + 1
    && (y.round == x.round + 1 ==> x.stage == SyncWorld)
    && (sameLocal && Level(x.stage) >= 4 ==> Arrived(y, x.round, 3))
    && (sameGroup && Level(x.stage) >= 7 ==> Arrived(y, x.round, 6))
  }

  ghost predicate SyncInv(t: Topo, s: State)
    requires StateShape(t, s)
  {
    forall g, l, h, b :: 0 <= g < t.groups && 0 <= l < t.locals && 0 <= h < t.groups && 0 <= b < t.locals ==>
      Paired(s.ctl[g][l], s.ctl[h][b], l == b, g == h)
  }

  function HeldCount(t: Topo, p: Pid, x: Ctl, f: Flight): nat {
    Count(x.held, (h: Held) => if HeldFlight(t, p, h) == f then 1 else 0)
  }

  function HeldRow(t: Topo, g: nat, row: seq<Ctl>, f: Flight): nat {
    CountAt(row, (l, x: Ctl) => HeldCount(t, Pid(g, l), x, f))
  }

  function HeldAll(t: Topo, ctl: seq<seq<Ctl>>, f: Flight): nat {
    CountAt(ctl, (g, row: seq<Ctl>) => HeldRow(t, g, row, f))
  }

  function InterAll(t: Topo, cs: seq<Comm<Item>>, f: Flight): nat {
    CountAt(cs, (l, c: Comm<Item>) => Content(c, InterFlight(t, l), f))
  }

  function IntraAll(cs: seq<Comm<Item>>, f: Flight): nat {
    CountAt(cs, (g, c: Comm<Item>) => Content(c, IntraFlight(g), f))
  }

  /** How many copies of `f` are on their way, anywhere. */
  function Transit(t: Topo, s: State, f: Flight): nat {
    InterAll(t, s.inter, f) + HeldAll(t, s.ctl, f) + IntraAll(s.intra, f)
  }

  /** Nothing is lost and nothing is duplicated. */
  ghost predicate Conserved(t: Topo, s: State) {
    forall f :: s.posted[f] == s.ran[f] + Transit(t, s, f)
  }

  /** Nothing on its way predates a round that some process has completed. */
  ghost predicate Current(t: Topo, s: State)
    requires StateShape(t, s)
  {
    forall f, g, l :: 0 <= g < t.groups && 0 <= l < t.locals && Transit(t, s, f) > 0 ==> f.round >= s.ctl[g][l].round
  }

  ghost predicate Inv(t: Topo, s: State) {
    && StateShape(t, s) && LinkInv(t, s) && LocalInv(t, s) && SyncInv(t, s)
    && Conserved(t, s) && Current(t, s)
  }

  // ----- Counting -----

  lemma {:induction false} RunAllCounts(g: nat, src: nat, dst: nat, body: seq<Item>, f: Flight)
    ensures RunAll(g, src, dst, body)[f] == Entries(src, dst, body, IntraFlight(g), f)
  {
    if body != [] {
      RunAllCounts(g, src, dst, body[..|body| - 1], f);
    }
  }

  /** The entries taken over from an internode message stand for the same messages as before. */
  lemma {:induction false} HeldCounts(t: Topo, p: Pid, src: nat, body: seq<Item>, held: seq<Held>, f: Flight)
    requires |held| == |body| && forall i :: 0 <= i < |body| ==> held[i] == Held(src, body[i])
    ensures Count(held, (h: Held) => if HeldFlight(t, p, h) == f then 1 else 0)
         == Entries(src, p.g, body, InterFlight(t, p.l), f)
  {
    if body != [] {
      var n := |body| - 1;
      HeldCounts(t, p, src, body[..n], held[..n], f);
    }
  }

  // ----- What one step does to the view of its process -----

  lemma AdvanceShape(t: Topo, p: Pid, e: Comm<Item>, i: Comm<Item>, x: Ctl)
    requires View(t, p, e, i, x) && AckInv(e) && AckInv(i)
    requires Local(t, x, e.ranks[p.g], i.ranks[p.l], p)
    ensures var d := DoAdvance(t, p, e, i, x);
            View(t, p, d.e, d.i, d.x) && AckInv(d.e) && AckInv(d.i)
  {
    hide AckInv;
    if x.stage.FlushInter? && x.stage.i < t.groups {
      RingOther(p.g, x.stage.i, t.groups);
      FlushShape(e, t.groups, InterRoutes(t), HDR, p.g, Ring(p.g, x.stage.i, t.groups));
      FlushKeepsAck(e, p.g, Ring(p.g, x.stage.i, t.groups));
    } else if x.stage.FlushIntra? && x.stage.i < t.locals {
      RingOther(p.l, x.stage.i, t.locals);
      FlushShape(i, t.locals, IntraRoutes(t), HDR_INTRA, p.l, Ring(p.l, x.stage.i, t.locals));
      FlushKeepsAck(i, p.l, Ring(p.l, x.stage.i, t.locals));
    }
  }

  lemma SendShape(t: Topo, p: Pid, e: Comm<Item>, i: Comm<Item>, x: Ctl, dest: Pid, hndl: nat, data: seq<nat>)
    requires View(t, p, e, i, x) && AckInv(e) && AckInv(i) && CanDo(t, p, e, i, x, Send(dest, hndl, data))
    ensures var d := DoSend(t, p, e, i, x, dest, hndl, data);
            View(t, p, d.e, d.i, d.x) && AckInv(d.e) && AckInv(d.i)
  {
    hide AckInv;
    if dest != p && dest.g == p.g {
      AppendShape(i, t.locals, IntraRoutes(t), HDR_INTRA, p.l, dest.l, Item(p.g, hndl, data, x.round));
      AppendKeepsAck(i, p.l, dest.l, Item(p.g, hndl, data, x.round));
    } else if dest != p {
      AppendShape(e, t.groups, InterRoutes(t), HDR, p.g, dest.g, Item(SignedByte(dest.l), hndl, data, x.round));
      AppendKeepsAck(e, p.g, dest.g, Item(SignedByte(dest.l), hndl, data, x.round));
    }
  }

  lemma ProcessShape(t: Topo, p: Pid, e: Comm<Item>, i: Comm<Item>, x: Ctl)
    requires View(t, p, e, i, x) && AckInv(e) && AckInv(i) && CanDo(t, p, e, i, x, Process)
    ensures var d := DoProcess(t, p, e, i, x);
            View(t, p, d.e, d.i, d.x) && AckInv(d.e) && AckInv(d.i)
  {
    hide AckInv, Reach;
    var h := x.held[0];
    if Reach(t, h.item.routing) != p.l {
      AppendShape(i, t.locals, IntraRoutes(t), HDR_INTRA, p.l, Reach(t, h.item.routing),
        h.item.(routing := h.fromGroup));
      AppendKeepsAck(i, p.l, Reach(t, h.item.routing), h.item.(routing := h.fromGroup));
    }
  }

  lemma EffectShape(t: Topo, p: Pid, e: Comm<Item>, i: Comm<Item>, x: Ctl, a: Action)
    requires View(t, p, e, i, x) && AckInv(e) && AckInv(i) && CanDo(t, p, e, i, x, a)
    requires Local(t, x, e.ranks[p.g], i.ranks[p.l], p)
    ensures var d := EffectOf(t, p, e, i, x, a);
            View(t, p, d.e, d.i, d.x) && AckInv(d.e) && AckInv(d.i)
  {
    hide AckInv, DoSend, DoProcess, DoAdvance, Reach;
    match a
    case Send(dest, hndl, data) => SendShape(t, p, e, i, x, dest, hndl, data);
    case FlushTo(h) =>
      FlushShape(e, t.groups, InterRoutes(t), HDR, p.g, h);
      FlushKeepsAck(e, p.g, h);
    case FlushToLocal(b) =>
      FlushShape(i, t.locals, IntraRoutes(t), HDR_INTRA, p.l, b);
      FlushKeepsAck(i, p.l, b);
    case Poll(k) =>
      ReceiveShape(e, t.groups, InterRoutes(t), HDR, k, InBarrier(x.stage));
      ReceiveKeepsAck(e, k, InBarrier(x.stage));
    case PollIntra(k) =>
      ReceiveShape(i, t.locals, IntraRoutes(t), HDR_INTRA, k, InBarrier(x.stage));
      ReceiveKeepsAck(i, k, InBarrier(x.stage));
    case Process => ProcessShape(t, p, e, i, x);
    case Enter =>
    case Advance => AdvanceShape(t, p, e, i, x);
  }

  lemma RingDone(bufs: seq<seq<Item>>, acks: seq<nat>, me: nat, n: nat)
    requires me < n && RingFlushed(bufs, acks, me, n, n) && Flushed(bufs, acks, me)
    ensures AllFlushed(bufs, acks, n)
  {
    forall d | 0 <= d < n
      ensures Flushed(bufs, acks, d)
    {
      if d != me {
        var i := RingCovers(me, d, n);
      }
    }
  }

  /** A message that still reaches a rank with counter zero carries no acknowledgement. */
  lemma ZeroTag(c: Comm<Item>, k: nat)
    requires AckInv(c) && k < |c.net| && c.ranks[c.net[k].dst].ack == 0
    ensures c.net[k].tag == 0
  {
    var p := c.net[k].dst;
    CountMember(c.net, k, w => Owes(w, p));
  }

  ghost predicate OthersKept(c: Comm<Item>, c': Comm<Item>, me: nat) {
    |c'.ranks| == |c.ranks| && forall r :: 0 <= r < |c.ranks| && r != me ==> c'.ranks[r] == c.ranks[r]
  }

  lemma EffectOthers(t: Topo, p: Pid, e: Comm<Item>, i: Comm<Item>, x: Ctl, a: Action)
    requires Sized(t, p, e, i) && CanDo(t, p, e, i, x, a)
    ensures var d := EffectOf(t, p, e, i, x, a);
            OthersKept(e, d.e, p.g) && OthersKept(i, d.i, p.l)
  {
  }

  lemma AdvanceLocal(t: Topo, p: Pid, e: Comm<Item>, i: Comm<Item>, x: Ctl)
    requires Sized(t, p, e, i) && CanDo(t, p, e, i, x, Advance)
    requires Local(t, x, e.ranks[p.g], i.ranks[p.l], p)
    ensures var d := DoAdvance(t, p, e, i, x);
            Local(t, d.x, d.e.ranks[p.g], d.i.ranks[p.l], p)
  {
    hide Ring;
    if x.stage.FlushInter? {
      if x.stage.i < t.groups {
        RingOther(p.g, x.stage.i, t.groups);
      } else {
        RingDone(e.ranks[p.g].bufs, e.ranks[p.g].acks, p.g, t.groups);
      }
    } else if x.stage.FlushIntra? {
      if x.stage.i < t.locals {
        RingOther(p.l, x.stage.i, t.locals);
      } else {
        RingDone(i.ranks[p.l].bufs, i.ranks[p.l].acks, p.l, t.locals);
      }
    }
  }

  lemma PollLocal(t: Topo, p: Pid, e: Comm<Item>, i: Comm<Item>, x: Ctl, k: nat)
    requires Sized(t, p, e, i) && AckInv(e) && CanDo(t, p, e, i, x, Poll(k))
    requires Local(t, x, e.ranks[p.g], i.ranks[p.l], p)
    ensures var d := EffectOf(t, p, e, i, x, Poll(k));
            Local(t, d.x, d.e.ranks[p.g], d.i.ranks[p.l], p)
  {
    hide AckInv;
    if Level(x.stage) >= 3 { ZeroTag(e, k); }
  }

  lemma PollIntraLocal(t: Topo, p: Pid, e: Comm<Item>, i: Comm<Item>, x: Ctl, k: nat)
    requires Sized(t, p, e, i) && AckInv(i) && CanDo(t, p, e, i, x, PollIntra(k))
    requires Local(t, x, e.ranks[p.g], i.ranks[p.l], p)
    ensures var d := EffectOf(t, p, e, i, x, PollIntra(k));
            Local(t, d.x, d.e.ranks[p.g], d.i.ranks[p.l], p)
  {
    hide AckInv;
    if Level(x.stage) >= 6 { ZeroTag(i, k); }
  }

  lemma EffectLocal(t: Topo, p: Pid, e: Comm<Item>, i: Comm<Item>, x: Ctl, a: Action)
    requires Sized(t, p, e, i) && AckInv(e) && AckInv(i) && CanDo(t, p, e, i, x, a)
    requires Local(t, x, e.ranks[p.g], i.ranks[p.l], p)
    ensures var d := EffectOf(t, p, e, i, x, a);
            && OthersKept(e, d.e, p.g) && OthersKept(i, d.i, p.l)
            && Local(t, d.x, d.e.ranks[p.g], d.i.ranks[p.l], p)
  {
    EffectOthers(t, p, e, i, x, a);
    match a
    case Poll(k) => PollLocal(t, p, e, i, x, k);
    case PollIntra(k) => PollIntraLocal(t, p, e, i, x, k);
    case Advance => AdvanceLocal(t, p, e, i, x);
    case _ => hide AckInv;
  }

  /** Copies of `f` in the view of process `p`. */
  function Here(t: Topo, p: Pid, e: Comm<Item>, i: Comm<Item>, x: Ctl, f: Flight): nat {
    Content(e, InterFlight(t, p.l), f) + HeldCount(t, p, x, f) + Content(i, IntraFlight(p.g), f)
  }

  lemma ProcessCount(t: Topo, p: Pid, e: Comm<Item>, i: Comm<Item>, x: Ctl, f: Flight)
    requires x.held != [] && p.l < |i.ranks| && Reach(t, x.held[0].item.routing) < |i.ranks[p.l].bufs|
    ensures var d := DoProcess(t, p, e, i, x);
            Here(t, p, d.e, d.i, d.x, f) + d.ran[f] == Here(t, p, e, i, x, f) && d.posted == multiset{}
  {
    hide Content, Reach;
    var h := x.held[0];
    CountRemove(x.held, 0, (h: Held) => if HeldFlight(t, p, h) == f then 1 else 0);
    assert x.held[..0] + x.held[1..] == x.held[1..];
    if Reach(t, h.item.routing) != p.l {
      AppendAdds(i, p.l, Reach(t, h.item.routing), h.item.(routing := h.fromGroup), IntraFlight(p.g), f);
    }
  }

  lemma EffectCount(t: Topo, p: Pid, e: Comm<Item>, i: Comm<Item>, x: Ctl, a: Action, f: Flight)
    requires Sized(t, p, e, i) && CanDo(t, p, e, i, x, a)
    requires Local(t, x, e.ranks[p.g], i.ranks[p.l], p)
    ensures var d := EffectOf(t, p, e, i, x, a);
            Here(t, p, d.e, d.i, d.x, f) + d.ran[f] == Here(t, p, e, i, x, f) + d.posted[f]
  {
    hide Content, Entries;
    match a
    case Send(dest, hndl, data) =>
      if dest != p && dest.g == p.g {
        AppendAdds(i, p.l, dest.l, Item(p.g, hndl, data, x.round), IntraFlight(p.g), f);
      } else if dest != p {
        AppendAdds(e, p.g, dest.g, Item(SignedByte(dest.l), hndl, data, x.round), InterFlight(t, p.l), f);
      }
    case FlushTo(h) => FlushKeepsContent(e, p.g, h, InterFlight(t, p.l), f);
    case FlushToLocal(b) => FlushKeepsContent(i, p.l, b, IntraFlight(p.g), f);
    case Poll(k) =>
      ReceiveRemoves(e, k, InBarrier(x.stage), InterFlight(t, p.l), f);
      HeldCounts(t, p, e.net[k].src, e.net[k].body, Take(e.net[k].src, e.net[k].body), f);
    case PollIntra(k) =>
      ReceiveRemoves(i, k, InBarrier(x.stage), IntraFlight(p.g), f);
      RunAllCounts(p.g, i.net[k].src, p.l, i.net[k].body, f);
    case Process =>
      ProcessCount(t, p, e, i, x, f);
    case Enter =>
    case Advance =>
      if x.stage.FlushInter? && x.stage.i < t.groups {
        FlushKeepsContent(e, p.g, Ring(p.g, x.stage.i, t.groups), InterFlight(t, p.l), f);
      } else if x.stage.FlushIntra? && x.stage.i < t.locals {
        FlushKeepsContent(i, p.l, Ring(p.l, x.stage.i, t.locals), IntraFlight(p.g), f);
      }
  }

  // ----- One step of the whole system -----

  lemma ViewOf(t: Topo, s: State, p: Pid)
    requires StateShape(t, s) && LinkInv(t, s) && LocalInv(t, s) && In(t, p)
    ensures View(t, p, s.inter[p.l], s.intra[p.g], C(s, p))
    ensures AckInv(s.inter[p.l]) && AckInv(s.intra[p.g])
    ensures Local(t, C(s, p), s.inter[p.l].ranks[p.g], s.intra[p.g].ranks[p.l], p)
  {
  }

  lemma ApplyShape(t: Topo, s: State, p: Pid, d: Effect)
    requires StateShape(t, s) && LinkInv(t, s) && In(t, p)
    requires View(t, p, d.e, d.i, d.x) && AckInv(d.e) && AckInv(d.i)
    ensures StateShape(t, Apply(s, p, d)) && LinkInv(t, Apply(s, p, d))
  {
    hide CommShape, AckInv;
  }

  lemma ApplyLocal(t: Topo, s: State, p: Pid, d: Effect)
    requires StateShape(t, s) && LocalInv(t, s) && In(t, p)
    requires View(t, p, d.e, d.i, d.x) && StateShape(t, Apply(s, p, d))
    requires OthersKept(s.inter[p.l], d.e, p.g) && OthersKept(s.intra[p.g], d.i, p.l)
    requires Local(t, d.x, d.e.ranks[p.g], d.i.ranks[p.l], p)
    ensures LocalInv(t, Apply(s, p, d))
  {
    var s' := Apply(s, p, d);
    forall g, l | 0 <= g < t.groups && 0 <= l < t.locals
      ensures Local(t, s'.ctl[g][l], s'.inter[l].ranks[g], s'.intra[g].ranks[l], Pid(g, l))
    {
      hide Local;
      if g == p.g && l == p.l {
        assert Pid(g, l) == p;
      } else {
        assert Local(t, s.ctl[g][l], s.inter[l].ranks[g], s.intra[g].ranks[l], Pid(g, l));
      }
    }
  }

  /** How the control of a process may change in one step. */
  ghost predicate CtlStep(t: Topo, s: State, p: Pid, x: Ctl)
    requires StateShape(t, s) && In(t, p)
  {
    var y := C(s, p);
    || (x.stage == y.stage && x.round == y.round)
    || (Level(x.stage) <= 3 && Level(x.stage) >= Level(y.stage) && x.round == y.round)
    || (MayPass(t, s, p) && y.stage != Running && x.round == y.round
       && Level(y.stage) <= Level(x.stage) <= Level(y.stage) + 1)
    || (MayPass(t, s, p) && y.stage == SyncWorld && x.stage == Running && x.round == y.round + 1)
  }

  lemma ApplySync(t: Topo, s: State, p: Pid, d: Effect)
    requires StateShape(t, s) && SyncInv(t, s) && In(t, p) && StateShape(t, Apply(s, p, d))
    requires CtlStep(t, s, p, d.x)
    ensures SyncInv(t, Apply(s, p, d))
  {
    hide CommShape, HeldOk;
    var s' := Apply(s, p, d);
    forall g, l, h, b | 0 <= g < t.groups && 0 <= l < t.locals && 0 <= h < t.groups && 0 <= b < t.locals
      ensures Paired(s'.ctl[g][l], s'.ctl[h][b], l == b, g == h)
    {
      assert Paired(s.ctl[g][l], s.ctl[h][b], l == b, g == h);
      assert Paired(s.ctl[h][b], s.ctl[g][l], b == l, h == g);
    }
  }

  lemma ApplyCount(t: Topo, s: State, p: Pid, d: Effect, f: Flight)
    requires p.l < |s.inter| && p.g < |s.intra| && p.g < |s.ctl| && p.l < |s.ctl[p.g]|
    ensures Transit(t, Apply(s, p, d), f)
         == Transit(t, s, f) - Here(t, p, s.inter[p.l], s.intra[p.g], C(s, p), f) + Here(t, p, d.e, d.i, d.x, f)
  {
    hide Content;
    var row := s.ctl[p.g];
    CountAtUpdate(s.inter, p.l, d.e, (l, c: Comm<Item>) => Content(c, InterFlight(t, l), f));
    CountAtUpdate(s.intra, p.g, d.i, (g, c: Comm<Item>) => Content(c, IntraFlight(g), f));
    CountAtUpdate(row, p.l, d.x, (l, x: Ctl) => HeldCount(t, Pid(p.g, l), x, f));
    CountAtUpdate(s.ctl, p.g, row[p.l := d.x], (g, row: seq<Ctl>) => HeldRow(t, g, row, f));
  }

  ghost predicate AllWaiting(t: Topo, s: State)
    requires StateShape(t, s)
  {
    forall g, l :: 0 <= g < t.groups && 0 <= l < t.locals ==> s.ctl[g][l].stage == SyncWorld
  }

  lemma AllFlushedEmpty(bufs: seq<seq<Item>>, acks: seq<nat>, n: nat)
    requires AllFlushed(bufs, acks, n) && n <= |bufs|
    ensures forall d :: 0 <= d < n ==> bufs[d] == []
  {
    forall d | 0 <= d < n
      ensures bufs[d] == []
    {
      assert Flushed(bufs, acks, d);
    }
  }

  lemma InterAtEnd(t: Topo, s: State, l: nat, f: Flight)
    requires StateShape(t, s) && LinkInv(t, s) && LocalInv(t, s) && AllWaiting(t, s) && l < t.locals
    ensures Content(s.inter[l], InterFlight(t, l), f) == 0
  {
    var c := s.inter[l];
    forall r | 0 <= r < t.groups
      ensures c.ranks[r].ack == 0 && forall d :: 0 <= d < t.groups ==> c.ranks[r].bufs[d] == []
    {
      assert Local(t, s.ctl[r][l], c.ranks[r], s.intra[r].ranks[l], Pid(r, l));
      AllFlushedEmpty(c.ranks[r].bufs, c.ranks[r].acks, t.groups);
    }
    QuietIsEmpty(c, InterFlight(t, l), f);
  }

  lemma IntraAtEnd(t: Topo, s: State, g: nat, f: Flight)
    requires StateShape(t, s) && LinkInv(t, s) && LocalInv(t, s) && AllWaiting(t, s) && g < t.groups
    ensures Content(s.intra[g], IntraFlight(g), f) == 0
  {
    var c := s.intra[g];
    forall r | 0 <= r < t.locals
      ensures c.ranks[r].ack == 0 && forall d :: 0 <= d < t.locals ==> c.ranks[r].bufs[d] == []
    {
      assert Local(t, s.ctl[g][r], s.inter[r].ranks[g], c.ranks[r], Pid(g, r));
      AllFlushedEmpty(c.ranks[r].bufs, c.ranks[r].acks, t.locals);
    }
    QuietIsEmpty(c, IntraFlight(g), f);
  }

  lemma HeldAtEnd(t: Topo, s: State, g: nat, f: Flight)
    requires StateShape(t, s) && LocalInv(t, s) && AllWaiting(t, s) && g < t.groups
    ensures HeldRow(t, g, s.ctl[g], f) == 0
  {
    forall l | 0 <= l < t.locals
      ensures HeldCount(t, Pid(g, l), s.ctl[g][l], f) == 0
    {
      assert Local(t, s.ctl[g][l], s.inter[l].ranks[g], s.intra[g].ranks[l], Pid(g, l));
    }
    CountAtZero(s.ctl[g], (l, x: Ctl) => HeldCount(t, Pid(g, l), x, f));
  }

  /** When every process stands before the last synchronisation, nothing is on its way. */
  lemma AllAtEnd(t: Topo, s: State, f: Flight)
    requires StateShape(t, s) && LinkInv(t, s) && LocalInv(t, s) && AllWaiting(t, s)
    ensures Transit(t, s, f) == 0
  {
    forall l | 0 <= l < t.locals ensures Content(s.inter[l], InterFlight(t, l), f) == 0 {
      InterAtEnd(t, s, l, f);
    }
    forall g | 0 <= g < t.groups
      ensures Content(s.intra[g], IntraFlight(g), f) == 0 && HeldRow(t, g, s.ctl[g], f) == 0
    {
      IntraAtEnd(t, s, g, f);
      HeldAtEnd(t, s, g, f);
    }
    hide CommShape, Content, HeldRow, LocalInv, LinkInv, AllWaiting;
    CountAtZero(s.inter, (l, c: Comm<Item>) => Content(c, InterFlight(t, l), f));
    CountAtZero(s.intra, (g, c: Comm<Item>) => Content(c, IntraFlight(g), f));
    CountAtZero(s.ctl, (g, row: seq<Ctl>) => HeldRow(t, g, row, f));
  }

  /** A process that leaves the barrier leaves nothing of its round behind. */
  lemma ReturnIsClean(t: Topo, s: State, p: Pid, f: Flight)
    requires StateShape(t, s) && LinkInv(t, s) && LocalInv(t, s) && SyncInv(t, s) && Current(t, s)
    requires In(t, p) && C(s, p).stage == SyncWorld && MayPass(t, s, p) && Transit(t, s, f) > 0
    ensures f.round > C(s, p).round
  {
    hide CommShape, LinkInv, LocalInv, Transit;
    if forall g, l :: 0 <= g < t.groups && 0 <= l < t.locals ==> s.ctl[g][l].round <= C(s, p).round {
      forall g, l | 0 <= g < t.groups && 0 <= l < t.locals
        ensures s.ctl[g][l].stage == SyncWorld
      {
        assert Arrived(s.ctl[g][l], C(s, p).round, 7);
      }
      AllAtEnd(t, s, f);
    }
  }

  /** Only a running process sends, and only leaving the barrier starts a new round. */
  lemma EffectCtl(t: Topo, p: Pid, e: Comm<Item>, i: Comm<Item>, x: Ctl, a: Action)
    requires Sized(t, p, e, i) && CanDo(t, p, e, i, x, a)
    ensures var d := EffectOf(t, p, e, i, x, a);
            && (forall f :: d.posted[f] > 0 ==> f.round == x.round && x.stage == Running)
            && (a == Advance && x.stage == SyncWorld ==> d.x.stage == Running && d.x.round == x.round + 1)
            && (!(a == Advance && x.stage == SyncWorld) ==> d.x.round == x.round)
            && (a == Advance && x.stage != SyncWorld ==> Level(x.stage) <= Level(d.x.stage) <= Level(x.stage) + 1)
            && (a == Enter ==> Level(d.x.stage) == 1 && x.stage == Running)
            && (a != Advance && a != Enter ==> d.x.stage == x.stage)
  {
  }

  lemma StepCurrent(t: Topo, s: State, p: Pid, a: Action, d: Effect)
    requires Inv(t, s) && In(t, p) && Enabled(t, s, p, a) && StateShape(t, Apply(s, p, d))
    requires d == EffectOf(t, p, s.inter[p.l], s.intra[p.g], C(s, p), a)
    requires forall f :: Transit(t, Apply(s, p, d), f) <= Transit(t, s, f) + d.posted[f]
    ensures Current(t, Apply(s, p, d))
  {
    hide CommShape, EffectOf, LinkInv, LocalInv, CanDo, Transit, SyncInv, HeldOk, Conserved;
    var s' := Apply(s, p, d);
    SizedOf(t, s, p);
    EffectCtl(t, p, s.inter[p.l], s.intra[p.g], C(s, p), a);
    forall f, g, l | 0 <= g < t.groups && 0 <= l < t.locals && Transit(t, s', f) > 0
      ensures f.round >= s'.ctl[g][l].round
    {
      CurrentAt(t, s, p, a, d, f, Pid(g, l));
    }
  }

  lemma SizedOf(t: Topo, s: State, p: Pid)
    requires StateShape(t, s) && In(t, p)
    ensures Sized(t, p, s.inter[p.l], s.intra[p.g])
  {
  }

  lemma CurrentAt(t: Topo, s: State, p: Pid, a: Action, d: Effect, f: Flight, q: Pid)
    requires StateShape(t, s) && LinkInv(t, s) && LocalInv(t, s) && SyncInv(t, s) && Current(t, s)
    requires In(t, p) && In(t, q) && (a == Advance ==> MayPass(t, s, p)) && Transit(t, s, f) + d.posted[f] > 0
    requires d.posted[f] > 0 ==> f.round == C(s, p).round && C(s, p).stage == Running
    requires a == Advance && C(s, p).stage == SyncWorld ==> d.x.round == C(s, p).round + 1
    requires !(a == Advance && C(s, p).stage == SyncWorld) ==> d.x.round == C(s, p).round
    requires d.posted[f] > 0 ==> !(a == Advance && C(s, p).stage == SyncWorld)
    ensures f.round >= if q == p then d.x.round else C(s, q).round
  {
    hide CommShape, LinkInv, LocalInv, Transit, HeldOk;
    assert Paired(s.ctl[p.g][p.l], s.ctl[q.g][q.l], p.l == q.l, p.g == q.g);
    if Transit(t, s, f) > 0 {
      assert f.round >= s.ctl[q.g][q.l].round && f.round >= s.ctl[p.g][p.l].round;
      if a == Advance && C(s, p).stage == SyncWorld {
        ReturnIsClean(t, s, p, f);
      }
    }
  }

  lemma StepStructure(t: Topo, s: State, p: Pid, a: Action, d: Effect)
    requires StateShape(t, s) && LinkInv(t, s) && LocalInv(t, s) && In(t, p) && Enabled(t, s, p, a)
    requires d == EffectOf(t, p, s.inter[p.l], s.intra[p.g], C(s, p), a)
    ensures StateShape(t, Apply(s, p, d)) && LinkInv(t, Apply(s, p, d)) && LocalInv(t, Apply(s, p, d))
  {
    var e, i, x := s.inter[p.l], s.intra[p.g], C(s, p);
    ViewOf(t, s, p);
    hide StateShape, AckInv, Local, LocalInv, LinkInv, CanDo, MayPass, EffectOf, Apply;
    EffectShape(t, p, e, i, x, a);
    EffectLocal(t, p, e, i, x, a);
    ApplyShape(t, s, p, d);
    ApplyLocal(t, s, p, d);
  }

  lemma StepSync(t: Topo, s: State, p: Pid, a: Action, d: Effect)
    requires StateShape(t, s) && SyncInv(t, s) && In(t, p) && Enabled(t, s, p, a)
    requires d == EffectOf(t, p, s.inter[p.l], s.intra[p.g], C(s, p), a) && StateShape(t, Apply(s, p, d))
    ensures SyncInv(t, Apply(s, p, d))
  {
    EffectCtl(t, p, s.inter[p.l], s.intra[p.g], C(s, p), a);
    hide CommShape, SyncInv, CanDo, EffectOf;
    ApplySync(t, s, p, d);
  }

  lemma StepCount(t: Topo, s: State, p: Pid, a: Action, d: Effect, f: Flight)
    requires StateShape(t, s) && LinkInv(t, s) && LocalInv(t, s) && In(t, p) && Enabled(t, s, p, a)
    requires d == EffectOf(t, p, s.inter[p.l], s.intra[p.g], C(s, p), a)
    ensures Transit(t, Apply(s, p, d), f) + d.ran[f] == Transit(t, s, f) + d.posted[f]
  {
    var e, i, x := s.inter[p.l], s.intra[p.g], C(s, p);
    ViewOf(t, s, p);
    hide AckInv, Local, LocalInv, LinkInv, CanDo, MayPass, EffectOf, Apply, Transit, Here, CommShape;
    ApplyCount(t, s, p, d, f);
    EffectCount(t, p, e, i, x, a, f);
  }

  /** Every step keeps the invariant. */
  lemma StepInv(t: Topo, s: State, p: Pid, a: Action)
    requires Inv(t, s) && In(t, p) && Enabled(t, s, p, a)
    ensures Inv(t, Next(t, s, p, a))
  {
    var d := EffectOf(t, p, s.inter[p.l], s.intra[p.g], C(s, p), a);
    hide CommShape, LocalInv, LinkInv, SyncInv, Current, CanDo, MayPass, Transit, EffectOf;
    StepStructure(t, s, p, a, d);
    StepSync(t, s, p, a, d);
    var s' := Apply(s, p, d);
    forall f
      ensures Transit(t, s', f) + d.ran[f] == Transit(t, s, f) + d.posted[f]
    {
      StepCount(t, s, p, a, d, f);
    }
    StepCurrent(t, s, p, a, d);
  }

  lemma EmptyCommHolds<F>(n: nat, phi: (nat, nat, Item) -> F, f: F)
    ensures AckInv(EmptyComm(n)) && Content(EmptyComm(n), phi, f) == 0
  {
    var c := EmptyComm(n);
    forall p | 0 <= p < n
      ensures Outstanding(c, p) == 0
    {
      CountZero(c.ranks, (r: Rank<Item>) => Delayed(r, p));
    }
    QuietIsEmpty(c, phi, f);
  }

  lemma InitTransit(t: Topo, f: Flight)
    ensures Transit(t, Init(t), f) == 0
  {
    var s := Init(t);
    forall l | 0 <= l < t.locals ensures Content(s.inter[l], InterFlight(t, l), f) == 0 {
      EmptyCommHolds(t.groups, InterFlight(t, l), f);
    }
    forall g | 0 <= g < t.groups
      ensures Content(s.intra[g], IntraFlight(g), f) == 0 && HeldRow(t, g, s.ctl[g], f) == 0
    {
      EmptyCommHolds(t.locals, IntraFlight(g), f);
      CountAtZero(s.ctl[g], (l, x: Ctl) => HeldCount(t, Pid(g, l), x, f));
    }
    hide Content, HeldRow;
    CountAtZero(s.inter, (l, c: Comm<Item>) => Content(c, InterFlight(t, l), f));
    CountAtZero(s.intra, (g, c: Comm<Item>) => Content(c, IntraFlight(g), f));
    CountAtZero(s.ctl, (g, row: seq<Ctl>) => HeldRow(t, g, row, f));
  }

  lemma InitInv(t: Topo)
    ensures Inv(t, Init(t))
  {
    InitLinks(t);
    hide CommShape, LinkInv, Transit;
    forall f ensures Transit(t, Init(t), f) == 0 {
      InitTransit(t, f);
    }
  }

  lemma InitLinks(t: Topo)
    ensures StateShape(t, Init(t)) && LinkInv(t, Init(t))
  {
    var f := Flight(Pid(0, 0), Pid(0, 0), 0, [], 0);
    EmptyCommHolds(t.groups, InterFlight(t, 0), f);
    EmptyCommHolds(t.locals, IntraFlight(0), f);
    EmptyCommShape(t.groups, InterRoutes(t), HDR);
    EmptyCommShape(t.locals, IntraRoutes(t), HDR_INTRA);
    hide CommShape, AckInv, EmptyComm;
  }

  lemma EmptyCommShape(n: nat, routes: Routes, hdr: nat)
    ensures CommShape(EmptyComm(n), n, routes, hdr)
  {
  }

  /** The invariant holds throughout every run. */
  lemma {:induction false} RunInv(t: Topo, run: seq<State>, k: nat)
    requires IsRun(t, run) && k < |run|
    ensures Inv(t, run[k])
  {
    hide Inv;
    if k == 0 {
      InitInv(t);
    } else {
      RunInv(t, run, k - 1);
      assert IsStep(t, run[k - 1], run[k - 1 + 1]);
      var p, a :| In(t, p) && Enabled(t, run[k - 1], p, a) && run[k] == Next(t, run[k - 1], p, a);
      StepInv(t, run[k - 1], p, a);
    }
  }

  // ----- What is sent and what is addressed -----

  /** No other message is addressed like `f`. */
  ghost predicate NoStray(t: Topo, sent: multiset<Flight>, f: Flight) {
    forall g :: g != f && Addressed(t, g) == f ==> sent[g] == 0
  }

  ghost predicate PostOk(t: Topo, sent: multiset<Flight>, posted: multiset<Flight>, f: Flight) {
    && (Addressed(t, f) == f ==> posted[f] >= sent[f] && (NoStray(t, sent, f) ==> posted[f] == sent[f]))
    && (Addressed(t, f) != f && In(t, f.dest) ==> posted[f] == 0)
  }

  /** What a step sends, if anything, it posts as addressed. */
  lemma EffectPosts(t: Topo, p: Pid, e: Comm<Item>, i: Comm<Item>, x: Ctl, a: Action)
    requires Sized(t, p, e, i) && CanDo(t, p, e, i, x, a)
    ensures var d := EffectOf(t, p, e, i, x, a);
            || (d.sent == multiset{} && d.posted == multiset{})
            || exists f: Flight :: In(t, f.dest) && d.sent == multiset{f} && d.posted == multiset{Addressed(t, f)}
  {
    if a.Send? {
      var f := Flight(p, a.dest, a.hndl, a.data, x.round);
      assert In(t, f.dest);
    }
  }

  lemma AddressedTwice(t: Topo, f: Flight)
    requires Accepted(t.locals, t.masked) && In(t, f.dest) && In(t, Addressed(t, f).dest)
    ensures Addressed(t, Addressed(t, f)) == Addressed(t, f)
  {
    hide Accepted, Received, SignedByte;
    if f.dest.g != f.origin.g {
      RoutedTwice(t.locals, t.masked, f.dest.l);
    }
  }

  lemma PostStep(t: Topo, sent: multiset<Flight>, posted: multiset<Flight>, g: Flight, f: Flight)
    requires Accepted(t.locals, t.masked) && In(t, g.dest) && PostOk(t, sent, posted, f)
    ensures PostOk(t, sent + multiset{g}, posted + multiset{Addressed(t, g)}, f)
  {
    hide Addressed, Accepted;
    if Addressed(t, g) == f && In(t, f.dest) {
      AddressedTwice(t, g);
    }
    if NoStray(t, sent + multiset{g}, f) {
      assert forall h :: sent[h] <= (sent + multiset{g})[h];
      assert (sent + multiset{g})[g] > 0;
    }
  }

  lemma {:induction false} RunPosts(t: Topo, run: seq<State>, k: nat, f: Flight)
    requires IsRun(t, run) && k < |run| && Accepted(t.locals, t.masked)
    ensures PostOk(t, run[k].sent, run[k].posted, f)
  {
    hide PostOk, Accepted;
    if k == 0 {
      NonePosted(t, f);
    } else {
      RunPosts(t, run, k - 1, f);
      var s := run[k - 1];
      assert IsStep(t, s, run[k - 1 + 1]);
      var p, a :| In(t, p) && Enabled(t, s, p, a) && run[k] == Next(t, s, p, a);
      StepPosts(t, s, p, a, f);
    }
  }

  lemma NonePosted(t: Topo, f: Flight)
    ensures PostOk(t, multiset{}, multiset{}, f)
  {
  }

  lemma StepPosts(t: Topo, s: State, p: Pid, a: Action, f: Flight)
    requires StateShape(t, s) && In(t, p) && Enabled(t, s, p, a) && Accepted(t.locals, t.masked)
    requires PostOk(t, s.sent, s.posted, f)
    ensures PostOk(t, Next(t, s, p, a).sent, Next(t, s, p, a).posted, f)
  {
    hide PostOk, Accepted, CanDo, MayPass, EffectOf, HeldOk;
    var e, i, x := s.inter[p.l], s.intra[p.g], C(s, p);
    EffectPosts(t, p, e, i, x, a);
    var d := EffectOf(t, p, e, i, x, a);
    if g: Flight :| In(t, g.dest) && d.sent == multiset{g} && d.posted == multiset{Addressed(t, g)} {
      PostStep(t, s.sent, s.posted, g, f);
    } else {
      assert s.sent + d.sent == s.sent && s.posted + d.posted == s.posted;
    }
  }

  // ----- The promise of the barrier -----

  /** In every run, once any process has completed more than `f.round` barriers, a message `f` sent before
      the next one has run its handler as often as it was posted. */
  lemma PostedRuns(t: Topo, run: seq<State>, k: nat, p: Pid, f: Flight)
    requires IsRun(t, run) && k < |run| && In(t, p)
    ensures StateShape(t, run[k])
    ensures f.round < C(run[k], p).round ==> run[k].ran[f] == run[k].posted[f]
    ensures run[k].ran[f] <= run[k].posted[f]
  {
    RunInv(t, run, k);
    hide LinkInv, LocalInv, SyncInv, CommShape, Transit;
  }

  /** The routing byte names the destination: it is in the group of the origin, or its local number survives. */
  predicate Exact(t: Topo, f: Flight) {
    f.dest.g == f.origin.g || f.dest.l < 128 || (t.masked && f.dest.l >= t.locals - 128)
  }

  lemma ExactIff(t: Topo, f: Flight)
    requires Accepted(t.locals, t.masked) && In(t, f.dest)
    ensures Addressed(t, f) == f <==> Exact(t, f)
  {
    hide Accepted, Received, SignedByte;
    RoutingByteExact(t.locals, t.masked, f.dest.l);
  }

  /** The promise of the barrier and its exact condition. In every run, for every message `f` and every process
      that has completed more barriers than the sender of `f` had: a handler has run at the destination of
      `f`, with its origin as `from`, exactly if the routing byte is exact for it; then it has run at
      least as often as `f` was sent, and just as often unless an inexact message strayed there. */
  lemma BarrierDelivers(t: Topo, run: seq<State>, k: nat, p: Pid, f: Flight)
    requires IsRun(t, run) && k < |run| && In(t, p) && Accepted(t.locals, t.masked) && In(t, f.dest)
    ensures StateShape(t, run[k])
    ensures f.round < C(run[k], p).round && Exact(t, f) ==>
              run[k].ran[f] >= run[k].sent[f] && (NoStray(t, run[k].sent, f) ==> run[k].ran[f] == run[k].sent[f])
    ensures !Exact(t, f) ==> run[k].ran[f] == 0
    ensures f.round < C(run[k], p).round && run[k].sent[f] > 0 ==> (run[k].ran[f] > 0 <==> Exact(t, f))
  {
    hide IsRun, Accepted, StateShape, NoStray, Exact, Addressed;
    PostedRuns(t, run, k, p, f);
    RunPosts(t, run, k, f);
    ExactIff(t, f);
  }

  /** Up to 256 processes per group, or 128 in the build that does not mask, every message runs exactly as
      often as it was sent. */
  lemma SmallGroupsDeliver(t: Topo, run: seq<State>, k: nat, p: Pid, f: Flight)
    requires IsRun(t, run) && k < |run| && In(t, p) && Accepted(t.locals, t.masked) && In(t, f.dest)
    requires t.locals <= if t.masked then 256 else 128
    ensures StateShape(t, run[k])
    ensures f.round < C(run[k], p).round ==> run[k].ran[f] == run[k].sent[f]
  {
    hide Accepted, StateShape;
    BarrierDelivers(t, run, k, p, f);
    forall g | g != f && Addressed(t, g) == f ensures run[k].sent[g] == 0 {
      SentInside(t, run, k, g);
      if In(t, g.dest) {
        ExactIff(t, g);
      }
    }
  }

  lemma {:induction false} SentInside(t: Topo, run: seq<State>, k: nat, g: Flight)
    requires IsRun(t, run) && k < |run|
    ensures run[k].sent[g] > 0 ==> In(t, g.dest)
  {
    if k > 0 {
      SentInside(t, run, k - 1, g);
      var s := run[k - 1];
      assert IsStep(t, s, run[k - 1 + 1]);
      var p, a :| In(t, p) && Enabled(t, s, p, a) && run[k] == Next(t, s, p, a);
      EffectPosts(t, p, s.inter[p.l], s.intra[p.g], C(s, p), a);
      hide CanDo, EffectOf, MayPass, HeldOk;
    }
  }

  /** No handler ever runs more often than its message was posted. */
  lemma NeverTwice(t: Topo, run: seq<State>, k: nat, f: Flight)
    requires IsRun(t, run) && k < |run| && Accepted(t.locals, t.masked)
    ensures Exact(t, f) && In(t, f.dest) && NoStray(t, run[k].sent, f) ==> run[k].ran[f] <= run[k].sent[f]
  {
    RunInv(t, run, k);
    RunPosts(t, run, k, f);
    hide LinkInv, LocalInv, SyncInv, StateShape, NoStray, Accepted;
    if In(t, f.dest) {
      ExactIff(t, f);
    }
  }
}
