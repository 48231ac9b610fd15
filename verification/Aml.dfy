/** The active-message layer over all processes: aggregated sends, two-hop routing between groups,
    and the acknowledgement-counting barrier, as a state machine in which any process may take its
    next step and any message in flight may arrive next. Handlers do not send. */
module Aml {
  import opened Sums
  import opened AckLink
  import opened AmlRoute

  /** `groups` groups of `locals` processes each. Process `(g, l)` has number `g * locals + l`. `masked` is
      the build for groups whose size is a power of two. */
  datatype Topo = Topo(groups: nat, locals: nat, masked: bool)

  datatype Pid = Pid(g: nat, l: nat)

  predicate In(t: Topo, p: Pid) { p.g < t.groups && p.l < t.locals }

  /** Size in bytes of an aggregation buffer and of the two headers. */
  const AGGR: nat := 32768
  const HDR: nat := 4
  const HDR_INTRA: nat := 5

  /** One entry of a buffer. Between groups `routing` is the signed byte with the local number of the
      destination, inside a group it is the group of the origin. `round` counts the barriers its sender had completed;
      it is not transmitted and no step looks at it. */
  datatype Item = Item(routing: int, hndl: nat, data: seq<nat>, round: nat)

  /** One active message as its sender means it, or as a handler has seen it: `origin` is then the
      `from` argument of the handler and `dest` the process that ran it. */
  datatype Flight = Flight(origin: Pid, dest: Pid, hndl: nat, data: seq<nat>, round: nat)

  /** Entry received from a group and not processed yet. */
  datatype Held = Held(fromGroup: nat, item: Item)

  /** Where a process stands: in user code, or in one of the numbered parts of the barrier. */
  datatype Stage = Running | FlushInter(i: nat) | AwaitInter | SyncInter
                 | FlushIntra(i: nat) | AwaitIntra | SyncIntra | SyncWorld

  function Level(s: Stage): nat {
    match s
    case Running => 0 case FlushInter(_) => 1 case AwaitInter => 2 case SyncInter => 3
    case FlushIntra(_) => 4 case AwaitIntra => 5 case SyncIntra => 6 case SyncWorld => 7
  }

  datatype Ctl = Ctl(stage: Stage, round: nat, held: seq<Held>)

  /** `inter[l]` joins the processes with local number `l` of all groups, `intra[g]` those of group
      `g`. `sent` and `ran` record the messages sent and the handler runs so far; `posted` the messages
      sent as they are addressed once the local number is in the routing byte. */
  datatype State = State(inter: seq<Comm<Item>>, intra: seq<Comm<Item>>, ctl: seq<seq<Ctl>>,
                         sent: multiset<Flight>, posted: multiset<Flight>, ran: multiset<Flight>)

  /** The local number that a receiver computes from a routing byte. */
  function Reach(t: Topo, c: int): (l: nat)
    ensures t.masked && t.locals > 0 ==> l < t.locals
  {
    if t.locals == 0 then 0 else Received(t.locals, t.masked, c)
  }

  /** A message as it is addressed: one to another group goes through the routing byte. */
  function Addressed(t: Topo, f: Flight): Flight {
    if f.dest.g == f.origin.g then f
    else f.(dest := Pid(f.dest.g, Reach(t, SignedByte(f.dest.l))))
  }

  function Group(routing: int): nat {
    if routing >= 0 then routing else 0
  }

  function InterFlight(t: Topo, l: nat): (nat, nat, Item) -> Flight {
    (g: nat, h: nat, e: Item) => Flight(Pid(g, l), Pid(h, Reach(t, e.routing)), e.hndl, e.data, e.round)
  }

  function IntraFlight(g: nat): (nat, nat, Item) -> Flight {
    (a: nat, b: nat, e: Item) => Flight(Pid(Group(e.routing), a), Pid(g, b), e.hndl, e.data, e.round)
  }

  function HeldFlight(t: Topo, p: Pid, h: Held): Flight {
    Flight(Pid(h.fromGroup, p.l), Pid(p.g, Reach(t, h.item.routing)), h.item.hndl, h.item.data, h.item.round)
  }

  // ----- Shape -----

  /** The values a routing field takes, from `lo` below `hi`. */
  datatype Routes = Routes(lo: int, hi: int)

  /** Small groups never need the sign of the routing byte. */
  function InterRoutes(t: Topo): Routes {
    if t.locals <= 128 then Routes(0, t.locals) else Routes(-128, 128)
  }

  function IntraRoutes(t: Topo): Routes { Routes(0, t.groups) }

  ghost predicate CommShape(c: Comm<Item>, n: nat, routes: Routes, hdr: nat) {
    && Shape(c) && |c.ranks| == n
    && (forall r, d :: 0 <= r < n && 0 <= d < n ==> BufferOk(c.ranks[r].bufs[d], routes, hdr))
    && (forall k :: 0 <= k < |c.net| ==> ItemsOk(c.net[k].body, routes))
  }

  ghost predicate ItemsOk(b: seq<Item>, routes: Routes) {
    forall i :: 0 <= i < |b| ==> routes.lo <= b[i].routing < routes.hi && |b[i].data| + HDR_INTRA <= AGGR
  }

  function Bytes(b: seq<Item>, hdr: nat): nat {
    Count(b, (e: Item) => |e.data| + hdr)
  }

  /** Entries that fit their buffer. */
  ghost predicate BufferOk(b: seq<Item>, routes: Routes, hdr: nat) {
    ItemsOk(b, routes) && Bytes(b, hdr) <= AGGR
  }

  ghost predicate HeldOk(t: Topo, g: nat, x: Ctl) {
    forall i :: 0 <= i < |x.held| ==>
      && x.held[i].fromGroup < t.groups && InterRoutes(t).lo <= x.held[i].item.routing < InterRoutes(t).hi
      && |x.held[i].item.data| + HDR_INTRA <= AGGR
  }

  ghost predicate StateShape(t: Topo, s: State) {
    && |s.inter| == t.locals && |s.intra| == |s.ctl| == t.groups
    && (forall l :: 0 <= l < t.locals ==> CommShape(s.inter[l], t.groups, InterRoutes(t), HDR))
    && (forall g :: 0 <= g < t.groups ==>
          CommShape(s.intra[g], t.locals, IntraRoutes(t), HDR_INTRA) && |s.ctl[g]| == t.locals)
    && (forall g, l :: 0 <= g < t.groups && 0 <= l < t.locals ==> HeldOk(t, g, s.ctl[g][l]))
  }

  function C(s: State, p: Pid): Ctl
    requires p.g < |s.ctl| && p.l < |s.ctl[p.g]|
  {
    s.ctl[p.g][p.l]
  }

  // ----- Steps -----

  /** The `i`-th rank after `me` in ring order, the order in which a barrier flushes. */
  function Ring(me: nat, i: nat, n: nat): nat
    requires n > 0
  {
    (me + i) % n
  }

  datatype Action =
    | Send(dest: Pid, hndl: nat, data: seq<nat>)
    | FlushTo(group: nat)
    | FlushToLocal(local: nat)
    | Poll(k: nat)
    | PollIntra(k: nat)
    | Process
    | Enter
    | Advance

  predicate Arrived(x: Ctl, round: nat, level: nat) {
    x.round > round || (x.round == round && Level(x.stage) >= level)
  }

  predicate InBarrier(s: Stage) { s != Running && s != SyncWorld }

  /** A step of process `p` sees and changes only its two communicators and its own control. */
  datatype Effect = Effect(e: Comm<Item>, i: Comm<Item>, x: Ctl, sent: multiset<Flight>, posted: multiset<Flight>,
                           ran: multiset<Flight>)

  ghost predicate Sized(t: Topo, p: Pid, e: Comm<Item>, i: Comm<Item>) {
    In(t, p) && Shape(e) && Shape(i) && |e.ranks| == t.groups && |i.ranks| == t.locals
  }

  ghost predicate View(t: Topo, p: Pid, e: Comm<Item>, i: Comm<Item>, x: Ctl) {
    && In(t, p) && HeldOk(t, p.g, x)
    && CommShape(e, t.groups, InterRoutes(t), HDR) && CommShape(i, t.locals, IntraRoutes(t), HDR_INTRA)
  }

  /** A flush comes first when the buffer has no room, so a send or a pass-on needs room. A process that has
      computed a local number outside the arrays takes no step any more. */
  ghost predicate CanDo(t: Topo, p: Pid, e: Comm<Item>, i: Comm<Item>, x: Ctl, a: Action)
    requires Sized(t, p, e, i)
  {
    match a
    case Send(dest, hndl, data) =>
      && x.stage == Running && x.held == [] && In(t, dest) && |data| + HDR_INTRA <= AGGR
      && (dest != p ==>
            if dest.g == p.g then Bytes(i.ranks[p.l].bufs[dest.l], HDR_INTRA) + |data| + HDR_INTRA <= AGGR
            else Bytes(e.ranks[p.g].bufs[dest.g], HDR) + |data| + HDR <= AGGR)
    case FlushTo(h) => x.stage == Running && x.held == [] && h < t.groups && h != p.g
    case FlushToLocal(b) =>
      && Level(x.stage) <= 3 && b < t.locals && b != p.l
      && if x.held == [] then x.stage == Running
         else b == Reach(t, x.held[0].item.routing)
              && Bytes(i.ranks[p.l].bufs[b], HDR_INTRA) + |x.held[0].item.data| + HDR_INTRA > AGGR
    case Poll(k) => Level(x.stage) <= 3 && x.held == [] && k < |e.net| && e.net[k].dst == p.g
    case PollIntra(k) => Level(x.stage) <= 6 && k < |i.net| && i.net[k].dst == p.l
    case Process =>
      && x.held != [] && Reach(t, x.held[0].item.routing) < t.locals
      && (Reach(t, x.held[0].item.routing) != p.l ==>
            Bytes(i.ranks[p.l].bufs[Reach(t, x.held[0].item.routing)], HDR_INTRA)
            + |x.held[0].item.data| + HDR_INTRA <= AGGR)
    case Enter => x.stage == Running && x.held == []
    case Advance =>
      && x.held == [] && x.stage != Running
      && (x.stage == AwaitInter ==> e.ranks[p.g].ack == 0)
      && (x.stage == AwaitIntra ==> i.ranks[p.l].ack == 0)
  }

  /** The collective synchronisations let a process pass when all their members have arrived. */
  ghost predicate MayPass(t: Topo, s: State, p: Pid)
    requires StateShape(t, s) && In(t, p)
  {
    var x := C(s, p);
    match x.stage
    case SyncInter => forall h :: 0 <= h < t.groups ==> Arrived(s.ctl[h][p.l], x.round, 3)
    case SyncIntra => forall b :: 0 <= b < t.locals ==> Arrived(s.ctl[p.g][b], x.round, 6)
    case SyncWorld => forall h, b :: 0 <= h < t.groups && 0 <= b < t.locals ==> Arrived(s.ctl[h][b], x.round, 7)
    case _ => true
  }

  /** A message to a process of the own group goes into the intranode buffer of the destination, a
      message to another group into the internode buffer of that group; a message to the process
      itself runs its handler at once. */
  function DoSend(t: Topo, p: Pid, e: Comm<Item>, i: Comm<Item>, x: Ctl, dest: Pid, hndl: nat, data: seq<nat>): Effect
    requires dest.g == p.g ==> p.l < |i.ranks| && dest.l < |i.ranks[p.l].bufs|
    requires dest.g != p.g ==> p.g < |e.ranks| && dest.g < |e.ranks[p.g].bufs|
  {
    var f := Flight(p, dest, hndl, data, x.round);
    var sent, posted := multiset{f}, multiset{Addressed(t, f)};
    if dest == p then Effect(e, i, x, sent, posted, multiset{f})
    else if dest.g == p.g then
      Effect(e, Append(i, p.l, dest.l, Item(p.g, hndl, data, x.round)), x, sent, posted, multiset{})
    else
      Effect(Append(e, p.g, dest.g, Item(SignedByte(dest.l), hndl, data, x.round)), i, x, sent, posted, multiset{})
  }

  /** Processes one received internode entry: runs its handler here, or passes it on inside the
      group, keeping the group of its origin. */
  function DoProcess(t: Topo, p: Pid, e: Comm<Item>, i: Comm<Item>, x: Ctl): Effect
    requires x.held != [] && p.l < |i.ranks| && Reach(t, x.held[0].item.routing) < |i.ranks[p.l].bufs|
  {
    var h := x.held[0];
    var x' := x.(held := x.held[1..]);
    var dest := Reach(t, h.item.routing);
    if dest == p.l
    then Effect(e, i, x', multiset{}, multiset{}, multiset{HeldFlight(t, p, h)})
    else Effect(e, Append(i, p.l, dest, h.item.(routing := h.fromGroup)), x', multiset{}, multiset{}, multiset{})
  }

  function Take(src: nat, body: seq<Item>): seq<Held> {
    seq(|body|, i requires 0 <= i < |body| => Held(src, body[i]))
  }

  /** The handler runs for all entries of an intranode message. */
  function RunAll(g: nat, src: nat, dst: nat, body: seq<Item>): multiset<Flight> {
    if body == [] then multiset{}
    else RunAll(g, src, dst, body[..|body| - 1]) + multiset{IntraFlight(g)(src, dst, body[|body| - 1])}
  }

  function DoAdvance(t: Topo, p: Pid, e: Comm<Item>, i: Comm<Item>, x: Ctl): Effect
    requires In(t, p) && p.g < |e.ranks| && p.l < |i.ranks|
    requires |e.ranks[p.g].bufs| == |e.ranks[p.g].acks| == t.groups
    requires |i.ranks[p.l].bufs| == |i.ranks[p.l].acks| == t.locals
  {
    match x.stage
    case FlushInter(n) =>
      if n < t.groups
      then Effect(Flush(e, p.g, Ring(p.g, n, t.groups)), i, x.(stage := FlushInter(n + 1)), multiset{}, multiset{},
           multiset{})
      else Effect(e, i, x.(stage := AwaitInter), multiset{}, multiset{}, multiset{})
    case FlushIntra(n) =>
      if n < t.locals
      then Effect(e, Flush(i, p.l, Ring(p.l, n, t.locals)), x.(stage := FlushIntra(n + 1)), multiset{}, multiset{},
           multiset{})
      else Effect(e, i, x.(stage := AwaitIntra), multiset{}, multiset{}, multiset{})
    case AwaitInter => Effect(e, i, x.(stage := SyncInter), multiset{}, multiset{}, multiset{})
    case SyncInter => Effect(e, i, x.(stage := FlushIntra(1)), multiset{}, multiset{}, multiset{})
    case AwaitIntra => Effect(e, i, x.(stage := SyncIntra), multiset{}, multiset{}, multiset{})
    case SyncIntra => Effect(e, i, x.(stage := SyncWorld), multiset{}, multiset{}, multiset{})
    case SyncWorld => Effect(e, i, x.(stage := Running, round := x.round + 1), multiset{}, multiset{}, multiset{})
    case Running => Effect(e, i, x, multiset{}, multiset{}, multiset{})
  }

  ghost function EffectOf(t: Topo, p: Pid, e: Comm<Item>, i: Comm<Item>, x: Ctl, a: Action): Effect
    requires Sized(t, p, e, i) && CanDo(t, p, e, i, x, a)
  {
    match a
    case Send(dest, hndl, data) => DoSend(t, p, e, i, x, dest, hndl, data)
    case FlushTo(h) => Effect(Flush(e, p.g, h), i, x, multiset{}, multiset{}, multiset{})
    case FlushToLocal(b) => Effect(e, Flush(i, p.l, b), x, multiset{}, multiset{}, multiset{})
    case Poll(k) =>
      Effect(Receive(e, k, InBarrier(x.stage)), i, x.(held := Take(e.net[k].src, e.net[k].body)), multiset{},
        multiset{}, multiset{})
    case PollIntra(k) =>
      Effect(e, Receive(i, k, InBarrier(x.stage)), x, multiset{}, multiset{},
        RunAll(p.g, i.net[k].src, p.l, i.net[k].body))
    case Process => DoProcess(t, p, e, i, x)
    case Enter => Effect(e, i, x.(stage := FlushInter(1)), multiset{}, multiset{}, multiset{})
    case Advance => DoAdvance(t, p, e, i, x)
  }

  function Apply(s: State, p: Pid, d: Effect): State
    requires p.l < |s.inter| && p.g < |s.intra| && p.g < |s.ctl| && p.l < |s.ctl[p.g]|
  {
    State(s.inter[p.l := d.e], s.intra[p.g := d.i], s.ctl[p.g := s.ctl[p.g][p.l := d.x]],
          s.sent + d.sent, s.posted + d.posted, s.ran + d.ran)
  }

  ghost predicate Enabled(t: Topo, s: State, p: Pid, a: Action)
    requires StateShape(t, s) && In(t, p)
  {
    CanDo(t, p, s.inter[p.l], s.intra[p.g], C(s, p), a) && (a == Advance ==> MayPass(t, s, p))
  }

  ghost function Next(t: Topo, s: State, p: Pid, a: Action): State
    requires StateShape(t, s) && In(t, p) && Enabled(t, s, p, a)
  {
    Apply(s, p, EffectOf(t, p, s.inter[p.l], s.intra[p.g], C(s, p), a))
  }

  // ----- Runs -----

  function EmptyComm(n: nat): Comm<Item> {
    Comm(seq(n, _ => Rank(seq(n, _ => []), seq(n, _ => 0), 0)), [])
  }

  function Init(t: Topo): State {
    State(seq(t.locals, _ => EmptyComm(t.groups)), seq(t.groups, _ => EmptyComm(t.locals)),
          seq(t.groups, _ => seq(t.locals, _ => Ctl(Running, 0, []))), multiset{}, multiset{}, multiset{})
  }

  ghost predicate IsStep(t: Topo, s: State, s': State) {
    StateShape(t, s) && exists p, a :: In(t, p) && Enabled(t, s, p, a) && s' == Next(t, s, p, a)
  }

  ghost predicate IsRun(t: Topo, run: seq<State>) {
    && run != [] && run[0] == Init(t)
    && forall i :: 0 <= i < |run| - 1 ==> IsStep(t, run[i], run[i + 1])
  }
}
