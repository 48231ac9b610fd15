/** One communicator of the active-message layer: aggregation buffers per destination rank,
    counted but not yet returned acknowledgements, and messages in flight in any order. */
module AckLink {
  import opened Sums

  /** A message in flight. The tag carries returned acknowledgements; an empty body is a bare
      acknowledgement. */
  datatype Wire<E> = Wire(src: nat, dst: nat, tag: nat, body: seq<E>)

  /** One rank: what it has gathered for each destination, the acknowledgements it owes to each, and
      the number of its own messages not yet acknowledged. */
  datatype Rank<E> = Rank(bufs: seq<seq<E>>, acks: seq<nat>, ack: int)

  datatype Comm<E> = Comm(ranks: seq<Rank<E>>, net: seq<Wire<E>>)

  ghost predicate Shape<E(!new)>(c: Comm<E>) {
    && (forall r :: 0 <= r < |c.ranks| ==> |c.ranks[r].bufs| == |c.ranks[r].acks| == |c.ranks|)
    && (forall k :: 0 <= k < |c.net| ==>
          c.net[k].src < |c.ranks| && c.net[k].dst < |c.ranks| && c.net[k].src != c.net[k].dst)
  }

  function Append<E>(c: Comm<E>, r: nat, d: nat, e: E): Comm<E>
    requires r < |c.ranks| && d < |c.ranks[r].bufs|
  {
    var k := c.ranks[r];
    c.(ranks := c.ranks[r := k.(bufs := k.bufs[d := k.bufs[d] + [e]])])
  }

  /** Sends the gathered entries for `d` together with the acknowledgements owed to `d`. */
  function Flush<E>(c: Comm<E>, r: nat, d: nat): Comm<E>
    requires r < |c.ranks| && d < |c.ranks[r].bufs| == |c.ranks[r].acks|
  {
    var k := c.ranks[r];
    if k.bufs[d] == [] && k.acks[d] == 0 then c
    else
      Comm(c.ranks[r := Rank(k.bufs[d := []], k.acks[d := 0], k.ack + (if k.bufs[d] == [] then 0 else 1))],
           c.net + [Wire(r, d, k.acks[d], k.bufs[d])])
  }

  /** Takes message `k`: credits its tag, then acknowledges a non-empty body, at once (`prompt`,
      inside a barrier) or by counting it. */
  function Receive<E>(c: Comm<E>, k: nat, prompt: bool): Comm<E>
    requires k < |c.net| && c.net[k].dst < |c.ranks| && c.net[k].src < |c.ranks[c.net[k].dst].acks|
  {
    var w := c.net[k];
    var r := c.ranks[w.dst];
    var rest := c.net[..k] + c.net[k + 1..];
    var credited := r.(ack := r.ack - w.tag);
    if w.body == [] then Comm(c.ranks[w.dst := credited], rest)
    else if prompt then Comm(c.ranks[w.dst := credited], rest + [Wire(w.dst, w.src, 1, [])])
    else Comm(c.ranks[w.dst := credited.(acks := r.acks[w.src := r.acks[w.src] + 1])], rest)
  }

  // ----- Conservation of acknowledgements -----

  /** What a message in flight will still take off the counter of rank `p`: one if it is a data
      message of `p`, and its tag if it is addressed to `p`. */
  function Owes<E>(w: Wire<E>, p: nat): nat {
    (if w.src == p && w.body != [] then 1 else 0) + (if w.dst == p then w.tag else 0)
  }

  function Delayed<E>(r: Rank<E>, p: nat): nat {
    if p < |r.acks| then r.acks[p] else 0
  }

  function Outstanding<E>(c: Comm<E>, p: nat): nat {
    Count(c.net, w => Owes(w, p)) + Count(c.ranks, r => Delayed(r, p))
  }

  /** Each counter is exactly the data in flight, the delayed acknowledgements and the tags in
      flight. */
  ghost predicate AckInv<E(!new)>(c: Comm<E>) {
    && Shape(c)
    && forall p :: 0 <= p < |c.ranks| ==> c.ranks[p].ack == Outstanding(c, p)
  }

  lemma OutstandingUpdate<E>(c: Comm<E>, r: nat, x: Rank<E>, net: seq<Wire<E>>, p: nat)
    requires r < |c.ranks|
    ensures Outstanding(Comm(c.ranks[r := x], net), p)
         == Outstanding(c, p) - Count(c.net, w => Owes(w, p)) + Count(net, w => Owes(w, p))
            - Delayed(c.ranks[r], p) + Delayed(x, p)
  {
    CountUpdate(c.ranks, r, x, q => Delayed(q, p));
  }

  lemma NetAppend<E>(net: seq<Wire<E>>, x: Wire<E>, p: nat)
    ensures Count(net + [x], w => Owes(w, p)) == Count(net, w => Owes(w, p)) + Owes(x, p)
  {
    CountConcat(net, [x], w => Owes(w, p));
    assert (net + [x])[..|net|] == net;
  }

  lemma NetRemove<E>(net: seq<Wire<E>>, k: nat, p: nat)
    requires k < |net|
    ensures Count(net[..k] + net[k + 1..], w => Owes(w, p)) == Count(net, w => Owes(w, p)) - Owes(net[k], p)
  {
    CountRemove(net, k, w => Owes(w, p));
  }

  lemma AppendKeepsAck<E(!new)>(c: Comm<E>, r: nat, d: nat, e: E)
    requires AckInv(c) && r < |c.ranks| && d < |c.ranks|
    ensures AckInv(Append(c, r, d, e))
  {
    var c' := Append(c, r, d, e);
    forall p | 0 <= p < |c'.ranks|
      ensures c'.ranks[p].ack == Outstanding(c', p)
    {
      OutstandingUpdate(c, r, c'.ranks[r], c.net, p);
    }
  }

  lemma FlushKeepsAck<E(!new)>(c: Comm<E>, r: nat, d: nat)
    requires AckInv(c) && r < |c.ranks| && d < |c.ranks| && r != d
    ensures AckInv(Flush(c, r, d))
  {
    hide Outstanding;
    var c' := Flush(c, r, d);
    if c' != c {
      forall p | 0 <= p < |c'.ranks|
        ensures c'.ranks[p].ack == Outstanding(c', p)
      {
        FlushOutstanding(c, r, d, p);
      }
    }
  }

  /** The sender of data has one more to wait for; what was delayed for the receiver is now a tag in flight. */
  lemma FlushOutstanding<E(!new)>(c: Comm<E>, r: nat, d: nat, p: nat)
    requires Shape(c) && r < |c.ranks| && d < |c.ranks| && r != d && p < |c.ranks| && Flush(c, r, d) != c
    ensures Outstanding(Flush(c, r, d), p)
         == Outstanding(c, p) + if p == r && c.ranks[r].bufs[d] != [] then 1 else 0
  {
    var k := c.ranks[r];
    var c' := Flush(c, r, d);
    var w := Wire(r, d, k.acks[d], k.bufs[d]);
    OutstandingUpdate(c, r, c'.ranks[r], c'.net, p);
    NetAppend(c.net, w, p);
    hide Outstanding, Flush, Shape;
    assert Owes(w, p) + Delayed(c'.ranks[r], p)
        == Delayed(k, p) + if p == r && k.bufs[d] != [] then 1 else 0;
  }

  lemma ReceiveOutstanding<E(!new)>(c: Comm<E>, k: nat, prompt: bool, p: nat)
    requires Shape(c) && k < |c.net| && p < |c.ranks|
    ensures Outstanding(Receive(c, k, prompt), p)
         == Outstanding(c, p) - (if c.net[k].dst == p then c.net[k].tag else 0)
  {
    var c' := Receive(c, k, prompt);
    var w := c.net[k];
    OutstandingUpdate(c, w.dst, c'.ranks[w.dst], c'.net, p);
    NetRemove(c.net, k, p);
    if w.body != [] && prompt {
      NetAppend(c.net[..k] + c.net[k + 1..], Wire(w.dst, w.src, 1, []), p);
    }
  }

  lemma ReceiveKeepsAck<E(!new)>(c: Comm<E>, k: nat, prompt: bool)
    requires AckInv(c) && k < |c.net|
    ensures AckInv(Receive(c, k, prompt))
  {
    hide Outstanding;
    var c' := Receive(c, k, prompt);
    forall p | 0 <= p < |c'.ranks|
      ensures c'.ranks[p].ack == Outstanding(c', p)
    {
      ReceiveOutstanding(c, k, prompt, p);
    }
  }

  /** A rank whose counter is zero has no data in flight, and nobody owes it an acknowledgement. */
  lemma ZeroMeansReceived<E(!new)>(c: Comm<E>, p: nat)
    requires AckInv(c) && p < |c.ranks| && c.ranks[p].ack == 0
    ensures forall k :: 0 <= k < |c.net| && c.net[k].src == p ==> c.net[k].body == []
    ensures forall k :: 0 <= k < |c.net| && c.net[k].dst == p ==> c.net[k].tag == 0
    ensures forall r :: 0 <= r < |c.ranks| ==> Delayed(c.ranks[r], p) == 0
  {
    forall k | 0 <= k < |c.net| ensures Owes(c.net[k], p) == 0 {
      CountMember(c.net, k, w => Owes(w, p));
    }
    forall r | 0 <= r < |c.ranks| ensures Delayed(c.ranks[r], p) == 0 {
      CountMember(c.ranks, r, (r: Rank<E>) => Delayed(r, p));
    }
  }

  /** A rank still waiting, to which nobody holds an acknowledgement back, waits for a message in
      flight. */
  lemma WaitingHasWire<E(!new)>(c: Comm<E>, p: nat) returns (k: nat)
    requires AckInv(c) && p < |c.ranks| && c.ranks[p].ack != 0
    requires forall q :: 0 <= q < |c.ranks| ==> c.ranks[q].acks[p] == 0
    ensures k < |c.net| && Owes(c.net[k], p) > 0
  {
    CountZero(c.ranks, r => Delayed(r, p));
    k := CountPositive(c.net, w => Owes(w, p));
  }

  // ----- Conservation of entries -----

  /** How many entries of one buffer or body stand for `f`, where `phi(src, dst, e)` says what an
      entry stands for. */
  function Entries<E, F(==)>(src: nat, dst: nat, b: seq<E>, phi: (nat, nat, E) -> F, f: F): nat {
    Count(b, e => if phi(src, dst, e) == f then 1 else 0)
  }

  function Buffered<E, F(==)>(r: nat, bufs: seq<seq<E>>, phi: (nat, nat, E) -> F, f: F): nat {
    CountAt(bufs, (d, b) => Entries(r, d, b, phi, f))
  }

  function InFlight<E, F(==)>(net: seq<Wire<E>>, phi: (nat, nat, E) -> F, f: F): nat {
    Count(net, (w: Wire<E>) => Entries(w.src, w.dst, w.body, phi, f))
  }

  function Gathered<E, F(==)>(ranks: seq<Rank<E>>, phi: (nat, nat, E) -> F, f: F): nat {
    CountAt(ranks, (r, k: Rank<E>) => Buffered(r, k.bufs, phi, f))
  }

  /** How often the communicator holds `f`, gathered or in flight. */
  function Content<E, F(==)>(c: Comm<E>, phi: (nat, nat, E) -> F, f: F): nat {
    Gathered(c.ranks, phi, f) + InFlight(c.net, phi, f)
  }

  lemma BufferUpdate<E, F>(r: nat, bufs: seq<seq<E>>, d: nat, b: seq<E>, phi: (nat, nat, E) -> F, f: F)
    requires d < |bufs|
    ensures Buffered(r, bufs[d := b], phi, f)
         == Buffered(r, bufs, phi, f) - Entries(r, d, bufs[d], phi, f) + Entries(r, d, b, phi, f)
  {
    CountAtUpdate(bufs, d, b, (d, b) => Entries(r, d, b, phi, f));
  }

  lemma GatheredUpdate<E, F>(ranks: seq<Rank<E>>, r: nat, x: Rank<E>, phi: (nat, nat, E) -> F, f: F)
    requires r < |ranks|
    ensures Gathered(ranks[r := x], phi, f)
         == Gathered(ranks, phi, f) - Buffered(r, ranks[r].bufs, phi, f) + Buffered(r, x.bufs, phi, f)
  {
    CountAtUpdate(ranks, r, x, (r, k: Rank<E>) => Buffered(r, k.bufs, phi, f));
  }

  lemma AppendAdds<E, F>(c: Comm<E>, r: nat, d: nat, e: E, phi: (nat, nat, E) -> F, f: F)
    requires r < |c.ranks| && d < |c.ranks[r].bufs|
    ensures Content(Append(c, r, d, e), phi, f) == Content(c, phi, f) + (if phi(r, d, e) == f then 1 else 0)
  {
    var k := c.ranks[r];
    CountAppend(k.bufs[d], e, e => if phi(r, d, e) == f then 1 else 0);
    BufferUpdate(r, k.bufs, d, k.bufs[d] + [e], phi, f);
    GatheredUpdate(c.ranks, r, Append(c, r, d, e).ranks[r], phi, f);
  }

  lemma FlushKeepsContent<E, F>(c: Comm<E>, r: nat, d: nat, phi: (nat, nat, E) -> F, f: F)
    requires r < |c.ranks| && d < |c.ranks[r].bufs| == |c.ranks[r].acks|
    ensures Content(Flush(c, r, d), phi, f) == Content(c, phi, f)
  {
    var c' := Flush(c, r, d);
    if c' != c {
      var bufs := c.ranks[r].bufs;
      BufferUpdate(r, bufs, d, [], phi, f);
      GatheredUpdate(c.ranks, r, c'.ranks[r], phi, f);
      CountAppend(c.net, c'.net[|c.net|], (w: Wire<E>) => Entries(w.src, w.dst, w.body, phi, f));
    }
  }

  lemma ReceiveRemoves<E, F>(c: Comm<E>, k: nat, prompt: bool, phi: (nat, nat, E) -> F, f: F)
    requires k < |c.net| && c.net[k].dst < |c.ranks| && c.net[k].src < |c.ranks[c.net[k].dst].acks|
    ensures Content(Receive(c, k, prompt), phi, f)
         == Content(c, phi, f) - Entries(c.net[k].src, c.net[k].dst, c.net[k].body, phi, f)
  {
    var c' := Receive(c, k, prompt);
    var w := c.net[k];
    var rest := c.net[..k] + c.net[k + 1..];
    GatheredUpdate(c.ranks, w.dst, c'.ranks[w.dst], phi, f);
    CountRemove(c.net, k, (w: Wire<E>) => Entries(w.src, w.dst, w.body, phi, f));
    CountAppend(rest, Wire(w.dst, w.src, 1, []), (w: Wire<E>) => Entries(w.src, w.dst, w.body, phi, f));
  }

  /** With empty buffers and all counters at zero the communicator holds nothing. */
  lemma QuietIsEmpty<E(!new), F>(c: Comm<E>, phi: (nat, nat, E) -> F, f: F)
    requires AckInv(c)
    requires forall r :: 0 <= r < |c.ranks| ==> c.ranks[r].ack == 0
    requires forall r, d :: 0 <= r < |c.ranks| && 0 <= d < |c.ranks| ==> c.ranks[r].bufs[d] == []
    ensures Content(c, phi, f) == 0
  {
    forall r | 0 <= r < |c.ranks|
      ensures Buffered(r, c.ranks[r].bufs, phi, f) == 0
    {
      CountAtZero(c.ranks[r].bufs, (d, b) => Entries(r, d, b, phi, f));
    }
    forall k | 0 <= k < |c.net|
      ensures c.net[k].body == []
    {
      ZeroMeansReceived(c, c.net[k].src);
    }
    CountAtZero(c.ranks, (r, k: Rank<E>) => Buffered(r, k.bufs, phi, f));
    CountZero(c.net, (w: Wire<E>) => Entries(w.src, w.dst, w.body, phi, f));
  }
}
