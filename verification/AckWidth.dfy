/** The delayed acknowledgements of a communicator as they are kept: in 16 bits. When they wrap, when they
    cannot, and what follows from it. */
module AckWidth {
  import opened AckLink
  import opened Sums

  const WIDTH: nat := 65536

  ghost predicate Narrow<E(!new)>(c: Comm<E>) {
    forall r, p :: 0 <= r < |c.ranks| && 0 <= p < |c.ranks[r].acks| ==> c.ranks[r].acks[p] < WIDTH
  }

  /** Takes message `k` with a delayed acknowledgement that is counted in 16 bits. */
  function Receive16<E>(c: Comm<E>, k: nat, prompt: bool): Comm<E>
    requires k < |c.net| && c.net[k].dst < |c.ranks| && c.net[k].src < |c.ranks[c.net[k].dst].acks|
  {
    var w := c.net[k];
    var r := c.ranks[w.dst];
    if w.body == [] || prompt then Receive(c, k, prompt)
    else
      var counted := r.acks[w.src := (r.acks[w.src] + 1) % WIDTH];
      Comm(c.ranks[w.dst := Rank(r.bufs, counted, r.ack - w.tag)], c.net[..k] + c.net[k + 1..])
  }

  predicate Wraps<E(==)>(c: Comm<E>, k: nat, prompt: bool)
    requires k < |c.net| && c.net[k].dst < |c.ranks| && c.net[k].src < |c.ranks[c.net[k].dst].acks|
  {
    c.net[k].body != [] && !prompt && c.ranks[c.net[k].dst].acks[c.net[k].src] == WIDTH - 1
  }

  /** The count in 16 bits is the unbounded one exactly if it does not wrap. */
  lemma SameIff<E(!new)>(c: Comm<E>, k: nat, prompt: bool)
    requires Shape(c) && Narrow(c) && k < |c.net|
    ensures Receive16(c, k, prompt) == Receive(c, k, prompt) <==> !Wraps(c, k, prompt)
    ensures Narrow(Receive16(c, k, prompt))
  {
    var w := c.net[k];
    var r := c.ranks[w.dst];
    assert r.acks[w.src] < WIDTH;
    if w.body != [] && !prompt {
      assert Receive(c, k, prompt).ranks[w.dst].acks[w.src] == r.acks[w.src] + 1;
      assert Receive16(c, k, prompt).ranks[w.dst].acks[w.src] == (r.acks[w.src] + 1) % WIDTH;
    }
  }

  /** A wrap forgets 65536 acknowledgements that the sender still waits for. */
  lemma WrapForgets<E(!new)>(c: Comm<E>, k: nat, prompt: bool, p: nat)
    requires Shape(c) && Narrow(c) && k < |c.net| && p < |c.ranks|
    ensures Outstanding(Receive16(c, k, prompt), p)
         == Outstanding(Receive(c, k, prompt), p) - if Wraps(c, k, prompt) && c.net[k].src == p then WIDTH else 0
  {
    SameIff(c, k, prompt);
    if Wraps(c, k, prompt) {
      var w := c.net[k];
      var full := Receive(c, k, prompt);
      var x := Receive16(c, k, prompt).ranks[w.dst];
      assert Receive16(c, k, prompt) == Comm(full.ranks[w.dst := x], full.net);
      OutstandingUpdate(full, w.dst, x, full.net, p);
    }
  }

  /** To wrap, 65535 acknowledgements must be held back while one more message of the rank is in flight: its counter
      is at least 65536. */
  lemma WrapNeeds<E(!new)>(c: Comm<E>, k: nat, prompt: bool)
    requires AckInv(c) && k < |c.net| && Wraps(c, k, prompt)
    ensures c.ranks[c.net[k].src].ack >= WIDTH
  {
    var w := c.net[k];
    CountMember(c.net, k, x => Owes(x, w.src));
    CountMember(c.ranks, w.dst, (r: Rank<E>) => Delayed(r, w.src));
  }

  /** While the counter of the sender is below 65536, the count in 16 bits is the unbounded one. */
  lemma SameBelow<E(!new)>(c: Comm<E>, k: nat, prompt: bool)
    requires AckInv(c) && k < |c.net| && c.ranks[c.net[k].src].ack < WIDTH
    ensures Receive16(c, k, prompt) == Receive(c, k, prompt)
  {
    var w := c.net[k];
    CountMember(c.net, k, x => Owes(x, w.src));
    CountMember(c.ranks, w.dst, (r: Rank<E>) => Delayed(r, w.src));
  }

  // ----- Runs of a communicator -----

  datatype Step<E> = DoAppend(r: nat, d: nat, e: E) | DoFlush(r: nat, d: nat) | DoReceive(k: nat, prompt: bool)

  ghost predicate Can<E(!new)>(c: Comm<E>, s: Step<E>)
    requires Shape(c)
  {
    match s
    case DoAppend(r, d, _) => r < |c.ranks| && d < |c.ranks|
    case DoFlush(r, d) => r < |c.ranks| && d < |c.ranks| && r != d
    case DoReceive(k, _) => k < |c.net|
  }

  ghost function After<E(!new)>(c: Comm<E>, s: Step<E>): Comm<E>
    requires Shape(c) && Can(c, s)
  {
    match s
    case DoAppend(r, d, e) => Append(c, r, d, e)
    case DoFlush(r, d) => Flush(c, r, d)
    case DoReceive(k, prompt) => Receive16(c, k, prompt)
  }

  /** A step in which an acknowledgement for rank `p` wraps. */
  ghost predicate Loses<E(!new)>(c: Comm<E>, s: Step<E>, p: nat)
    requires Shape(c) && Can(c, s)
  {
    s.DoReceive? && Wraps(c, s.k, s.prompt) && c.net[s.k].src == p
  }

  /** A step in which rank `p` sends data. */
  ghost predicate SendsData<E(!new)>(c: Comm<E>, s: Step<E>, p: nat)
    requires Shape(c) && Can(c, s)
  {
    s.DoFlush? && s.r == p && c.ranks[p].bufs[s.d] != []
  }

  lemma StepShape<E(!new)>(c: Comm<E>, s: Step<E>)
    requires Shape(c) && Narrow(c) && Can(c, s)
    ensures Shape(After(c, s)) && Narrow(After(c, s)) && |After(c, s).ranks| == |c.ranks|
  {
    if s.DoReceive? {
      SameIff(c, s.k, s.prompt);
    }
  }

  lemma AppendOutstanding<E(!new)>(c: Comm<E>, r: nat, d: nat, e: E, p: nat)
    requires Shape(c) && r < |c.ranks| && d < |c.ranks|
    ensures Outstanding(Append(c, r, d, e), p) == Outstanding(c, p)
  {
    OutstandingUpdate(c, r, Append(c, r, d, e).ranks[r], c.net, p);
  }

  /** How a step moves the counter of rank `p` against what is really on its way to it. */
  lemma StepBalance<E(!new)>(c: Comm<E>, s: Step<E>, p: nat)
    requires Shape(c) && Narrow(c) && Can(c, s) && p < |c.ranks| == |After(c, s).ranks|
    ensures After(c, s).ranks[p].ack - Outstanding(After(c, s), p)
         == c.ranks[p].ack - Outstanding(c, p) + if Loses(c, s, p) then WIDTH else 0
    ensures After(c, s).ranks[p].ack <= c.ranks[p].ack + if SendsData(c, s, p) then 1 else 0
  {
    hide Outstanding;
    match s
    case DoAppend(r, d, e) =>
      AppendOutstanding(c, r, d, e, p);
    case DoFlush(r, d) =>
      if Flush(c, r, d) != c {
        FlushOutstanding(c, r, d, p);
      }
    case DoReceive(k, prompt) =>
      ReceiveOutstanding(c, k, prompt, p);
      WrapForgets(c, k, prompt, p);
  }

  ghost predicate IsRun<E(!new)>(run: seq<Comm<E>>, steps: seq<Step<E>>) {
    && |run| == |steps| + 1 && AckInv(run[0]) && Narrow(run[0])
    && forall i :: 0 <= i < |steps| ==> Shape(run[i]) && Can(run[i], steps[i]) && run[i + 1] == After(run[i], steps[i])
  }

  lemma {:induction false} RunShape<E(!new)>(run: seq<Comm<E>>, steps: seq<Step<E>>, k: nat)
    requires IsRun(run, steps) && k < |run|
    ensures Shape(run[k]) && Narrow(run[k]) && |run[k].ranks| == |run[0].ranks|
  {
    if k > 0 {
      RunShape(run, steps, k - 1);
      StepShape(run[k - 1], steps[k - 1]);
    }
  }

  /** How often an acknowledgement for `p` has wrapped in the first `k` steps. */
  ghost function Lost<E(!new)>(run: seq<Comm<E>>, steps: seq<Step<E>>, k: nat, p: nat): nat
    requires IsRun(run, steps) && k <= |steps|
  {
    if k == 0 then 0 else Lost(run, steps, k - 1, p) + if Loses(run[k - 1], steps[k - 1], p) then 1 else 0
  }

  /** At every moment the counter of a rank is what is on its way to it and 65536 for each wrap. */
  lemma {:induction false} Deficit<E(!new)>(run: seq<Comm<E>>, steps: seq<Step<E>>, k: nat, p: nat)
    requires IsRun(run, steps) && k <= |steps| && p < |run[0].ranks|
    ensures p < |run[k].ranks| && run[k].ranks[p].ack == Outstanding(run[k], p) + WIDTH * Lost(run, steps, k, p)
  {
    hide Outstanding;
    RunShape(run, steps, k);
    if k > 0 {
      RunShape(run, steps, k - 1);
      Deficit(run, steps, k - 1, p);
      StepBalance(run[k - 1], steps[k - 1], p);
    }
  }

  lemma {:induction false} LostGrows<E(!new)>(run: seq<Comm<E>>, steps: seq<Step<E>>, k: nat, m: nat, p: nat)
    requires IsRun(run, steps) && k <= m <= |steps|
    ensures Lost(run, steps, k, p) <= Lost(run, steps, m, p)
  {
    if k < m {
      LostGrows(run, steps, k, m - 1, p);
    }
  }

  /** The balance of the barrier holds exactly as long as nothing has wrapped. After a wrap the counter never falls
      below 65536 again, whatever happens, so no later wait for zero ends. */
  lemma BalancedIff<E(!new)>(run: seq<Comm<E>>, steps: seq<Step<E>>, k: nat, m: nat, p: nat)
    requires IsRun(run, steps) && k <= m <= |steps| && p < |run[0].ranks|
    ensures p < |run[k].ranks| && p < |run[m].ranks|
    ensures run[k].ranks[p].ack == Outstanding(run[k], p) <==> Lost(run, steps, k, p) == 0
    ensures Lost(run, steps, k, p) > 0 ==> run[m].ranks[p].ack >= WIDTH
  {
    hide Outstanding;
    Deficit(run, steps, k, p);
    Deficit(run, steps, m, p);
    LostGrows(run, steps, k, m, p);
    if Lost(run, steps, k, p) > 0 {
      AtLeastOne(Lost(run, steps, m, p));
    }
  }

  lemma AtLeastOne(n: nat)
    requires n > 0
    ensures WIDTH * n >= WIDTH
  {
  }

  // ----- A bound -----

  /** How many times `p` sends data from step `i` up to step `k`. */
  ghost function Sendings<E(!new)>(run: seq<Comm<E>>, steps: seq<Step<E>>, i: nat, k: nat, p: nat): nat
    requires IsRun(run, steps) && i <= k <= |steps|
    decreases k
  {
    if k == i then 0 else Sendings(run, steps, i, k - 1, p) + if SendsData(run[k - 1], steps[k - 1], p) then 1 else 0
  }

  /** A rank that sends data fewer than 65536 times after its counter was zero, which it is in every barrier, loses
      nothing, however its messages and their acknowledgements are delayed. */
  lemma {:induction false} FewLoseNothing<E(!new)>(run: seq<Comm<E>>, steps: seq<Step<E>>, i: nat, k: nat, p: nat)
    requires IsRun(run, steps) && i <= k <= |steps| && p < |run[0].ranks|
    requires Lost(run, steps, i, p) == 0 && p < |run[i].ranks| && run[i].ranks[p].ack == 0
    requires Sendings(run, steps, i, k, p) < WIDTH
    ensures Lost(run, steps, k, p) == 0 && p < |run[k].ranks|
    ensures run[k].ranks[p].ack <= Sendings(run, steps, i, k, p)
    decreases k
  {
    hide Outstanding;
    if i < k {
      FewLoseNothing(run, steps, i, k - 1, p);
      RunShape(run, steps, k - 1);
      RunShape(run, steps, k);
      Deficit(run, steps, k - 1, p);
      StepBalance(run[k - 1], steps[k - 1], p);
    }
  }
}
