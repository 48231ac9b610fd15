/** A run of the active-message layer in which the delayed acknowledgements of one process reach any number. */
module AmlWrap {
  import opened AckLink
  import AckWidth
  import opened Aml
  import opened AmlRoute
  import opened AmlProgress

  /** Two groups of one process each. */
  function Two(): Topo {
    Topo(2, 1, true)
  }

  function Message(data: seq<nat>): Flight {
    Flight(Pid(0, 0), Pid(1, 0), 0, data, 0)
  }

  function Copies(data: seq<nat>, n: nat): multiset<Flight> {
    multiset{}[Message(data) := n]
  }

  function Entry(data: seq<nat>): Item {
    Item(0, 0, data, 0)
  }

  /** The communicator between the groups: `own` counts what process 0 waits for, `delayed` what process 1 holds
      back, `buf` is what process 0 has gathered. */
  function Between(own: nat, delayed: nat, buf: seq<Item>, net: seq<Wire<Item>>): Comm<Item> {
    Comm([Rank([[], buf], [0, 0], own), Rank([[], []], [delayed, 0], 0)], net)
  }

  function Stands(e: Comm<Item>, held: seq<Held>, sent: multiset<Flight>, ran: multiset<Flight>): State {
    State([e], [EmptyComm(1), EmptyComm(1)], [[Ctl(Running, 0, [])], [Ctl(Running, 0, held)]], sent, sent, ran)
  }

  /** After `n` messages that were received, run and not yet acknowledged. */
  function AfterMany(data: seq<nat>, n: nat): State {
    Stands(Between(n, n, [], []), [], Copies(data, n), Copies(data, n))
  }

  /** One more of them is received and not yet handled. */
  function Received(data: seq<nat>, n: nat): State {
    Stands(Between(n + 1, n + 1, [], []), [Held(0, Entry(data))], Copies(data, n + 1), Copies(data, n))
  }

  lemma ExtendRun(t: Topo, run: seq<State>, p: Pid, a: Action) returns (more: seq<State>)
    requires IsRun(t, run) && In(t, p) && StateShape(t, run[|run| - 1]) && Enabled(t, run[|run| - 1], p, a)
    ensures more == run + [Next(t, run[|run| - 1], p, a)] && IsRun(t, more) && StateShape(t, more[|run|])
  {
    hide StateShape, Enabled, Next, Init;
    more := run + [Next(t, run[|run| - 1], p, a)];
    forall i | 0 <= i < |more| - 1 ensures IsStep(t, more[i], more[i + 1]) {
      if i < |run| - 1 {
        assert IsStep(t, run[i], run[i + 1]);
      }
    }
    RunShape(t, more, |run|);
  }

  lemma Zeros()
    ensures SignedByte(0) == 0 && Reach(Two(), 0) == 0
  {
  }

  lemma OneMore(data: seq<nat>, n: nat)
    ensures Copies(data, n) + multiset{Message(data)} == Copies(data, n + 1)
  {
  }

  lemma AppendBetween(n: nat, e: Item)
    ensures Append(Between(n, n, [], []), 0, 1, e) == Between(n, n, [e], [])
  {
    var none: seq<seq<Item>> := [[], []];
    assert none[1] + [e] == [e] && none[1 := [e]] == [[], [e]];
    var c := Between(n, n, [], []);
    assert c.ranks[0 := Rank([[], [e]], [0, 0], n)] == Between(n, n, [e], []).ranks;
  }

  lemma FlushBetween(n: nat, e: Item)
    ensures Flush(Between(n, n, [e], []), 0, 1) == Between(n + 1, n, [], [Wire(0, 1, 0, [e])])
  {
    var full: seq<seq<Item>> := [[], [e]];
    assert full[1 := []] == [[], []] && [0, 0][1 := 0] == [0, 0];
    var c := Between(n, n, [e], []);
    assert c.ranks[0 := Rank([[], []], [0, 0], n + 1)] == Between(n + 1, n, [], []).ranks;
    assert c.net + [Wire(0, 1, 0, [e])] == [Wire(0, 1, 0, [e])];
  }

  lemma ReceiveBetween(n: nat, e: Item)
    ensures Receive(Between(n + 1, n, [], [Wire(0, 1, 0, [e])]), 0, false) == Between(n + 1, n + 1, [], [])
  {
    assert [n, 0][0 := n + 1] == [n + 1, 0];
    var c := Between(n + 1, n, [], [Wire(0, 1, 0, [e])]);
    assert c.ranks[1 := Rank([[], []], [n + 1, 0], 0)] == Between(n + 1, n + 1, [], []).ranks;
    assert c.net[..0] + c.net[1..] == [];
  }

  /** What a step of process `g` makes of the state. */
  lemma Applied(e: Comm<Item>, sent: multiset<Flight>, ran: multiset<Flight>, held: seq<Held>, g: nat, e': Comm<Item>,
      x: seq<Held>, more: multiset<Flight>, done: multiset<Flight>)
    requires g < 2 && (g == 0 ==> x == [])
    ensures Apply(Stands(e, held, sent, ran), Pid(g, 0),
                  Effect(e', EmptyComm(1), Ctl(Running, 0, x), more, more, done))
         == Stands(e', if g == 0 then held else x, sent + more, ran + done)
  {
    var s := Stands(e, held, sent, ran);
    var c: Ctl := Ctl(Running, 0, x);
    assert s.inter[0 := e'] == [e'];
    assert s.intra[g := EmptyComm(1)] == s.intra;
    assert s.ctl[g][0 := c] == [c];
    assert s.ctl[g := [c]] == [[Ctl(Running, 0, [])], [Ctl(Running, 0, if g == 0 then held else x)]];
  }

  ghost predicate Fits(data: seq<nat>) {
    |data| + HDR_INTRA <= AGGR
  }

  lemma BytesNone()
    ensures Bytes([], HDR) == 0
  {
  }

  /** One more message is sent... */
  lemma SendOne(data: seq<nat>, n: nat)
    requires Fits(data) && StateShape(Two(), AfterMany(data, n))
    ensures var s, a := AfterMany(data, n), Send(Pid(1, 0), 0, data);
            && Enabled(Two(), s, Pid(0, 0), a)
            && Next(Two(), s, Pid(0, 0), a)
               == Stands(Between(n, n, [Entry(data)], []), [], Copies(data, n + 1), Copies(data, n))
  {
    hide SignedByte, Reach, StateShape, CommShape, Apply;
    Zeros();
    BytesNone();
    AppendBetween(n, Entry(data));
    OneMore(data, n);
    Applied(Between(n, n, [], []), Copies(data, n), Copies(data, n), [], 0, Between(n, n, [Entry(data)], []), [],
      multiset{Message(data)}, multiset{});
  }

  /** ...flushed... */
  lemma FlushOne(data: seq<nat>, n: nat, sent: multiset<Flight>, ran: multiset<Flight>)
    requires var s := Stands(Between(n, n, [Entry(data)], []), [], sent, ran); StateShape(Two(), s)
    ensures var s, a := Stands(Between(n, n, [Entry(data)], []), [], sent, ran), FlushTo(1);
            && Enabled(Two(), s, Pid(0, 0), a)
            && Next(Two(), s, Pid(0, 0), a)
               == Stands(Between(n + 1, n, [], [Wire(0, 1, 0, [Entry(data)])]), [], sent, ran)
  {
    hide StateShape, CommShape, Between, Apply, Flush;
    FlushBetween(n, Entry(data));
    Applied(Between(n, n, [Entry(data)], []), sent, ran, [], 0,
      Between(n + 1, n, [], [Wire(0, 1, 0, [Entry(data)])]), [], multiset{}, multiset{});
  }

  /** ...received outside a barrier... */
  lemma PollOne(data: seq<nat>, n: nat, sent: multiset<Flight>, ran: multiset<Flight>)
    requires var s := Stands(Between(n + 1, n, [], [Wire(0, 1, 0, [Entry(data)])]), [], sent, ran); StateShape(Two(), s)
    ensures var s, a := Stands(Between(n + 1, n, [], [Wire(0, 1, 0, [Entry(data)])]), [], sent, ran), Poll(0);
            && Enabled(Two(), s, Pid(1, 0), a)
            && Next(Two(), s, Pid(1, 0), a)
               == Stands(Between(n + 1, n + 1, [], []), [Held(0, Entry(data))], sent, ran)
  {
    hide StateShape, CommShape, Apply, Receive;
    ReceiveBetween(n, Entry(data));
    assert Take(0, [Entry(data)]) == [Held(0, Entry(data))];
    Applied(Between(n + 1, n, [], [Wire(0, 1, 0, [Entry(data)])]), sent, ran, [], 1,
      Between(n + 1, n + 1, [], []), [Held(0, Entry(data))], multiset{}, multiset{});
  }

  /** ...and its handler runs. */
  lemma ProcessOne(data: seq<nat>, n: nat)
    requires StateShape(Two(), Received(data, n))
    ensures var s := Received(data, n);
            && Enabled(Two(), s, Pid(1, 0), Process)
            && Next(Two(), s, Pid(1, 0), Process) == AfterMany(data, n + 1)
  {
    hide SignedByte, Reach, StateShape, CommShape, Between, Apply;
    Zeros();
    OneMore(data, n);
    var held := [Held(0, Entry(data))];
    assert held[1..] == [];
    Applied(Between(n + 1, n + 1, [], []), Copies(data, n + 1), Copies(data, n), held, 1,
      Between(n + 1, n + 1, [], []), [], multiset{}, multiset{Message(data)});
  }

  /** For every number there is a run in which process 1, outside any barrier and with nothing to send, holds back
      that many acknowledgements. */
  lemma {:induction false} ManyDelayed(data: seq<nat>, n: nat) returns (run: seq<State>)
    requires Fits(data)
    ensures IsRun(Two(), run) && run[|run| - 1] == AfterMany(data, n)
  {
    hide StateShape, Enabled, Next, Fits, Between;
    if n == 0 {
      Nothing(data);
      run := [AfterMany(data, 0)];
    } else {
      run := ManyDelayed(data, n - 1);
      RunShape(Two(), run, |run| - 1);
      SendOne(data, n - 1);
      run := ExtendRun(Two(), run, Pid(0, 0), Send(Pid(1, 0), 0, data));
      FlushOne(data, n - 1, Copies(data, n), Copies(data, n - 1));
      run := ExtendRun(Two(), run, Pid(0, 0), FlushTo(1));
      PollOne(data, n - 1, Copies(data, n), Copies(data, n - 1));
      run := ExtendRun(Two(), run, Pid(1, 0), Poll(0));
      ProcessOne(data, n - 1);
      run := ExtendRun(Two(), run, Pid(1, 0), Process);
    }
  }

  lemma Nothing(data: seq<nat>)
    ensures Init(Two()) == AfterMany(data, 0)
  {
    var none: seq<seq<Item>> := seq(2, _ => []);
    assert none == [[], []] && seq(2, _ => 0) == [0, 0];
    var t, c := Two(), Ctl(Running, 0, []);
    assert EmptyComm(2).ranks == [Rank(none, [0, 0], 0), Rank(none, [0, 0], 0)];
    assert Init(t).inter == [EmptyComm(2)];
    assert Init(t).intra == [EmptyComm(1), EmptyComm(1)];
    assert seq(1, _ => c) == [c];
    assert Init(t).ctl == [[c], [c]];
  }

  /** So a run of two processes leads to where the next message that is received wraps the counter. */
  lemma WrapReached(data: seq<nat>) returns (run: seq<State>)
    requires Fits(data)
    ensures IsRun(Two(), run) && StateShape(Two(), run[|run| - 1]) && Enabled(Two(), run[|run| - 1], Pid(1, 0), Poll(0))
    ensures AckWidth.Wraps(run[|run| - 1].inter[0], 0, InBarrier(C(run[|run| - 1], Pid(1, 0)).stage))
  {
    hide StateShape, Enabled, Next, Fits;
    var n := AckWidth.WIDTH - 1;
    run := ManyDelayed(data, n);
    RunShape(Two(), run, |run| - 1);
    SendOne(data, n);
    run := ExtendRun(Two(), run, Pid(0, 0), Send(Pid(1, 0), 0, data));
    FlushOne(data, n, Copies(data, n + 1), Copies(data, n));
    run := ExtendRun(Two(), run, Pid(0, 0), FlushTo(1));
    PollOne(data, n, Copies(data, n + 1), Copies(data, n));
  }
}
