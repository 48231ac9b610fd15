/** Failover elections: epochs, votes and tallies over all nodes of a cluster, with messages that may
    be delayed and reordered without bound. The masters that serve slots are a fixed set. */
module ClusterVote {

  /** What one node keeps. `conf[n]` is the configuration epoch it knows for node `n`. */
  datatype Node = Node(currentEpoch: nat, lastVoteEpoch: nat,
                       authEpoch: nat, authCount: nat, authSent: bool, conf: seq<nat>)

  /** Every message carries the sender's current epoch and the configuration epoch it announces for
      itself. */
  datatype Msg =
    | Gossip(src: nat, cur: nat, conf: nat)
    | Update(src: nat, cur: nat, conf: nat, about: nat, epoch: nat)
    | Request(src: nat, cur: nat, conf: nat)

  /** A granted vote; it is also the acknowledgement on its way to the candidate, which announces the
      configuration epoch of the voter. */
  datatype Vote = Vote(voter: nat, epoch: nat, candidate: nat, conf: nat)

  /** An election won. `carry` is what the tally already held when the election was started. */
  datatype Win = Win(candidate: nat, epoch: nat, carry: nat)

  /** `votes` are all votes granted so far, `delivered` those whose acknowledgement has arrived, and
      `carry[n]` the tally of `n` at the start of its last election. */
  datatype State = State(nodes: seq<Node>, net: set<Msg>, votes: set<Vote>, delivered: set<Vote>,
                         carry: seq<nat>, wins: set<Win>)

  function Max(a: nat, b: nat): nat { if a > b then a else b }

  /** On every packet from a known node: adopt a newer current epoch, then a newer configuration
      epoch of the sender. */
  function SeeHeader(x: Node, src: nat, cur: nat, conf: nat): Node
    requires src < |x.conf|
  {
    x.(currentEpoch := Max(x.currentEpoch, cur), conf := x.conf[src := Max(x.conf[src], conf)])
  }

  /** Whether a master that serves slots votes for a request it has just seen. `agrees` stands for
      the tests that do not concern epochs: the candidate is a slave, its master has failed or the
      request is forced, enough time has passed, and no claimed slot has a newer owner. */
  predicate Grants(x: Node, cur: nat, agrees: bool) {
    cur >= x.currentEpoch && x.lastVoteEpoch != x.currentEpoch && agrees
  }

  datatype Action =
    | Send(n: nat, m: Msg)
    | Receive(n: nat, m: Msg)
    | AnswerRequest(n: nat, m: Msg, agrees: bool)
    | TakeAck(v: Vote)
    | Bump(n: nat)
    | ResetTally(n: nat)
    | Ask(n: nat, conf: nat)
    | Finish(n: nat)

  function Quorum(voters: set<nat>): nat { |voters| / 2 + 1 }

  ghost predicate Shape(s: State) {
    && |s.carry| == |s.nodes|
    && (forall n :: 0 <= n < |s.nodes| ==> |s.nodes[n].conf| == |s.nodes|)
    && (forall m :: m in s.net ==> m.src < |s.nodes| && (m.Update? ==> m.about < |s.nodes|))
    && (forall v :: v in s.votes ==> v.voter < |s.nodes| && v.candidate < |s.nodes|)
  }

  /** A message a node may send now: it announces its own epochs, and an update reports what it
      knows. Requests are sent only by `Ask`. */
  predicate Announces(x: Node, n: nat, m: Msg)
    requires n < |x.conf|
  {
    m.src == n && m.cur == x.currentEpoch && !m.Request? && m.conf in x.conf &&
    (m.Update? ==> m.about < |x.conf| && m.epoch == x.conf[m.about])
  }

  ghost predicate Enabled(voters: set<nat>, s: State, a: Action)
    requires Shape(s)
  {
    match a
    case Send(n, m) => n < |s.nodes| && Announces(s.nodes[n], n, m)
    case Receive(n, m) => n < |s.nodes| && m in s.net
    case AnswerRequest(n, m, _) => n < |s.nodes| && n in voters && m in s.net && m.Request?
    case TakeAck(v) => v in s.votes && v !in s.delivered
    case Bump(n) => n < |s.nodes|
    case ResetTally(n) => n < |s.nodes|
    case Ask(n, conf) => n < |s.nodes| && !s.nodes[n].authSent && conf in s.nodes[n].conf
    case Finish(n) => n < |s.nodes| && s.nodes[n].authSent && s.nodes[n].authCount >= Quorum(voters)
  }

  function Set(s: State, n: nat, x: Node): State
    requires n < |s.nodes|
  {
    s.(nodes := s.nodes[n := x])
  }

  ghost function Next(voters: set<nat>, s: State, a: Action): State
    requires Shape(s) && Enabled(voters, s, a)
  {
    match a
    case Send(n, m) => s.(net := s.net + {m})
    case Receive(n, m) =>
      var x := SeeHeader(s.nodes[n], m.src, m.cur, m.conf);
      if m.Update? && x.conf[m.about] < m.epoch
      then Set(s, n, x.(conf := x.conf[m.about := m.epoch]))
      else Set(s, n, x)
    case AnswerRequest(n, m, agrees) =>
      var x := SeeHeader(s.nodes[n], m.src, m.cur, m.conf);
      if Grants(x, m.cur, agrees)
      then Set(s, n, x.(lastVoteEpoch := x.currentEpoch))
             .(votes := s.votes + {Vote(n, x.currentEpoch, m.src, x.conf[n])})
      else Set(s, n, x)
    case TakeAck(v) =>
      // The header of the acknowledgement carries the epoch of the vote.
      var x := SeeHeader(s.nodes[v.candidate], v.voter, v.epoch, v.conf);
      var x' := x.(authCount := if v.epoch >= x.authEpoch then x.authCount + 1 else x.authCount);
      Set(s, v.candidate, x').(delivered := s.delivered + {v})
    case Bump(n) =>
      var x := s.nodes[n];
      Set(s, n, x.(currentEpoch := x.currentEpoch + 1, conf := x.conf[n := x.currentEpoch + 1]))
    case ResetTally(n) => Set(s, n, s.nodes[n].(authCount := 0, authSent := false))
    case Ask(n, conf) =>
      var x := s.nodes[n];
      var e := x.currentEpoch + 1;
      Set(s, n, x.(currentEpoch := e, authEpoch := e, authSent := true))
        .(net := s.net + {Request(n, e, conf)}, carry := s.carry[n := x.authCount])
    case Finish(n) =>
      var x := s.nodes[n];
      Set(s, n, x.(conf := x.conf[n := Max(x.conf[n], x.authEpoch)]))
        .(wins := s.wins + {Win(n, x.authEpoch, s.carry[n])})
  }

  // ----- Invariants -----

  /** The voters whose acknowledgement for this candidate and epoch has arrived. */
  function Backers(d: set<Vote>, candidate: nat, epoch: nat): set<nat> {
    set v | v in d && v.candidate == candidate && v.epoch == epoch :: v.voter
  }

  /** Configuration epochs never exceed the current epoch, at any node and in any message. */
  ghost predicate EpochsBounded(s: State)
    requires Shape(s)
  {
    && (forall n, k :: 0 <= n < |s.nodes| && 0 <= k < |s.nodes| ==> s.nodes[n].conf[k] <= s.nodes[n].currentEpoch)
    && (forall m :: m in s.net ==> m.conf <= m.cur && (m.Update? ==> m.epoch <= m.cur))
    && (forall v :: v in s.votes ==> v.conf <= v.epoch)
  }

  /** A master votes at most once in an epoch, never beyond its last vote. */
  ghost predicate VoteOnce(voters: set<nat>, s: State)
    requires Shape(s)
  {
    && (forall v :: v in s.votes ==> v.voter in voters && v.epoch <= s.nodes[v.voter].lastVoteEpoch)
    && (forall n :: 0 <= n < |s.nodes| ==> s.nodes[n].lastVoteEpoch <= s.nodes[n].currentEpoch)
    && (forall v, w :: v in s.votes && w in s.votes && v.voter == w.voter && v.epoch == w.epoch ==> v == w)
  }

  /** Requests and votes are for elections that their candidate has started. */
  ghost predicate AuthOk(s: State)
    requires Shape(s)
  {
    && (forall n :: 0 <= n < |s.nodes| ==> s.nodes[n].authEpoch <= s.nodes[n].currentEpoch)
    && (forall m :: m in s.net && m.Request? ==> m.cur <= s.nodes[m.src].authEpoch)
    && (forall v :: v in s.votes ==> v.epoch <= s.nodes[v.candidate].authEpoch)
    && s.delivered <= s.votes
  }

  /** While an election runs, the tally is what it held at the start plus one for each voter of this
      very election whose acknowledgement has arrived. */
  ghost predicate TallyOk(s: State)
    requires Shape(s)
  {
    forall n :: 0 <= n < |s.nodes| && s.nodes[n].authSent ==>
      s.nodes[n].authCount == s.carry[n] + |Backers(s.delivered, n, s.nodes[n].authEpoch)|
  }

  /** A recorded win was backed by a quorum, counting what was carried over. */
  ghost predicate WinsOk(voters: set<nat>, s: State)
    requires Shape(s)
  {
    forall w :: w in s.wins ==>
      w.candidate < |s.nodes| && w.carry + |Backers(s.delivered, w.candidate, w.epoch)| >= Quorum(voters)
  }

  ghost predicate Inv(voters: set<nat>, s: State) {
    && Shape(s) && EpochsBounded(s) && VoteOnce(voters, s) && AuthOk(s) && TallyOk(s) && WinsOk(voters, s)
  }

  function Init(n: nat): State {
    State(seq(n, _ => Node(0, 0, 0, 0, false, seq(n, _ => 0))), {}, {}, {}, seq(n, _ => 0), {})
  }

  lemma InitInv(voters: set<nat>, n: nat)
    ensures Inv(voters, Init(n))
  {
  }

  lemma StepShape(voters: set<nat>, s: State, a: Action)
    requires Shape(s) && Enabled(voters, s, a)
    ensures Shape(Next(voters, s, a))
  {
  }

  lemma StepEpochs(voters: set<nat>, s: State, a: Action)
    requires Shape(s) && EpochsBounded(s) && AuthOk(s) && Enabled(voters, s, a) && Shape(Next(voters, s, a))
    ensures EpochsBounded(Next(voters, s, a))
  {
  }

  lemma StepVoteOnce(voters: set<nat>, s: State, a: Action)
    requires Shape(s) && VoteOnce(voters, s) && Enabled(voters, s, a) && Shape(Next(voters, s, a))
    ensures VoteOnce(voters, Next(voters, s, a))
  {
  }

  lemma StepAuth(voters: set<nat>, s: State, a: Action)
    requires Shape(s) && AuthOk(s) && Enabled(voters, s, a) && Shape(Next(voters, s, a))
    ensures AuthOk(Next(voters, s, a))
  {
  }

  /** A newly arrived acknowledgement adds one backer to its own election and to no other. */
  lemma BackersAdd(d: set<Vote>, v: Vote, candidate: nat, epoch: nat)
    requires forall w :: w in d ==> w.voter != v.voter || w.epoch != v.epoch
    ensures var b, b' := Backers(d, candidate, epoch), Backers(d + {v}, candidate, epoch);
            if v.candidate == candidate && v.epoch == epoch then |b'| == |b| + 1 else b' == b
  {
    var b, b' := Backers(d, candidate, epoch), Backers(d + {v}, candidate, epoch);
    if v.candidate == candidate && v.epoch == epoch {
      assert v.voter !in b;
      assert b' == b + {v.voter};
    }
  }

  lemma NoBackers(s: State, candidate: nat, epoch: nat)
    requires Shape(s) && AuthOk(s) && candidate < |s.nodes| && epoch > s.nodes[candidate].authEpoch
    ensures Backers(s.delivered, candidate, epoch) == {}
  {
  }

  lemma StepTally(voters: set<nat>, s: State, a: Action)
    requires Shape(s) && VoteOnce(voters, s) && AuthOk(s) && TallyOk(s)
    requires Enabled(voters, s, a) && Shape(Next(voters, s, a))
    ensures TallyOk(Next(voters, s, a))
  {
    hide Backers;
    if a.TakeAck? {
      AckTally(voters, s, a.v);
    } else if a.Ask? {
      NoBackers(s, a.n, s.nodes[a.n].currentEpoch + 1);
    }
  }

  /** An acknowledgement that is counted is one of the running election. */
  lemma AckTally(voters: set<nat>, s: State, v: Vote)
    requires Shape(s) && VoteOnce(voters, s) && AuthOk(s) && TallyOk(s)
    requires Enabled(voters, s, TakeAck(v)) && Shape(Next(voters, s, TakeAck(v)))
    ensures TallyOk(Next(voters, s, TakeAck(v)))
  {
    hide Backers;
    var s' := Next(voters, s, TakeAck(v));
    forall n | 0 <= n < |s'.nodes| && s'.nodes[n].authSent
      ensures s'.nodes[n].authCount == s'.carry[n] + |Backers(s'.delivered, n, s'.nodes[n].authEpoch)|
    {
      BackersAdd(s.delivered, v, n, s.nodes[n].authEpoch);
    }
  }

  lemma StepWins(voters: set<nat>, s: State, a: Action)
    requires Shape(s) && VoteOnce(voters, s) && AuthOk(s) && TallyOk(s) && WinsOk(voters, s)
    requires Enabled(voters, s, a) && Shape(Next(voters, s, a))
    ensures WinsOk(voters, Next(voters, s, a))
  {
    var s' := Next(voters, s, a);
    forall w | w in s'.wins
      ensures w.candidate < |s'.nodes| && w.carry + |Backers(s'.delivered, w.candidate, w.epoch)| >= Quorum(voters)
    {
      if a.TakeAck? {
        BackersAdd(s.delivered, a.v, w.candidate, w.epoch);
      }
    }
  }

  /** Every step keeps the invariant. */
  lemma StepInv(voters: set<nat>, s: State, a: Action)
    requires Inv(voters, s) && Enabled(voters, s, a)
    ensures Inv(voters, Next(voters, s, a))
  {
    hide EpochsBounded, VoteOnce, AuthOk, TallyOk, WinsOk, Next;
    StepShape(voters, s, a);
    StepEpochs(voters, s, a);
    StepVoteOnce(voters, s, a);
    StepAuth(voters, s, a);
    StepTally(voters, s, a);
    StepWins(voters, s, a);
  }

  // ----- Runs -----

  ghost predicate IsStep(voters: set<nat>, s: State, s': State) {
    Shape(s) && exists a :: Enabled(voters, s, a) && s' == Next(voters, s, a)
  }

  ghost predicate IsRun(voters: set<nat>, n: nat, run: seq<State>) {
    && run != [] && run[0] == Init(n)
    && forall i :: 0 <= i < |run| - 1 ==> IsStep(voters, run[i], run[i + 1])
  }

  lemma {:induction false} RunInv(voters: set<nat>, n: nat, run: seq<State>, k: nat)
    requires IsRun(voters, n, run) && k < |run|
    ensures Inv(voters, run[k])
  {
    if k == 0 {
      InitInv(voters, n);
    } else {
      hide Inv;
      RunInv(voters, n, run, k - 1);
      assert IsStep(voters, run[k - 1], run[k - 1 + 1]);
      var a :| Enabled(voters, run[k - 1], a) && run[k] == Next(voters, run[k - 1], a);
      StepInv(voters, run[k - 1], a);
    }
  }

  /** In every run a master grants at most one vote per epoch. */
  lemma OneVotePerEpoch(voters: set<nat>, n: nat, run: seq<State>, k: nat, v: Vote, w: Vote)
    requires IsRun(voters, n, run) && k < |run|
    requires v in run[k].votes && w in run[k].votes && v.voter == w.voter && v.epoch == w.epoch
    ensures v.candidate == w.candidate
  {
    RunInv(voters, n, run, k);
  }

  /** In every run, at every node and in every message, configuration epochs stay at or below the
      current epoch. */
  lemma ConfigBelowCurrent(voters: set<nat>, n: nat, run: seq<State>, k: nat)
    requires IsRun(voters, n, run) && k < |run|
    ensures Shape(run[k]) && EpochsBounded(run[k])
  {
    RunInv(voters, n, run, k);
  }

  /** The tally of a running election counts votes of that election only, exactly if it was zero when
      the election was started. */
  lemma TallyExact(voters: set<nat>, n: nat, run: seq<State>, k: nat, c: nat)
    requires IsRun(voters, n, run) && k < |run|
    ensures Shape(run[k])
    ensures c < |run[k].nodes| && run[k].nodes[c].authSent ==>
              (run[k].nodes[c].authCount == |Backers(run[k].delivered, c, run[k].nodes[c].authEpoch)|
               <==> run[k].carry[c] == 0)
  {
    RunInv(voters, n, run, k);
  }

  /** Two elections started with an empty tally are never won in the same epoch by different
      candidates. */
  lemma OneWinnerPerEpoch(voters: set<nat>, n: nat, run: seq<State>, k: nat, v: Win, w: Win)
    requires IsRun(voters, n, run) && k < |run|
    requires v in run[k].wins && w in run[k].wins && v.epoch == w.epoch
    requires v.carry == 0 && w.carry == 0
    ensures v.candidate == w.candidate
  {
    var s := run[k];
    RunInv(voters, n, run, k);
    var x := QuorumsMeet(voters, Backers(s.delivered, v.candidate, v.epoch),
      Backers(s.delivered, w.candidate, w.epoch));
    var a :| a in s.delivered && a.candidate == v.candidate && a.epoch == v.epoch && a.voter == x;
    var b :| b in s.delivered && b.candidate == w.candidate && b.epoch == w.epoch && b.voter == x;
    assert a == b;
  }

  /** The acknowledgement `v` arrives in this step and is counted. */
  predicate Arrives(s: State, s': State, v: Vote) {
    && v in s'.delivered && v !in s.delivered
    && v.candidate < |s.nodes| && v.epoch >= s.nodes[v.candidate].authEpoch
  }

  /** No acknowledgement of the last election is counted after the tally was reset and before the next election
      has raised the epoch. */
  ghost predicate Timely(run: seq<State>) {
    forall i, v :: 0 <= i < |run| - 1 && Arrives(run[i], run[i + 1], v) ==> run[i].nodes[v.candidate].authSent
  }

  /** Tallies are empty when elections start. */
  ghost predicate Fresh(s: State) {
    && |s.carry| == |s.nodes|
    && (forall c :: 0 <= c < |s.nodes| ==> s.carry[c] == 0 && (s.nodes[c].authSent || s.nodes[c].authCount == 0))
    && (forall w :: w in s.wins ==> w.carry == 0)
  }

  lemma StepFresh(voters: set<nat>, s: State, a: Action)
    requires Shape(s) && Enabled(voters, s, a) && Fresh(s)
    requires forall v :: Arrives(s, Next(voters, s, a), v) ==> s.nodes[v.candidate].authSent
    ensures Fresh(Next(voters, s, a))
  {
    if a.TakeAck? {
      assert a.v.epoch >= s.nodes[a.v.candidate].authEpoch ==> Arrives(s, Next(voters, s, a), a.v);
    }
  }

  /** If acknowledgements are timely, nothing is carried from one election into the next. */
  lemma {:induction false} TimelyIsFresh(voters: set<nat>, n: nat, run: seq<State>, k: nat)
    requires IsRun(voters, n, run) && Timely(run) && k < |run|
    ensures Fresh(run[k])
  {
    if k > 0 {
      TimelyIsFresh(voters, n, run, k - 1);
      hide Fresh, Next;
      assert IsStep(voters, run[k - 1], run[k - 1 + 1]);
      var a :| Enabled(voters, run[k - 1], a) && run[k] == Next(voters, run[k - 1], a);
      forall v | Arrives(run[k - 1], run[k], v) ensures run[k - 1].nodes[v.candidate].authSent {
        assert Arrives(run[k - 1], run[k - 1 + 1], v);
      }
      StepFresh(voters, run[k - 1], a);
    }
  }

  /** In every run with timely acknowledgements no epoch has two winners. */
  lemma TimelyOneWinner(voters: set<nat>, n: nat, run: seq<State>, k: nat, v: Win, w: Win)
    requires IsRun(voters, n, run) && Timely(run) && k < |run|
    requires v in run[k].wins && w in run[k].wins && v.epoch == w.epoch
    ensures v.candidate == w.candidate
  {
    TimelyIsFresh(voters, n, run, k);
    OneWinnerPerEpoch(voters, n, run, k, v, w);
  }

  lemma QuorumsMeet(voters: set<nat>, b: set<nat>, c: set<nat>) returns (x: nat)
    requires b <= voters && c <= voters && |b| >= Quorum(voters) && |c| >= Quorum(voters)
    ensures x in b && x in c
  {
    SubsetSize(b + c, voters);
    assert |b + c| == |b| + |c| - |b * c|;
    x :| x in b * c;
  }

  lemma {:induction false} SubsetSize(a: set<nat>, b: set<nat>)
    requires a <= b
    ensures |a| <= |b|
  {
    if a != {} {
      var x :| x in a;
      SubsetSize(a - {x}, b - {x});
    }
  }

  // ----- A tally that was not empty -----

  lemma Extend(voters: set<nat>, n: nat, run: seq<State>, a: Action) returns (run': seq<State>)
    requires run != [] && IsRun(voters, n, run) && Shape(run[|run| - 1]) && Enabled(voters, run[|run| - 1], a)
    ensures run' != [] && IsRun(voters, n, run') && Shape(run'[|run'| - 1])
            && run'[|run'| - 1] == Next(voters, run[|run| - 1], a)
  {
    run' := run + [Next(voters, run[|run| - 1], a)];
    StepShape(voters, run[|run| - 1], a);
    forall i | 0 <= i < |run'| - 1
      ensures IsStep(voters, run'[i], run'[i + 1])
    {
      if i < |run| - 1 {
        assert IsStep(voters, run[i], run[i + 1]);
      }
    }
  }

  /** The part of node `n` that the run below depends on. */
  ghost predicate At(s: State, n: nat, cur: nat, lastVote: nat, authEpoch: nat, authCount: nat, authSent: bool) {
    && n < |s.nodes| && s.nodes[n].conf == [0, 0, 0, 0, 0]
    && s.nodes[n].currentEpoch == cur && s.nodes[n].lastVoteEpoch == lastVote
    && s.nodes[n].authEpoch == authEpoch && s.nodes[n].authCount == authCount && s.nodes[n].authSent == authSent
  }

  ghost predicate Ends(run: seq<State>) {
    run != [] && IsRun({0, 1, 2}, 5, run) && Shape(run[|run| - 1]) && |run[|run| - 1].nodes| == 5
  }

  lemma Beginning() returns (run: seq<State>)
    ensures Ends(run)
    ensures var s := run[|run| - 1];
            && At(s, 0, 0, 0, 0, 0, false) && At(s, 1, 0, 0, 0, 0, false) && At(s, 2, 0, 0, 0, 0, false)
            && At(s, 3, 0, 0, 0, 0, false) && At(s, 4, 0, 0, 0, 0, false)
            && s.net == {} && s.votes == {} && s.delivered == {} && s.carry == [0, 0, 0, 0, 0]
  {
    InitInv({0, 1, 2}, 5);
    run := [Init(5)];
  }

  /** Three masters (0, 1, 2) and two slaves (3, 4). Node 3 starts an election for epoch 1; node 0
      votes for it. */
  lemma FirstElection() returns (run: seq<State>)
    ensures Ends(run)
    ensures var s := run[|run| - 1];
            && At(s, 0, 1, 1, 0, 0, false) && At(s, 1, 0, 0, 0, 0, false) && At(s, 2, 0, 0, 0, 0, false)
            && At(s, 3, 1, 0, 1, 0, true) && At(s, 4, 0, 0, 0, 0, false)
            && s.net == {Request(3, 1, 0)} && s.votes == {Vote(0, 1, 3, 0)} && s.delivered == {}
            && s.carry == [0, 0, 0, 0, 0]
  {
    run := Beginning();
    hide IsRun, Shape;
    assert run[|run| - 1].nodes[3].conf[0] == 0;
    run := Extend({0, 1, 2}, 5, run, Ask(3, 0));
    run := Extend({0, 1, 2}, 5, run, AnswerRequest(0, Request(3, 1, 0), true));
  }

  /** The vote arrives after the tally of node 3 was reset and before its next election starts. */
  lemma LateAck() returns (run: seq<State>)
    ensures Ends(run)
    ensures var s := run[|run| - 1];
            && At(s, 0, 1, 1, 0, 0, false) && At(s, 1, 0, 0, 0, 0, false) && At(s, 2, 0, 0, 0, 0, false)
            && At(s, 3, 2, 0, 2, 1, true) && At(s, 4, 0, 0, 0, 0, false)
            && s.net == {Request(3, 1, 0), Request(3, 2, 0)}
            && s.votes == s.delivered == {Vote(0, 1, 3, 0)} && s.carry == [0, 0, 0, 1, 0]
  {
    run := FirstElection();
    hide IsRun, Shape;
    run := Extend({0, 1, 2}, 5, run, ResetTally(3));
    run := Extend({0, 1, 2}, 5, run, TakeAck(Vote(0, 1, 3, 0)));
    assert run[|run| - 1].nodes[3].conf[0] == 0;
    run := Extend({0, 1, 2}, 5, run, Ask(3, 0));
  }

  /** One more vote, now in epoch 2, makes node 3 a winner. */
  lemma StaleWin() returns (run: seq<State>)
    ensures Ends(run)
    ensures var s := run[|run| - 1];
            && At(s, 0, 1, 1, 0, 0, false) && At(s, 2, 0, 0, 0, 0, false) && At(s, 4, 0, 0, 0, 0, false)
            && Request(3, 1, 0) in s.net && s.votes == s.delivered == {Vote(0, 1, 3, 0), Vote(1, 2, 3, 0)}
            && s.carry == [0, 0, 0, 1, 0] && Win(3, 2, 1) in s.wins
  {
    assert |{0, 1, 2}| == 3;
    run := LateAck();
    hide IsRun, Shape;
    run := Extend({0, 1, 2}, 5, run, AnswerRequest(1, Request(3, 2, 0), true));
    run := Extend({0, 1, 2}, 5, run, TakeAck(Vote(1, 2, 3, 0)));
    run := Extend({0, 1, 2}, 5, run, Finish(3));
  }

  /** Node 4 starts its own election for epoch 2 and has the votes of the two other masters. */
  lemma RivalElection() returns (run: seq<State>)
    ensures Ends(run)
    ensures var s := run[|run| - 1];
            && At(s, 4, 2, 0, 2, 0, true) && s.carry == [0, 0, 0, 1, 0]
            && Vote(0, 2, 4, 0) in s.votes && Vote(2, 2, 4, 0) in s.votes
            && s.delivered == {Vote(0, 1, 3, 0), Vote(1, 2, 3, 0)} && Win(3, 2, 1) in s.wins
  {
    run := StaleWin();
    hide IsRun, Shape;
    run := Extend({0, 1, 2}, 5, run, Receive(4, Request(3, 1, 0)));
    assert run[|run| - 1].nodes[4].conf[0] == 0;
    run := Extend({0, 1, 2}, 5, run, Ask(4, 0));
    run := Extend({0, 1, 2}, 5, run, AnswerRequest(0, Request(4, 2, 0), true));
    run := Extend({0, 1, 2}, 5, run, AnswerRequest(2, Request(4, 2, 0), true));
  }

  /** Both slaves have won epoch 2: without an empty tally at the start of an election, uniqueness
      fails. */
  lemma TwoWinners() returns (run: seq<State>)
    ensures run != [] && IsRun({0, 1, 2}, 5, run)
    ensures Win(3, 2, 1) in run[|run| - 1].wins && Win(4, 2, 0) in run[|run| - 1].wins
  {
    assert |{0, 1, 2}| == 3;
    run := RivalElection();
    hide IsRun, Shape;
    run := Extend({0, 1, 2}, 5, run, TakeAck(Vote(0, 2, 4, 0)));
    run := Extend({0, 1, 2}, 5, run, TakeAck(Vote(2, 2, 4, 0)));
    run := Extend({0, 1, 2}, 5, run, Finish(4));
  }
}
