/** The first barrier of the parallel sort and what the cores do right behind it when there are few elements: every
    core reads the length of the output, and the main core, which sorts alone, takes the output away. No barrier
    lies between the two. */
module PsrsRace {
  import opened CpuBarrier

  /** `there` says that the output is set, `seen` which cores have read its length, `crashed` that one of them
      found no output. */
  datatype Sort = Sort(barrier: State, there: bool, seen: seq<bool>, crashed: bool)

  function Begin(n: nat): Sort {
    Sort(State(false, seq(n, _ => Core(Outside, false, 0, 0))), true, seq(n, _ => false), false)
  }

  /** The next step of a core: in the barrier until it has left it, then the read, then, for the main core, the
      end of the sort. */
  function Turn(s: Sort, c: nat): (s': Sort)
    requires c < |s.barrier.cores| == |s.seen|
    ensures |s'.barrier.cores| == |s'.seen| == |s.seen|
  {
    if s.barrier.cores[c].left == 0 then s.(barrier := After(s.barrier, c))
    else if !s.seen[c] then s.(seen := s.seen[c := true], crashed := s.crashed || !s.there)
    else if c == MAIN then s.(there := false)
    else s
  }

  predicate Valid(who: seq<nat>, n: nat) {
    forall k :: 0 <= k < |who| ==> who[k] < n
  }

  /** The state after the cores `who` took their steps in turn. */
  function Exec(n: nat, who: seq<nat>): (s: Sort)
    requires Valid(who, n)
    ensures |s.barrier.cores| == |s.seen| == n
  {
    if who == [] then Begin(n) else Turn(Exec(n, who[..|who| - 1]), who[|who| - 1])
  }

  lemma ExecOne(n: nat, who: seq<nat>, c: nat)
    requires Valid(who, n) && c < n
    ensures Valid(who + [c], n) && Exec(n, who + [c]) == Turn(Exec(n, who), c)
  {
    assert (who + [c])[..|who|] == who;
  }

  // ----- One core alone -----

  lemma {:induction false} AloneIsSafe(who: seq<nat>)
    requires Valid(who, 1)
    ensures var s := Exec(1, who); !s.crashed && (!s.there ==> s.seen[MAIN])
  {
    if who != [] {
      AloneIsSafe(who[..|who| - 1]);
    }
  }

  // ----- A run that crashes -----

  function Upto(k: nat): seq<nat> {
    seq(k, c requires 0 <= c < k => c)
  }

  function Inside(c: nat): Core {
    Core(if c == MAIN then WriteStart else AwaitStart, false, 1, 0)
  }

  function EnteredCores(n: nat, k: nat): seq<Core> {
    seq(n, c requires 0 <= c < n => if c < k then Inside(c) else Core(Outside, false, 0, 0))
  }

  function EnteredSort(n: nat, k: nat): (s: Sort)
    ensures |s.barrier.cores| == |s.seen| == n
  {
    Sort(State(false, EnteredCores(n, k)), true, seq(n, _ => false), false)
  }

  lemma EnterOne(n: nat, k: nat)
    requires k < n
    ensures Turn(EnteredSort(n, k), k) == EnteredSort(n, k + 1)
  {
    assert EnteredCores(n, k + 1) == EnteredCores(n, k)[k := Inside(k)];
  }

  /** All cores enter the barrier. */
  lemma {:induction false} AllEnter(n: nat, k: nat)
    requires k <= n
    ensures Valid(Upto(k), n) && Exec(n, Upto(k)) == EnteredSort(n, k)
  {
    if k == 0 {
      assert EnteredCores(n, 0) == Begin(n).barrier.cores;
    } else {
      hide Exec, EnteredSort, Turn;
      AllEnter(n, k - 1);
      assert Upto(k) == Upto(k - 1) + [k - 1];
      ExecOne(n, Upto(k - 1), k - 1);
      EnterOne(n, k - 1);
    }
  }

  /** All have entered once; nobody has read yet. */
  ghost predicate Ready(s: Sort, n: nat) {
    && Inv(s.barrier) && |s.barrier.cores| == |s.seen| == n && s.there && !s.crashed
    && (forall c :: 0 <= c < n ==> s.barrier.cores[c].entered == 1 && !s.seen[c])
  }

  lemma EnteredReady(n: nat)
    requires n > 0
    ensures Valid(Upto(n), n) && Ready(Exec(n, Upto(n)), n)
  {
    AllEnter(n, n);
    var s := Exec(n, Upto(n)).barrier;
    forall c | 1 <= c < n ensures WorkerOk(s.cores[MAIN].place, s.cores[MAIN].left, c, s.cores[c]) {
    }
  }

  /** A core that is inside has not left. */
  lemma InsideNotLeft(s: State, c: nat)
    requires Inv(s) && c < |s.cores| && s.cores[c].entered == 1 && !s.cores[c].place.Outside?
    ensures s.cores[c].left == 0
  {
    if c != MAIN {
      assert WorkerOk(s.cores[MAIN].place, s.cores[MAIN].left, c, s.cores[c]);
    }
  }

  lemma AllLeft(s: State, c: nat)
    requires Inv(s) && c < |s.cores| && s.cores[MAIN].place.Outside? && s.cores[MAIN].entered == 1
    ensures s.cores[c].left == 1
  {
    if c != MAIN {
      assert WorkerOk(s.cores[MAIN].place, s.cores[MAIN].left, c, s.cores[c]);
    }
  }

  lemma StaysReady(s: Sort, n: nat, c: nat)
    requires Ready(s, n) && c < n && !s.barrier.cores[c].place.Outside? && After(s.barrier, c) != s.barrier
    ensures Ready(Turn(s, c), n) && Work(Turn(s, c).barrier.cores, n) < Work(s.barrier.cores, n)
  {
    hide Inv, Work;
    InsideNotLeft(s.barrier, c);
    StepInv(s.barrier, c);
    StepsLowerWork(s.barrier, c);
  }

  lemma MainInside(s: Sort, n: nat)
    requires Ready(s, n) && |s.barrier.cores| > 0 && !s.barrier.cores[MAIN].place.Outside?
    ensures Inv(s.barrier)
            && forall d :: 0 <= d < |s.barrier.cores| ==> s.barrier.cores[d].entered > s.barrier.cores[MAIN].left
  {
    InsideNotLeft(s.barrier, MAIN);
  }

  lemma OutsideAllLeft(s: Sort, n: nat)
    requires Ready(s, n) && |s.barrier.cores| > 0 && s.barrier.cores[MAIN].place.Outside?
    ensures forall c :: 0 <= c < n ==> s.barrier.cores[c].left == 1
  {
    forall c | 0 <= c < n ensures s.barrier.cores[c].left == 1 {
      AllLeft(s.barrier, c);
    }
  }

  /** The barrier is driven to its end. */
  lemma {:induction false} Drive(n: nat, who: seq<nat>) returns (more: seq<nat>)
    requires n > 0 && Valid(who, n) && Ready(Exec(n, who), n)
    ensures Valid(more, n) && Ready(Exec(n, more), n)
    ensures forall c :: 0 <= c < n ==> Exec(n, more).barrier.cores[c].left == 1
    decreases Work(Exec(n, who).barrier.cores, n)
  {
    hide Exec, Work, Ready, Inv, Turn, After;
    var s := Exec(n, who);
    if s.barrier.cores[MAIN].place.Outside? {
      OutsideAllLeft(s, n);
      more := who;
    } else {
      MainInside(s, n);
      var c := SomebodyMoves(s.barrier);
      StaysReady(s, n, c);
      ExecOne(n, who, c);
      more := Drive(n, who + [c]);
    }
  }

  /** The main core reads and ends the sort before core 1 reads. */
  lemma CrashRun(n: nat) returns (who: seq<nat>)
    requires n > 1
    ensures Valid(who, n) && Exec(n, who).crashed
  {
    hide Exec;
    EnteredReady(n);
    who := Drive(n, Upto(n));
    ExecOne(n, who, MAIN);
    who := who + [MAIN];
    ExecOne(n, who, MAIN);
    who := who + [MAIN];
    ExecOne(n, who, 1);
    who := who + [1];
  }

  ghost predicate CanCrash(n: nat) {
    exists who: seq<nat> :: Valid(who, n) && Exec(n, who).crashed
  }

  /** Some schedule makes a core read the length of an output that is gone if and only if there is more than one
      core. */
  lemma CrashIff(n: nat)
    requires n > 0
    ensures CanCrash(n) <==> n > 1
  {
    if n > 1 {
      var who := CrashRun(n);
    } else {
      forall who: seq<nat> | Valid(who, n) ensures !Exec(n, who).crashed {
        AloneIsSafe(who);
      }
    }
  }
}
