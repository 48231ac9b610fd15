/** The spin barrier of the parallel sort, as a system of single reads and writes. Core 0 is the main
    core; cores may use the barrier again and again. */
module CpuBarrier {

  /** Where a core stands: outside; a worker about to read START, to raise its flag, to read STOP, or to
      lower its flag; the main core about to write START, to read flag `i` up, to write STOP, or to read
      flag `i` down. */
  datatype Place =
    | Outside
    | AwaitStart | Raise | AwaitStop | Lower
    | WriteStart | AwaitUp(i: nat) | WriteStop | AwaitDown(i: nat)

  /** `entered` and `left` count the barriers a core has entered and left. */
  datatype Core = Core(place: Place, ready: bool, entered: nat, left: nat)

  datatype State = State(start: bool, cores: seq<Core>)

  const MAIN: nat := 0

  ghost predicate Init(s: State, n: nat) {
    n > 0 && |s.cores| == n && !s.start && forall c :: 0 <= c < n ==> s.cores[c] == Core(Outside, false, 0, 0)
  }

  /** The core after its next read or write; a read that finds the wrong value changes nothing. */
  function After(s: State, c: nat): (s': State)
    requires c < |s.cores|
    ensures |s'.cores| == |s.cores|
  {
    var x := s.cores[c];
    match x.place
    case Outside =>
      var inside := x.(place := if c == MAIN then WriteStart else AwaitStart, entered := x.entered + 1);
      s.(cores := s.cores[c := inside])
    case AwaitStart => if s.start then s.(cores := s.cores[c := x.(place := Raise)]) else s
    case Raise => s.(cores := s.cores[c := x.(place := AwaitStop, ready := true)])
    case AwaitStop => if !s.start then s.(cores := s.cores[c := x.(place := Lower)]) else s
    case Lower => s.(cores := s.cores[c := x.(place := Outside, ready := false, left := x.left + 1)])
    case WriteStart => State(true, s.cores[c := x.(place := AwaitUp(1))])
    case AwaitUp(i) =>
      if i >= |s.cores| then s.(cores := s.cores[c := x.(place := WriteStop)])
      else if s.cores[i].ready then s.(cores := s.cores[c := x.(place := AwaitUp(i + 1))]) else s
    case WriteStop => State(false, s.cores[c := x.(place := AwaitDown(1))])
    case AwaitDown(i) =>
      if i >= |s.cores| then s.(cores := s.cores[c := x.(place := Outside, left := x.left + 1)])
      else if !s.cores[i].ready then s.(cores := s.cores[c := x.(place := AwaitDown(i + 1))]) else s
  }

  ghost predicate IsRun(run: seq<State>, who: seq<nat>, n: nat) {
    && |run| == |who| + 1 && Init(run[0], n)
    && forall k :: 0 <= k < |who| ==> who[k] < |run[k].cores| && run[k + 1] == After(run[k], who[k])
  }

  // ----- The invariant -----

  /** Not in a barrier, or in one that has not begun: it has left `k` of them. */
  predicate Before(x: Core, k: nat) {
    !x.ready && x.left == k && ((x.place == Outside && x.entered == k) || (x.place == AwaitStart && x.entered == k + 1))
  }

  predicate Rising(x: Core, k: nat) {
    x.place == Raise && !x.ready && x.left == k && x.entered == k + 1
  }

  predicate Up(x: Core, k: nat) {
    x.place == AwaitStop && x.ready && x.left == k && x.entered == k + 1
  }

  predicate Falling(x: Core, k: nat) {
    x.place == Lower && x.ready && x.left == k && x.entered == k + 1
  }

  /** What worker `c` may be doing while the main core is at `place` in its barrier number `k`. */
  predicate WorkerOk(place: Place, k: nat, c: nat, x: Core) {
    match place
    case Outside => Before(x, k)
    case WriteStart => Before(x, k)
    case AwaitUp(i) => if c < i then Up(x, k) else Before(x, k) || Rising(x, k) || Up(x, k)
    case WriteStop => Up(x, k)
    case AwaitDown(i) => if c < i then Before(x, k + 1) else Up(x, k) || Falling(x, k) || Before(x, k + 1)
    case _ => false
  }

  predicate MainOk(s: State)
    requires |s.cores| > 0
  {
    var m := s.cores[MAIN];
    && (m.place.Outside? || m.place.WriteStart? || m.place.WriteStop? ||
        ((m.place.AwaitUp? || m.place.AwaitDown?) && 1 <= m.place.i <= |s.cores|))
    && (s.start <==> m.place.AwaitUp? || m.place.WriteStop?)
    && m.entered == m.left + (if m.place.Outside? then 0 else 1)
  }

  ghost predicate Inv(s: State) {
    && |s.cores| > 0 && MainOk(s)
    && forall c :: 1 <= c < |s.cores| ==> WorkerOk(s.cores[MAIN].place, s.cores[MAIN].left, c, s.cores[c])
  }

  lemma StepInv(s: State, c: nat)
    requires Inv(s) && c < |s.cores|
    ensures Inv(After(s, c))
  {
    var s' := After(s, c);
    if c == MAIN {
      forall d | 1 <= d < |s.cores| ensures WorkerOk(s'.cores[MAIN].place, s'.cores[MAIN].left, d, s'.cores[d]) {
        assert WorkerOk(s.cores[MAIN].place, s.cores[MAIN].left, d, s.cores[d]);
      }
    } else {
      assert WorkerOk(s.cores[MAIN].place, s.cores[MAIN].left, c, s.cores[c]);
    }
  }

  lemma {:induction false} RunInv(run: seq<State>, who: seq<nat>, n: nat, k: nat)
    requires IsRun(run, who, n) && k < |run|
    ensures Inv(run[k]) && |run[k].cores| == n
  {
    if k > 0 {
      RunInv(run, who, n, k - 1);
      StepInv(run[k - 1], who[k - 1]);
    }
  }

  // ----- What the barrier guarantees -----

  /** In every run: no core has left its k-th barrier while another has not entered its own, and no two
      cores are more than one barrier apart. */
  lemma NobodyLeavesEarly(run: seq<State>, who: seq<nat>, n: nat, k: nat, c: nat, d: nat)
    requires IsRun(run, who, n) && k < |run| && c < n && d < n
    ensures |run[k].cores| == n
    ensures run[k].cores[c].left <= run[k].cores[d].entered <= run[k].cores[c].left + 2
    ensures run[k].cores[c].entered <= run[k].cores[d].entered + 1
  {
    RunInv(run, who, n, k);
    var s := run[k];
    if c > 0 {
      assert WorkerOk(s.cores[MAIN].place, s.cores[MAIN].left, c, s.cores[c]);
    }
    if d > 0 {
      assert WorkerOk(s.cores[MAIN].place, s.cores[MAIN].left, d, s.cores[d]);
    }
  }

  /** Flags and status are back at rest whenever the main core is outside, so the barrier can be used
      again: no flag of one round is taken for one of the next. */
  lemma RestsBetweenRounds(run: seq<State>, who: seq<nat>, n: nat, k: nat, c: nat)
    requires IsRun(run, who, n) && k < |run| && 0 < c < n
    ensures |run[k].cores| == n
    ensures run[k].cores[MAIN].place.Outside? ==>
              !run[k].start && !run[k].cores[c].ready && run[k].cores[c].left == run[k].cores[MAIN].left
  {
    RunInv(run, who, n, k);
    assert WorkerOk(run[k].cores[MAIN].place, run[k].cores[MAIN].left, c, run[k].cores[c]);
  }

  // ----- Progress -----

  function Rank(p: Place, n: nat): nat {
    match p
    case Outside => 0
    case Lower => 1
    case AwaitStop => 2
    case Raise => 3
    case AwaitStart => 4
    case AwaitDown(i) => if i <= n then 1 + (n - i) else 0
    case WriteStop => n + 2
    case AwaitUp(i) => if i <= n then n + 3 + (n - i) else 0
    case WriteStart => 2 * n + 4
  }

  function Work(cores: seq<Core>, n: nat): nat {
    if cores == [] then 0 else Work(cores[..|cores| - 1], n) + Rank(cores[|cores| - 1].place, n)
  }

  lemma {:induction false} WorkUpdate(cores: seq<Core>, n: nat, c: nat, x: Core)
    requires c < |cores|
    ensures Work(cores[c := x], n) == Work(cores, n) - Rank(cores[c].place, n) + Rank(x.place, n)
  {
    var last := |cores| - 1;
    if c == last {
      assert cores[c := x][..last] == cores[..last];
    } else {
      assert cores[c := x][..last] == cores[..last][c := x];
      WorkUpdate(cores[..last], n, c, x);
    }
  }

  /** Inside the barrier every step that is not a vain read brings its core closer to the end. */
  lemma StepsLowerWork(s: State, c: nat)
    requires Inv(s) && c < |s.cores| && !s.cores[c].place.Outside? && After(s, c) != s
    ensures Work(After(s, c).cores, |s.cores|) < Work(s.cores, |s.cores|)
  {
    if c != MAIN {
      assert WorkerOk(s.cores[MAIN].place, s.cores[MAIN].left, c, s.cores[c]);
    }
    WorkUpdate(s.cores, |s.cores|, c, After(s, c).cores[c]);
  }

  /** While some core is in a barrier and all others have entered theirs, somebody inside can move on. */
  lemma SomebodyMoves(s: State) returns (c: nat)
    requires Inv(s) && forall d :: 0 <= d < |s.cores| ==> s.cores[d].entered > s.cores[MAIN].left
    ensures c < |s.cores| && !s.cores[c].place.Outside? && After(s, c) != s
  {
    var m := s.cores[MAIN];
    c := MAIN;
    match m.place
    case WriteStart =>
    case WriteStop =>
    case AwaitUp(i) =>
      if i < |s.cores| {
        assert WorkerOk(m.place, m.left, i, s.cores[i]);
        if !s.cores[i].ready {
          c := i;
        }
      }
    case AwaitDown(i) =>
      if i < |s.cores| {
        assert WorkerOk(m.place, m.left, i, s.cores[i]);
        if s.cores[i].ready {
          c := i;
        }
      }
  }

  /** A continuation in which only cores inside the barrier take steps, vain reads included. */
  ghost predicate Continues(run: seq<State>, who: seq<nat>) {
    && |run| == |who| + 1
    && forall k :: 0 <= k < |who| ==> && who[k] < |run[k].cores| && !run[k].cores[who[k]].place.Outside?
                                      && run[k + 1] == After(run[k], who[k])
  }

  /** How many of the first `k` steps are not vain reads. */
  ghost function Moves(run: seq<State>, k: nat): nat
    requires k < |run|
  {
    if k == 0 then 0 else Moves(run, k - 1) + if run[k] == run[k - 1] then 0 else 1
  }

  /** However the cores are scheduled, the steps that are not vain are limited by the work at the start. */
  lemma {:induction false} BoundedMoves(run: seq<State>, who: seq<nat>, k: nat)
    requires Continues(run, who) && k < |run| && Inv(run[0])
    ensures Inv(run[k]) && |run[k].cores| == |run[0].cores|
    ensures forall d :: 0 <= d < |run[0].cores| ==> run[k].cores[d].entered == run[0].cores[d].entered
    ensures Moves(run, k) + Work(run[k].cores, |run[0].cores|) <= Work(run[0].cores, |run[0].cores|)
  {
    hide Inv, Work;
    if k > 0 {
      BoundedMoves(run, who, k - 1);
      StepInv(run[k - 1], who[k - 1]);
      if run[k] != run[k - 1] {
        StepsLowerWork(run[k - 1], who[k - 1]);
      }
    }
  }

  /** Every barrier that all cores enter is left by all: a continuation is over, after a limited number of
      steps that are not vain, only when each core has left the barrier. */
  lemma {:induction false} RoundCompletes(run: seq<State>, who: seq<nat>)
    requires Continues(run, who) && Inv(run[0])
    requires forall d :: 0 <= d < |run[0].cores| ==> run[0].cores[d].entered > run[0].cores[MAIN].left
    ensures Moves(run, |who|) <= Work(run[0].cores, |run[0].cores|) && |run[|who|].cores| == |run[0].cores|
    ensures var last := run[|who|];
            (exists c :: 0 <= c < |last.cores| && CanMove(last, c))
            || forall d :: 0 <= d < |last.cores| ==> last.cores[d].left == run[0].cores[MAIN].left + 1
  {
    BoundedMoves(run, who, |who|);
    var last := run[|who|];
    if last.cores[MAIN].place.Outside? {
      forall d | 1 <= d < |last.cores| ensures last.cores[d].left == last.cores[MAIN].left {
        assert WorkerOk(last.cores[MAIN].place, last.cores[MAIN].left, d, last.cores[d]);
      }
    } else {
      var c := SomebodyMoves(last);
      assert CanMove(last, c);
    }
  }

  ghost predicate CanMove(s: State, c: nat) {
    c < |s.cores| && !s.cores[c].place.Outside? && After(s, c) != s
  }
}
