/** Jumping the generator ahead: applying a stored matrix, raising it to a power, building the table
    of powers, and skipping any 192-bit number of steps. */
module MrgSkip {
  import opened ModArith
  import opened Mrg
  import opened Bits

  /** The state of the generator: five residues. */
  datatype State = State(z1: Residue, z2: Residue, z3: Residue, z4: Residue, z5: Residue)

  function Vector(st: State): Vec { Vec(st.z1, st.z2, st.z3, st.z4, st.z5) }

  function Reduce(z: Vec): State { State(Mod(z.z1), Mod(z.z2), Mod(z.z3), Mod(z.z4), Mod(z.z5)) }

  /** One step of the generator. */
  function OrigStep(st: State): State {
    State(ModMacY(ModMulX(st.z1), st.z5), st.z1, st.z2, st.z3, st.z4)
  }

  function Steps(n: nat, st: State): State {
    if n == 0 then st else OrigStep(Steps(n - 1, st))
  }

  lemma MacYMod(p: int, q: int)
    ensures ModMacY(Mod(p), Mod(q)) == Mod(p + 104480 * q)
  {
    CongMod(p);
    CongMod(q);
    CongScaleY(Mod(q), q);
    CongAdd(Mod(p), p, 104480 * (Mod(q) as int), 104480 * q);
  }

  lemma MulXMod(p: int)
    ensures ModMulX(Mod(p)) == Mod(107374182 * p)
  {
    CongMod(p);
    CongMul(107374182, 107374182, Mod(p), p);
  }

  lemma OrigStepIsA(st: State, z: Vec)
    requires st == Reduce(z)
    ensures OrigStep(st) == Reduce(A(z))
  {
    hide Mod, ModMacY, ModMulX;
    MulXMod(z.z1);
    MacYMod(107374182 * z.z1, z.z5);
  }

  /** Repeated generator steps are the recurrence, reduced. */
  lemma {:induction false} StepsIsIter(n: nat, st: State)
    ensures Steps(n, st) == Reduce(Iter(n, Vector(st)))
  {
    if n > 0 {
      StepsIsIter(n - 1, st);
      OrigStepIsA(Steps(n - 1, st), Iter(n - 1, Vector(st)));
    }
  }

  lemma {:induction false} StepsAdd(j: nat, k: nat, st: State)
    ensures Steps(j, Steps(k, st)) == Steps(j + k, st)
  {
    if j > 0 {
      StepsAdd(j - 1, k, st);
    }
  }

  /** A stored matrix applied to a state. */
  function ApplyTransition(m: Matrix, st: State): State {
    State(
      ModMacY(ModMul(m.d, st.z1), ModMac4(0, m.s, st.z2, m.a, st.z3, m.b, st.z4, m.c, st.z5)),
      ModMacY(ModMac2(0, m.c, st.z1, m.w, st.z2), ModMac3(0, m.s, st.z3, m.a, st.z4, m.b, st.z5)),
      ModMacY(ModMac3(0, m.b, st.z1, m.v, st.z2, m.w, st.z3), ModMac2(0, m.s, st.z4, m.a, st.z5)),
      ModMacY(ModMac4(0, m.a, st.z1, m.u, st.z2, m.v, st.z3, m.w, st.z4), ModMul(m.s, st.z5)),
      ModMac2(ModMac3(0, m.s, st.z1, m.t, st.z2, m.u, st.z3), m.v, st.z4, m.w, st.z5))
  }

  lemma AddMod(p: int, q: int)
    ensures Mod((Mod(p) as int) + q) == Mod(p + q)
  {
    CongMod(p);
    CongAdd(Mod(p), p, q, q);
  }

  /** Four products with the second multiplier taken out. */
  lemma FactorY(a: int, p: int, b: int, q: int, c: int, r: int, d: int, s: int)
    ensures 104480 * (a * p + b * q + c * r + d * s)
            == (104480 * a) * p + (104480 * b) * q + (104480 * c) * r + (104480 * d) * s
  {
  }

  lemma ApplyRow1(m: Matrix, st: State)
    ensures ApplyTransition(m, st).z1 == Mod(Dot(Row1(m), Vector(st)))
  {
    var z1: int, z2: int, z3: int, z4: int, z5: int := st.z1, st.z2, st.z3, st.z4, st.z5;
    hide Mod, ModMacY;
    MacYMod(m.d * z1, m.s * z2 + m.a * z3 + m.b * z4 + m.c * z5);
    FactorY(m.s, z2, m.a, z3, m.b, z4, m.c, z5);
  }

  lemma ApplyRow2(m: Matrix, st: State)
    ensures ApplyTransition(m, st).z2 == Mod(Dot(Row2(m), Vector(st)))
  {
    var z1: int, z2: int, z3: int, z4: int, z5: int := st.z1, st.z2, st.z3, st.z4, st.z5;
    hide Mod, ModMacY;
    MacYMod(m.c * z1 + m.w * z2, m.s * z3 + m.a * z4 + m.b * z5);
    FactorY(m.s, z3, m.a, z4, m.b, z5, 0, 0);
  }

  lemma ApplyRow3(m: Matrix, st: State)
    ensures ApplyTransition(m, st).z3 == Mod(Dot(Row3(m), Vector(st)))
  {
    var z1: int, z2: int, z3: int, z4: int, z5: int := st.z1, st.z2, st.z3, st.z4, st.z5;
    hide Mod, ModMacY;
    MacYMod(m.b * z1 + m.v * z2 + m.w * z3, m.s * z4 + m.a * z5);
    FactorY(m.s, z4, m.a, z5, 0, 0, 0, 0);
  }

  lemma ApplyRow4(m: Matrix, st: State)
    ensures ApplyTransition(m, st).z4 == Mod(Dot(Row4(m), Vector(st)))
  {
    var z1: int, z2: int, z3: int, z4: int, z5: int := st.z1, st.z2, st.z3, st.z4, st.z5;
    hide Mod, ModMacY;
    MacYMod(m.a * z1 + m.u * z2 + m.v * z3 + m.w * z4, m.s * z5);
    FactorY(m.s, z5, 0, 0, 0, 0, 0, 0);
  }

  lemma ApplyRow5(m: Matrix, st: State)
    ensures ApplyTransition(m, st).z5 == Mod(Dot(Row(m), Vector(st)))
  {
    hide Mod;
    AddMod(m.s * st.z1 + m.t * st.z2 + m.u * st.z3, m.v * st.z4 + m.w * st.z5);
  }

  /** Each entry of the result is a row of the full matrix times the state, reduced. */
  lemma ApplyRows(m: Matrix, st: State)
    ensures var z := Vector(st);
            ApplyTransition(m, st)
            == Reduce(Vec(Dot(Row1(m), z), Dot(Row2(m), z), Dot(Row3(m), z), Dot(Row4(m), z), Dot(Row(m), z)))
  {
    hide ApplyTransition, Dot, Mod;
    ApplyRow1(m, st);
    ApplyRow2(m, st);
    ApplyRow3(m, st);
    ApplyRow4(m, st);
    ApplyRow5(m, st);
  }

  /** A stored matrix for `k` steps takes a state `k` steps ahead. */
  lemma ApplyIsSteps(m: Matrix, k: nat, st: State)
    requires Stands(m, k)
    ensures ApplyTransition(m, st) == Steps(k, st)
  {
    var z := Vector(st);
    ApplyRows(m, st);
    CachedRows(m);
    var r4 := Shift(Row(m));
    var r3 := Shift(r4);
    var r2 := Shift(r3);
    ActsOnVectors(Row(m), k, z);
    hide Shift, Dot, UpdateCache, ApplyTransition;
    CongVecRefl(z);
    CongDot(Row4(m), r4, z, z);
    CongDot(Row3(m), r3, z, z);
    CongDot(Row2(m), r2, z, z);
    CongDot(Row1(m), Shift(r2), z, z);
    StepsIsIter(k, st);
  }

  // ----- Powers and the table -----

  function Times(k: nat, exponent: nat): (steps: nat)
    ensures steps == k * exponent
  {
    k * exponent
  }

  /** Power by repeated squaring. */
  method Power(m: Matrix, exponent: nat, ghost k: nat) returns (result: Matrix)
    requires Stands(m, k)
    ensures Stands(result, Times(k, exponent))
  {
    hide Stands;
    BasicStands();
    result := Identity();
    var current, e := m, exponent;
    ghost var done, unit := 0, k;
    while e > 0
      invariant Stands(result, done) && Stands(current, unit)
      invariant done + unit * e == Times(k, exponent)
    {
      ghost var e0 := e;
      if e % 2 == 1 {
        MultiplyStands(result, done, current, unit);
        result := Multiply(result, current);
        done := done + unit;
      }
      MultiplyStands(current, unit, current, unit);
      current := Multiply(current, current);
      HalveStep(unit, e0);
      unit := unit + unit;
      e := e / 2;
    }
  }

  lemma HalveStep(unit: nat, e: nat)
    ensures unit * e == (unit + unit) * (e / 2) + (if e % 2 == 1 then unit else 0)
  {
    var h := e / 2;
    assert e == 2 * h + e % 2;
    assert unit * (2 * h) == (unit + unit) * h;
    assert e % 2 == 1 ==> unit * e == unit * (2 * h) + unit;
  }

  lemma BasicStands()
    ensures Stands(Identity(), 0) && Stands(OneStep(), 1)
  {
    BasicMatrices();
  }

  /** Entry `v` of line `i` stands for `v * 256^i` steps. */
  ghost predicate LineOk(line: seq<Matrix>, i: nat) {
    |line| == 256 && forall v :: 0 <= v < 256 ==> Stands(line[v], Pow256(i) * v)
  }

  ghost predicate TableOk(table: seq<seq<Matrix>>) {
    |table| == 24 && forall i :: 0 <= i < 24 ==> LineOk(table[i], i)
  }

  method BuildLine(transition: Matrix, i: nat) returns (line: seq<Matrix>)
    requires Stands(transition, Pow256(i))
    ensures LineOk(line, i) && line[1] == transition
  {
    hide Stands, Pow256;
    BasicStands();
    line := [Identity(), transition];
    var j := 2;
    while j < 256
      invariant 2 <= j <= 256 && |line| == j && line[1] == transition
      invariant forall v :: 0 <= v < j ==> Stands(line[v], Pow256(i) * v)
    {
      var m := Power(transition, j, Pow256(i));
      line := line + [m];
      j := j + 1;
    }
  }

  /** The table of powers, as the generator of the table computes it. */
  method BuildTable() returns (table: seq<seq<Matrix>>)
    ensures TableOk(table)
  {
    hide Stands;
    BasicStands();
    table := [];
    var i := 0;
    while i < 24
      invariant 0 <= i <= 24 && |table| == i
      invariant forall n :: 0 <= n < i ==> LineOk(table[n], n)
    {
      var transition := OneStep();
      if i > 0 {
        assert LineOk(table[i - 1], i - 1) && Stands(table[i - 1][1], Pow256(i - 1) * 1);
        transition := Power(table[i - 1][1], 256, Pow256(i - 1));
      }
      assert Stands(transition, Pow256(i));
      var line := BuildLine(transition, i);
      table := table + [line];
      i := i + 1;
    }
  }

  // ----- Skipping -----

  const WORD: nat := 0x1_0000_0000_0000_0000
  const WORD2: nat := 0x1_0000_0000_0000_0000_0000_0000_0000_0000

  lemma WordPowers()
    ensures Pow256(8) == WORD && Pow256(16) == WORD2
  {
    assert Pow256(4) == 0x1_0000_0000;
    assert Pow256(8) == 256 * (256 * (256 * (256 * Pow256(4))));
    assert Pow256(12) == 256 * (256 * (256 * (256 * Pow256(8))));
    assert Pow256(16) == 256 * (256 * (256 * (256 * Pow256(12))));
  }

  /** The steps that an exponent stands for from byte `i` on. */
  function Left(i: nat, e: nat): nat { Pow256(i) * e }

  lemma LeftStep(i: nat, e: nat)
    ensures Left(i, e) == Left(i, e % 256) + Left(i + 1, e / 256)
  {
    var p, q, r := Pow256(i), e / 256, e % 256;
    assert p * (256 * q + r) == p * r + (256 * p) * q;
  }

  lemma LeftZero(i: nat)
    ensures Left(i, 0) == 0
  {
  }

  class Generator {
    var st: State

    constructor Seed(st: State)
      ensures this.st == st
    {
      this.st := st;
    }

    /** A generator that stands `n` steps behind some seed returns value number `n + 1` of that seed, whether it got
        there by single steps or by skipping. */
    method GetUint() returns (value: Residue)
      modifies this
      ensures forall seed, n: nat :: old(st) == Steps(n, seed) ==>
                st == Steps(n + 1, seed) && value == Steps(n + 1, seed).z1
    {
      hide Steps, OrigStep;
      st := OrigStep(st);
      value := st.z1;
      forall seed, n: nat | old(st) == Steps(n, seed) ensures st == Steps(n + 1, seed) {
        StepsNext(n, seed);
      }
    }

    /** Skips `exponent * 256^start` steps, byte by byte. */
    method SkipWord(table: seq<seq<Matrix>>, exponent: nat, start: nat)
      requires TableOk(table) && start + 8 <= 24 && exponent < Pow256(8)
      modifies this
      ensures st == Steps(Left(start, exponent), old(st))
    {
      hide Stands, Steps, ApplyTransition, Pow256, Left;
      var byteIndex: nat, e: nat := start, exponent;
      ghost var done: nat := 0;
      StepsZero(st);
      while e != 0
        invariant start <= byteIndex <= start + 8 && e < Pow256(start + 8 - byteIndex)
        invariant st == Steps(done, old(st)) && done + Left(byteIndex, e) == Left(start, exponent)
        decreases e
      {
        PowNext(start + 8 - byteIndex, e);
        LeftStep(byteIndex, e);
        var val := e % 256;
        if val != 0 {
          TableEntry(table, byteIndex, val);
          ApplyIsSteps(table[byteIndex][val], Left(byteIndex, val), st);
          StepsAdd(Left(byteIndex, val), done, old(st));
          st := ApplyTransition(table[byteIndex][val], st);
          done := done + Left(byteIndex, val);
        } else {
          LeftZero(byteIndex);
        }
        byteIndex, e := byteIndex + 1, e / 256;
      }
      LeftZero(byteIndex);
    }

    /** Skips `high * 2^128 + middle * 2^64 + low` steps. */
    method Skip(table: seq<seq<Matrix>>, high: nat, middle: nat, low: nat)
      requires TableOk(table) && high < WORD && middle < WORD && low < WORD
      modifies this
      ensures st == Steps(WORD2 * high + WORD * middle + low, old(st))
    {
      WordPowers();
      hide Steps, TableOk;
      SkipWord(table, low, 0);
      SkipWord(table, middle, 8);
      StepsAdd(Left(8, middle), Left(0, low), old(st));
      SkipWord(table, high, 16);
      StepsAdd(Left(16, high), Left(8, middle) + Left(0, low), old(st));
    }
  }

  lemma StepsNext(n: nat, st: State)
    ensures Steps(n + 1, st) == OrigStep(Steps(n, st))
  {
  }

  lemma StepsZero(st: State)
    ensures Steps(0, st) == st
  {
  }

  lemma PowNext(left: nat, e: nat)
    requires 0 < e < Pow256(left)
    ensures left > 0 && e / 256 < Pow256(left - 1)
  {
  }

  lemma TableEntry(table: seq<seq<Matrix>>, i: nat, v: nat)
    requires TableOk(table) && i < 24 && v < 256
    ensures |table[i]| == 256 && Stands(table[i][v], Left(i, v))
  {
    hide Stands;
    assert LineOk(table[i], i);
  }
}
