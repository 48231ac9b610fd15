/** Scrambling vertex numbers: odd multiplications and bit reversals. */
module Scramble {
  import opened Bits
  import opened BitReverse

  // ----- Remainders -----

  lemma ModMul(x: int, y: int, n: nat)
    requires n > 0
    ensures (x % n) * y % n == x * y % n
  {
    var q := x / n;
    var z := (x % n) * y;
    assert x * y == (q * y) * n + z by {
      assert x == q * n + x % n;
      Spread(q, n, x % n, y);
    }
    ShiftMod(z, q * y, n);
  }

  lemma Spread(q: int, n: int, r: int, y: int)
    ensures (q * n + r) * y == (q * y) * n + r * y
  {
  }

  lemma ShiftMod(z: int, k: int, n: nat)
    requires n > 0
    ensures (k * n + z) % n == z % n
  {
    assert k * n + z == (k + z / n) * n + z % n;
    Partition.DivModOf(k * n + z, n, k + z / n, z % n);
  }

  lemma ModAdd(x: int, y: int, n: nat)
    requires n > 0
    ensures (x % n + y) % n == (x + y) % n
  {
    assert x + y == (x / n) * n + (x % n + y);
    ShiftMod(x % n + y, x / n, n);
  }

  /** A remainder by a multiple keeps the remainder. */
  lemma ModMod(x: int, n: nat, k: nat)
    requires n > 0 && k > 0
    ensures n * k > 0 && x % (n * k) % n == x % n
  {
    var m := n * k;
    var r := x % m;
    assert x == (x / m) * m + r;
    assert (x / m) * m == (x / m * k) * n by { Reorder(x / m, n, k); }
    ShiftMod(r, x / m * k, n);
  }

  lemma Reorder(a: int, n: int, k: int)
    ensures a * (n * k) == (a * k) * n
  {
  }

  // ----- Reversing twice, and the top bits -----

  lemma {:induction false} ReverseTopBit(y: nat, b: nat, n: nat)
    requires n > 0 && y < Pow2(n - 1) && b < 2
    ensures Reverse(b * Pow2(n - 1) + y, n) == 2 * Reverse(y, n - 1) + b
  {
    hide Reverse, Pow2;
    var x := b * Pow2(n - 1) + y;
    ReverseUnfold(x, n);
    if n == 1 {
      ReverseNone(x / 2);
      ReverseNone(y);
      assert b == 0 || b == 1;
    } else {
      PowStep(n - 1);
      var h := Pow2(n - 2);
      assert b == 0 || b == 1;
      assert x == 2 * (b * h) + y;
      ReverseTopBit(y / 2, b, n - 1);
      ReverseUnfold(y, n - 1);
      assert x % 2 == y % 2 && x / 2 == b * h + y / 2;
      assert y % 2 == 0 || y % 2 == 1;
    }
  }

  lemma {:induction false} ReverseTwice(x: nat, n: nat)
    requires x < Pow2(n)
    ensures Reverse(Reverse(x, n), n) == x
  {
    if n > 0 {
      ReverseTwice(x / 2, n - 1);
      ReverseTopBit(Reverse(x / 2, n - 1), x % 2, n);
    }
  }

  lemma AddDiv(k: nat, p: nat, y: nat)
    requires p > 0
    ensures (k * p + y) / p == k + y / p
  {
    assert k * p + y == (k + y / p) * p + y % p;
    Partition.QuotientUnique(p, k + y / p, y % p, (k * p + y) / p, (k * p + y) % p);
  }

  lemma TopOf(b: nat, y: nat, n: nat, l: nat)
    requires 0 < l <= n && b < 2
    ensures (b * Pow2(n - 1) + y) / Pow2(n - l) == b * Pow2(l - 1) + y / Pow2(n - l)
  {
    PowAdd(n - l, l - 1);
    var p, h := Pow2(n - l), Pow2(l - 1);
    hide Pow2;
    if b == 1 {
      assert p * h == h * p;
      AddDiv(h, p, y);
    }
  }

  lemma HalfMod(y: nat, l: nat)
    requires l > 0
    ensures y % Pow2(l) % 2 == y % 2 && y % Pow2(l) / 2 == (y / 2) % Pow2(l - 1)
  {
    var p := Pow2(l - 1);
    var h, b := y / 2, y % 2;
    var k, r := h / p, h % p;
    assert Pow2(l) == 2 * p && y == 2 * (k * p + r) + b;
    assert 2 * (k * p + r) + b == k * (2 * p) + (2 * r + b);
    Partition.DivModOf(y, 2 * p, k, 2 * r + b);
  }

  lemma Small(x: nat, p: nat)
    requires x < p
    ensures x / p == 0
  {
  }

  /** The top `l` bits of a reversed word are the low `l` bits of the word, reversed. */
  lemma {:induction false} ReverseHigh(y: nat, n: nat, l: nat)
    requires l <= n
    ensures Reverse(y, n) / Pow2(n - l) == Reverse(y % Pow2(l), l)
    decreases l
  {
    hide Reverse, Pow2;
    if l == 0 {
      ReverseNone(y % Pow2(l));
      Small(Reverse(y, n), Pow2(n));
    } else {
      var top, low, m := y % 2, Reverse(y / 2, n - 1), y % Pow2(l);
      assert Reverse(y, n) == top * Pow2(n - 1) + low by { ReverseUnfold(y, n); }
      assert Reverse(m, l) == top * Pow2(l - 1) + Reverse((y / 2) % Pow2(l - 1), l - 1) by {
        ReverseUnfold(m, l);
        HalfMod(y, l);
      }
      assert low / Pow2(n - l) == Reverse((y / 2) % Pow2(l - 1), l - 1) by {
        ReverseHigh(y / 2, n - 1, l - 1);
        assert n - 1 - (l - 1) == n - l;
      }
      TopOf(top, low, n, l);
    }
  }

  // ----- Odd multipliers -----

  lemma OrOdd(x: nat, y: nat)
    requires y % 2 == 1
    ensures Or(x, y) % 2 == 1
  {
  }

  /** An odd number has an inverse modulo every power of two. */
  lemma {:induction false} OddInverse(m: nat, l: nat) returns (i: nat)
    requires m % 2 == 1
    ensures m * i % Pow2(l) == 1 % Pow2(l)
  {
    if l == 0 {
      i := 0;
    } else {
      var j := OddInverse(m, l - 1);
      var p := Pow2(l - 1);
      if m * j % Pow2(l) == 1 % Pow2(l) {
        i := j;
      } else {
        i := j + p;
        InverseStep(m, j, p);
      }
    }
  }

  lemma InverseStep(m: nat, j: nat, p: nat)
    requires m % 2 == 1 && p > 0 && m * j % p == 1 % p && m * j % (2 * p) != 1 % (2 * p)
    ensures m * (j + p) % (2 * p) == 1 % (2 * p)
  {
    var a, b := m * j, m * p;
    assert m * (j + p) == a + b;
    InverseOdd(m, a, b, p);
  }

  lemma InverseOdd(m: nat, a: nat, b: nat, p: nat)
    requires m % 2 == 1 && p > 0 && b == m * p && a % p == 1 % p && a % (2 * p) != 1 % (2 * p)
    ensures (a + b) % (2 * p) == 1 % (2 * p)
  {
    if p == 1 {
      InverseOne(m, a, b);
    } else {
      OneMod(p);
      OneMod(2 * p);
      OddQuotient(a, p);
      OddSum(m, a / p, p, a, b);
    }
  }

  lemma OneMod(p: nat)
    requires p > 1
    ensures 1 % p == 1
  {
  }

  lemma InverseOne(m: nat, a: nat, b: nat)
    requires m % 2 == 1 && b == m && a % 2 != 1
    ensures (a + b) % 2 == 1
  {
  }

  lemma OddSum(m: nat, k: nat, p: nat, a: nat, b: nat)
    requires p > 1 && k % 2 == 1 && m % 2 == 1 && a == k * p + 1 && b == m * p
    ensures (a + b) % (2 * p) == 1
  {
    assert (k + m) * p == k * p + m * p;
    EvenMultiple(k + m, p, a + b);
  }

  lemma OddQuotient(a: nat, p: nat)
    requires p > 1 && a % p == 1 && a % (2 * p) != 1
    ensures a == (a / p) * p + 1 && (a / p) % 2 == 1
  {
    if a / p % 2 == 0 {
      EvenMultiple(a / p, p, a);
    }
  }

  lemma EvenMultiple(k: nat, p: nat, x: nat)
    requires k % 2 == 0 && p > 1 && x == k * p + 1
    ensures x % (2 * p) == 1
  {
    var h := k / 2;
    assert k == 2 * h && (2 * h) * p == h * (2 * p);
    Partition.DivModOf(x, 2 * p, h, 1);
  }

  // ----- One round -----

  /** Add, multiply, reverse the word, keep the top `l` bits. */
  function Round(x: nat, c: nat, m: nat, l: nat): (r: nat)
    requires l <= 64
    ensures r == Reverse((x + c) % WORD * m % WORD % Pow2(l), l)
    ensures r < Pow2(l)
  {
    var v := (x + c) % WORD * m % WORD;
    NetworkReverses(v);
    ReverseHigh(v, 64, l);
    ReverseWord(v) / Pow2(64 - l)
  }

  /** The 64-bit wrap-around does not show in the low bits. */
  lemma RoundIs(x: nat, c: nat, m: nat, l: nat)
    requires l <= 64
    ensures Round(x, c, m, l) == Reverse((x + c) * m % Pow2(l), l)
  {
    hide Reverse;
    WordPowers();
    PowAdd(l, 64 - l);
    var p, k := Pow2(l), Pow2(64 - l);
    hide Pow2;
    ModMod((x + c) % WORD * m, p, k);
    ModMul((x + c) % WORD, m, p);
    ModMod(x + c, p, k);
    ModMul(x + c, m, p);
  }

  /** Different numbers below 2^l come out different. */
  lemma RoundInjective(x: nat, y: nat, c: nat, m: nat, l: nat)
    requires l <= 64 && m % 2 == 1 && x < Pow2(l) && y < Pow2(l) && Round(x, c, m, l) == Round(y, c, m, l)
    ensures x == y
  {
    hide Reverse, Round, Pow2;
    var p := Pow2(l);
    RoundIs(x, c, m, l);
    RoundIs(y, c, m, l);
    ReverseTwice((x + c) * m % p, l);
    ReverseTwice((y + c) * m % p, l);
    var i := OddInverse(m, l);
    Undo(x, c, m, i, p, (x + c) * m % p);
    Undo(y, c, m, i, p, (y + c) * m % p);
  }

  /** Multiplying by the inverse and subtracting gives the number back. */
  lemma Undo(x: nat, c: nat, m: nat, i: nat, p: nat, w: nat)
    requires p > 0 && x < p && m * i % p == 1 % p && w == (x + c) * m % p
    ensures (w * i - c) % p == x
  {
    UndoMul(x + c, m, i, p);
    SubSame(w * i, x + c, c, p);
    Partition.DivModOf(x, p, 0, x);
  }

  lemma SubSame(y: int, a: int, c: int, p: nat)
    requires p > 0 && y % p == a % p
    ensures (y - c) % p == (a - c) % p
  {
    ModAdd(y, 0 - c, p);
    ModAdd(a, 0 - c, p);
  }

  lemma UndoMul(a: int, m: int, i: int, p: nat)
    requires p > 0 && m * i % p == 1 % p
    ensures a * m % p * i % p == a % p
  {
    ModMul(a * m, i, p);
    Commute(a, m, i);
    ModMul(m * i, a, p);
    ModMul(1, a, p);
  }

  lemma Commute(a: int, m: int, i: int)
    ensures a * m * i == (m * i) * a
  {
  }

  /** Every number below 2^l comes out. */
  lemma RoundSurjective(y: nat, c: nat, m: nat, l: nat) returns (x: nat)
    requires l <= 64 && m % 2 == 1 && y < Pow2(l)
    ensures x < Pow2(l) && Round(x, c, m, l) == y
  {
    hide Reverse, Round, Pow2;
    var p := Pow2(l);
    var i := OddInverse(m, l);
    var z := Reverse(y, l);
    x := (z * i - c) % p;
    RoundIs(x, c, m, l);
    ReverseTwice(y, l);
    Redo(z, c, m, i, p);
  }

  lemma Redo(z: nat, c: nat, m: nat, i: nat, p: nat)
    requires p > 0 && z < p && m * i % p == 1 % p
    ensures ((z * i - c) % p + c) * m % p == z
  {
    ModAdd(z * i - c, c, p);
    RedoMul((z * i - c) % p + c, z, i, m, p);
  }

  lemma RedoMul(x: int, z: nat, i: int, m: int, p: nat)
    requires p > 0 && z < p && m * i % p == 1 % p && x % p == z * i % p
    ensures x * m % p == z
  {
    ModMul(x, m, p);
    ModMul(z * i, m, p);
    CommuteAll(z, i, m);
    ModMul(m * i, z, p);
    ModMul(1, z, p);
    Partition.DivModOf(z, p, 0, z);
  }

  lemma CommuteAll(z: int, i: int, m: int)
    ensures z * i * m == (m * i) * z
  {
  }

  // ----- The permutation -----

  const FIRST: nat := 0x4519840211493211
  const SECOND: nat := 0x3050852102C843A5

  function ScrambleVertex(v: nat, lgN: nat, val0: nat, val1: nat): (r: nat)
    requires lgN <= 64
    ensures r < Pow2(lgN)
  {
    Round(Round(v, val0 + val1, Or(val0, FIRST), lgN), 0, Or(val1, SECOND), lgN)
  }

  /** For every seed, scrambling is one to one on the vertices below 2^lgN. */
  lemma ScrambleInjective(v: nat, w: nat, lgN: nat, val0: nat, val1: nat)
    requires lgN <= 64 && v < Pow2(lgN) && w < Pow2(lgN)
    requires ScrambleVertex(v, lgN, val0, val1) == ScrambleVertex(w, lgN, val0, val1)
    ensures v == w
  {
    hide Or, Round, Pow2;
    OrOdd(val0, FIRST);
    OrOdd(val1, SECOND);
    var c, m := val0 + val1, Or(val0, FIRST);
    RoundInjective(Round(v, c, m, lgN), Round(w, c, m, lgN), 0, Or(val1, SECOND), lgN);
    RoundInjective(v, w, c, m, lgN);
  }

  /** And onto them. */
  lemma ScrambleSurjective(y: nat, lgN: nat, val0: nat, val1: nat) returns (v: nat)
    requires lgN <= 64 && y < Pow2(lgN)
    ensures v < Pow2(lgN) && ScrambleVertex(v, lgN, val0, val1) == y
  {
    hide Or, Round, Pow2;
    OrOdd(val0, FIRST);
    OrOdd(val1, SECOND);
    var x := RoundSurjective(y, 0, Or(val1, SECOND), lgN);
    v := RoundSurjective(x, val0 + val1, Or(val0, FIRST), lgN);
  }

  // ----- One edge -----

  /** Picks a square of the adjacency matrix level by level. `draws` are the random choices, numbers from
      0 to 3. Whatever they are, the edge lies in the upper triangle of the matrix. */
  method MakeOneEdge(lgN: nat, draws: seq<nat>, val0: nat, val1: nat) returns (src: nat, tgt: nat, v0: nat, v1: nat)
    requires lgN <= 64 && |draws| >= lgN && forall i :: 0 <= i < |draws| ==> draws[i] < 4
    ensures src <= tgt < Pow2(lgN)
    ensures v0 == ScrambleVertex(src, lgN, val0, val1) && v1 == ScrambleVertex(tgt, lgN, val0, val1)
    ensures v0 < Pow2(lgN) && v1 < Pow2(lgN) && (v0 == v1 <==> src == tgt)
  {
    hide ScrambleVertex, Pow2;
    var nverts, level := Pow2(lgN), 0;
    src, tgt := 0, 0;
    while nverts > 1
      invariant 0 <= level <= lgN && nverts == Pow2(lgN - level)
      invariant src == tgt || src + nverts <= tgt
      invariant tgt + nverts <= Pow2(lgN)
      decreases nverts
    {
      if level == lgN {
        ReverseNone(0);
      }
      PowStep(lgN - level);
      var square := draws[level];
      var srcOffset, tgtOffset := square / 2, square % 2;
      if src == tgt && srcOffset > tgtOffset {
        srcOffset, tgtOffset := tgtOffset, srcOffset;
      }
      nverts := nverts / 2;
      level := level + 1;
      assert (srcOffset == 0 || srcOffset == 1) && (tgtOffset == 0 || tgtOffset == 1);
      src := src + nverts * srcOffset;
      tgt := tgt + nverts * tgtOffset;
    }
    v0, v1 := ScrambleVertex(src, lgN, val0, val1), ScrambleVertex(tgt, lgN, val0, val1);
    if v0 == v1 {
      ScrambleInjective(src, tgt, lgN, val0, val1);
    }
  }
}
