/** Reversing the bits of a word by swapping neighbouring fields of halving size. */
module BitReverse {
  import Partition
  import opened Bits

  // ----- The meaning: one bit at a time -----

  /** The low `n` bits of `x` in reverse order. */
  function Reverse(x: nat, n: nat): (r: nat)
    ensures r < Pow2(n)
  {
    if n == 0 then 0 else (x % 2) * Pow2(n - 1) + Reverse(x / 2, n - 1)
  }

  lemma ReverseUnfold(x: nat, n: nat)
    requires n > 0
    ensures Reverse(x, n) == (x % 2) * Pow2(n - 1) + Reverse(x / 2, n - 1)
  {
  }

  lemma ReverseNone(x: nat)
    ensures Reverse(x, 0) == 0 && Pow2(0) == 1
  {
  }

  // ----- Numbers as fields -----

  /** The number with the low field `lo` below the rest. */
  function Join(lo: nat, rest: nat, p: nat): nat {
    lo + p * rest
  }

  /** The low field. */
  function Low(x: nat, p: nat): (r: nat)
    requires p > 0
    ensures r < p
  {
    x % p
  }

  /** The number shifted down by one field. */
  function Rest(x: nat, p: nat): nat
    requires p > 0
  {
    x / p
  }

  lemma Split(x: nat, p: nat)
    requires p > 0
    ensures x == Join(Low(x, p), Rest(x, p), p)
  {
  }

  lemma OfJoin(lo: nat, rest: nat, p: nat)
    requires lo < p
    ensures Low(Join(lo, rest, p), p) == lo && Rest(Join(lo, rest, p), p) == rest
  {
    var x := lo + p * rest;
    Partition.DivModOf(x, p, rest, lo);
  }

  lemma Regroup(a: nat, b: nat, rest: nat, p: nat, q: nat)
    ensures Join(Join(a, b, p), rest, p * q) == Join(a, Join(b, rest, q), p)
  {
    assert p * (q * rest) == p * q * rest;
    assert p * (b + q * rest) == p * b + p * (q * rest);
  }

  lemma JoinBound(a: nat, b: nat, p: nat, q: nat)
    requires a < p && b < q
    ensures Join(a, b, p) < p * q
  {
    assert p * b <= p * (q - 1);
    assert p * (q - 1) == p * q - p;
  }

  /** A double field is two fields. */
  lemma DoubleField(x: nat, p: nat)
    requires p > 0
    ensures p * p > 0 && Low(x, p * p) == Join(Low(x, p), Low(Rest(x, p), p), p)
    ensures Rest(x, p * p) == Rest(Rest(x, p), p)
  {
    hide Low, Rest, Join;
    var r := Rest(x, p);
    Split(x, p);
    Split(r, p);
    Regroup(Low(x, p), Low(r, p), Rest(r, p), p, p);
    JoinBound(Low(x, p), Low(r, p), p, p);
    OfJoin(Join(Low(x, p), Low(r, p), p), Rest(r, p), p * p);
  }

  /** One bit more. */
  lemma Halve(lo: nat, rest: nat, p: nat)
    ensures Join(lo, rest, 2 * p) % 2 == lo % 2 && Join(lo, rest, 2 * p) / 2 == Join(lo / 2, rest, p)
  {
    assert 2 * p * rest == 2 * (p * rest);
  }

  lemma Twice(b: nat, lo: nat, rest: nat, p: nat)
    ensures b + 2 * Join(lo, rest, p) == Join(b + 2 * lo, rest, 2 * p)
  {
    assert 2 * p * rest == 2 * (p * rest);
  }

  /** Reversing a number made of two parts. */
  lemma {:induction false} ReverseJoin(lo: nat, k: nat, hi: nat, n: nat)
    requires lo < Pow2(k)
    ensures Reverse(Join(lo, hi, Pow2(k)), k + n) == Join(Reverse(hi, n), Reverse(lo, k), Pow2(n))
  {
    if k == 0 {
      ReverseNone(lo);
    } else {
      hide Reverse, Join;
      var p := Pow2(k - 1);
      var x := Join(lo, hi, Pow2(k));
      Halve(lo, hi, p);
      ReverseJoin(lo / 2, k - 1, hi, n);
      ReverseUnfold(x, k + n);
      ReverseUnfold(lo, k);
      PowAdd(k - 1, n);
      Distribute(lo % 2, p, Reverse(hi, n), Reverse(lo / 2, k - 1), Pow2(n));
    }
  }

  lemma Distribute(b: nat, p: nat, a: nat, r: nat, q: nat)
    ensures Join(a, b * p + r, q) == b * (p * q) + Join(a, r, q)
  {
    assert q * (b * p) == b * (p * q);
  }

  // ----- Reversing by halves -----

  /** Each of the `c` fields of `k` bits reversed where it stands. */
  function ReverseFields(x: nat, k: nat, c: nat): nat
    decreases c
  {
    var p := Pow2(k);
    if c == 0 then 0 else Join(Reverse(Low(x, p), k), ReverseFields(Rest(x, p), k, c - 1), p)
  }

  /** Neighbouring fields of `k` bits exchanged, in each of `c` pairs. */
  function SwapFields(x: nat, k: nat, c: nat): nat
    decreases c
  {
    var p := Pow2(k);
    var y := Rest(x, p);
    if c == 0 then 0 else Join(Low(y, p), Join(Low(x, p), SwapFields(Rest(y, p), k, c - 1), p), p)
  }

  /** To reverse fields, swap their halves and reverse those. */
  lemma {:induction false} Halving(x: nat, k: nat, c: nat)
    ensures ReverseFields(x, 2 * k, c) == ReverseFields(SwapFields(x, k, c), k, 2 * c)
    decreases c
  {
    hide Reverse, Join, Low, Rest, Pow2;
    if c > 0 {
      PowAdd(k, k);
      var p := Pow2(k);
      var y := Rest(x, p);
      DoubleField(x, p);
      ReverseJoin(Low(x, p), k, Low(y, p), k);
      Halving(Rest(y, p), k, c - 1);
      var z := SwapFields(Rest(y, p), k, c - 1);
      Regroup(Reverse(Low(y, p), k), Reverse(Low(x, p), k), ReverseFields(z, k, 2 * c - 2), p, p);
      TwoFields(Low(y, p), Low(x, p), z, k, p, 2 * c);
    }
  }

  lemma TwoFields(a: nat, b: nat, z: nat, k: nat, p: nat, c: nat)
    requires p == Pow2(k) && a < p && b < p && c >= 2
    ensures ReverseFields(Join(a, Join(b, z, p), p), k, c)
            == Join(Reverse(a, k), Join(Reverse(b, k), ReverseFields(z, k, c - 2), p), p)
  {
    hide Reverse, Join, Low, Rest, Pow2;
    OfJoin(a, Join(b, z, p), p);
    OfJoin(b, z, p);
  }

  /** Reversing single bits does nothing. */
  lemma {:induction false} SingleBits(x: nat, c: nat)
    requires x < Pow2(c)
    ensures ReverseFields(x, 1, c) == x
  {
    if c > 0 {
      assert Pow2(1) == 2;
      assert Reverse(x % 2, 1) == x % 2 by {
        assert Reverse(x % 2 / 2, 0) == 0;
        assert Pow2(0) == 1;
      }
      SingleBits(x / 2, c - 1);
    }
  }

  // ----- The bitwise operators, field by field -----

  lemma NoField(s: nat, t: nat)
    ensures Pow2(0) == 1 && And(0, 0) == 0 && Or(0, 0) == 0
    ensures Join(0, s, 1) == s && Join(0, t, 1) == t && Join(0, And(s, t), 1) == And(s, t)
            && Join(0, Or(s, t), 1) == Or(s, t)
  {
  }

  lemma {:induction false} AndJoin(a: nat, s: nat, b: nat, t: nat, k: nat)
    requires a < Pow2(k) && b < Pow2(k)
    ensures And(Join(a, s, Pow2(k)), Join(b, t, Pow2(k))) == Join(And(a, b), And(s, t), Pow2(k))
  {
    hide And, Join, Pow2;
    if k == 0 {
      NoField(s, t);
    } else {
      PowStep(k);
      var p := Pow2(k - 1);
      AndJoin(a / 2, s, b / 2, t, k - 1);
      AndStep(Join(a, s, 2 * p), Join(b, t, 2 * p));
      Halve(a, s, p);
      Halve(b, t, p);
      AndStep(a, b);
      Twice((a % 2) * (b % 2), And(a / 2, b / 2), And(s, t), p);
    }
  }

  lemma {:induction false} AndNone(x: nat)
    ensures And(x, 0) == 0
  {
    if x > 0 {
      AndNone(x / 2);
    }
  }

  lemma {:induction false} AndAll(x: nat, k: nat)
    requires x < Pow2(k)
    ensures And(x, Pow2(k) - 1) == x
    decreases k
  {
    hide And, Pow2;
    if k > 0 {
      PowStep(k);
      var h := Pow2(k - 1);
      assert x / 2 < h;
      AndAll(x / 2, k - 1);
      AndOdd(x, h - 1);
      Halves(x, And(x / 2, h - 1));
    } else {
      SmallPowers();
      AndNone(x);
    }
  }

  lemma Halves(x: nat, y: nat)
    requires y == x / 2
    ensures x % 2 + 2 * y == x
  {
  }

  lemma AndOdd(x: nat, y: nat)
    ensures And(x, 2 * y + 1) == x % 2 + 2 * And(x / 2, y)
  {
    hide And;
    AndStep(x, 2 * y + 1);
    assert (2 * y + 1) % 2 == 1 && (2 * y + 1) / 2 == y;
  }

  lemma {:induction false} OrJoin(a: nat, s: nat, b: nat, t: nat, k: nat)
    requires a < Pow2(k) && b < Pow2(k)
    ensures Or(Join(a, s, Pow2(k)), Join(b, t, Pow2(k))) == Join(Or(a, b), Or(s, t), Pow2(k))
  {
    hide Or, Join, Pow2;
    if k == 0 {
      NoField(s, t);
    } else {
      PowStep(k);
      var p := Pow2(k - 1);
      OrJoin(a / 2, s, b / 2, t, k - 1);
      OrStep(Join(a, s, 2 * p), Join(b, t, 2 * p));
      Halve(a, s, p);
      Halve(b, t, p);
      OrStep(a, b);
      Twice(if a % 2 == 1 || b % 2 == 1 then 1 else 0, Or(a / 2, b / 2), Or(s, t), p);
    }
  }

  lemma OrNone(x: nat)
    ensures Or(x, 0) == x && Or(0, x) == x
  {
  }

  lemma OrStep(x: nat, y: nat)
    ensures Or(x, y) == (if x % 2 == 1 || y % 2 == 1 then 1 else 0) + 2 * Or(x / 2, y / 2)
  {
    OrNone(x / 2);
    OrNone(y / 2);
  }

  // ----- The masked shifts -----

  /** The low field of every pair of fields of `k` bits, in `c` pairs. */
  function Mask(k: nat, c: nat): nat {
    var p := Pow2(k);
    if c == 0 then 0 else Join(p - 1, Join(0, Mask(k, c - 1), p), p)
  }

  /** The low fields of `x`. */
  function Kept(x: nat, k: nat, c: nat): nat
    decreases c
  {
    var p := Pow2(k);
    if c == 0 then 0 else Join(Low(x, p), Join(0, Kept(Rest(Rest(x, p), p), k, c - 1), p), p)
  }

  lemma {:induction false} AndMask(x: nat, k: nat, c: nat)
    ensures And(x, Mask(k, c)) == Kept(x, k, c)
    decreases c
  {
    AndNone(x);
    if c > 0 {
      hide And, Join, Low, Rest, Pow2;
      var p := Pow2(k);
      var y := Rest(x, p);
      var z := Rest(y, p);
      Split(x, p);
      Split(y, p);
      AndJoin(Low(x, p), y, p - 1, Join(0, Mask(k, c - 1), p), k);
      AndJoin(Low(y, p), z, 0, Mask(k, c - 1), k);
      AndAll(Low(x, p), k);
      AndNone(Low(y, p));
      AndMask(z, k, c - 1);
    }
  }

  /** One line of the network: `((x >> k) & mask) | ((x & mask) << k)`. */
  function Stage(x: nat, k: nat, mask: nat): nat {
    Or(And(Rest(x, Pow2(k)), mask), Join(0, And(x, mask), Pow2(k)))
  }

  lemma StageSwaps(x: nat, k: nat, c: nat)
    ensures Stage(x, k, Mask(k, c)) == SwapFields(x, k, c)
  {
    hide And, Or, Join, Low, Rest, Pow2;
    AndMask(x, k, c);
    AndMask(Rest(x, Pow2(k)), k, c);
    KeptSwaps(x, k, c);
  }

  lemma {:induction false} KeptSwaps(x: nat, k: nat, c: nat)
    ensures Or(Kept(Rest(x, Pow2(k)), k, c), Join(0, Kept(x, k, c), Pow2(k))) == SwapFields(x, k, c)
    decreases c
  {
    var p := Pow2(k);
    if c == 0 {
      OrNone(0);
    } else {
      hide Or, Join, Low, Rest, Pow2;
      var y := Rest(x, p);
      var z := Rest(y, p);
      KeptSwaps(z, k, c - 1);
      var kz, kw := Kept(z, k, c - 1), Kept(Rest(z, p), k, c - 1);
      OrJoin(Low(y, p), Join(0, kw, p), 0, Join(Low(x, p), Join(0, kz, p), p), k);
      OrJoin(0, kw, Low(x, p), Join(0, kz, p), k);
      OrNone(Low(y, p));
      OrNone(Low(x, p));
    }
  }

  // ----- The network -----

  const WORD: nat := 0x1_0000_0000_0000_0000

  lemma WordPowers()
    ensures Pow2(1) == 2 && Pow2(2) == 4 && Pow2(4) == 16 && Pow2(8) == 0x100 && Pow2(16) == 0x1_0000
    ensures Pow2(32) == 0x1_0000_0000 && Pow2(64) == WORD
  {
    hide Pow2;
    PowStep(1);
    assert Pow2(0) == 1 by {
      PowAdd(0, 0);
    }
    PowAdd(1, 1);
    PowAdd(2, 2);
    PowAdd(4, 4);
    PowAdd(8, 8);
    PowAdd(16, 16);
    PowAdd(32, 32);
  }

  lemma {:induction false} MaskAdd(k: nat, c: nat, d: nat, q: nat)
    requires q == Pow2(2 * k * c)
    ensures Mask(k, c + d) == Mask(k, c) + q * Mask(k, d)
  {
    if c == 0 {
      assert 2 * k * c == 0;
    } else {
      hide Pow2, Join;
      var p, q' := Pow2(k), Pow2(2 * k * (c - 1));
      MaskAdd(k, c - 1, d, q');
      MaskPower(k, c, 2 * k * (c - 1), 2 * k * c);
      MaskGroup(p, Mask(k, c - 1), q', Mask(k, d));
      assert c + d - 1 == c - 1 + d;
    }
  }

  lemma MaskPower(k: nat, c: nat, e: nat, f: nat)
    requires c > 0 && e == 2 * k * (c - 1) && f == 2 * k * c
    ensures Pow2(k) > 0 && Pow2(f) == Pow2(k) * Pow2(k) * Pow2(e)
  {
    hide Pow2;
    assert f == 2 * k + e by { OneFewer(2 * k, c); }
    TwoMore(k, e);
  }

  lemma OneFewer(x: int, c: int)
    ensures x * c == x + x * (c - 1)
  {
  }

  lemma TwoMore(k: nat, e: nat)
    ensures Pow2(k) > 0 && Pow2(2 * k + e) == Pow2(k) * Pow2(k) * Pow2(e)
  {
    hide Pow2;
    PowAdd(k, k);
    PowAdd(2 * k, e);
  }

  lemma MaskGroup(p: nat, m: nat, q: nat, n: nat)
    requires p > 0
    ensures Join(p - 1, Join(0, m + q * n, p), p) == Join(p - 1, Join(0, m, p), p) + p * p * q * n
  {
    assert p * (m + q * n) == p * m + p * (q * n);
    assert p * (p * m + p * (q * n)) == p * (p * m) + p * (p * (q * n));
    assert p * (p * (q * n)) == p * p * q * n;
  }

  lemma OneMask(k: nat)
    ensures Mask(k, 1) == Pow2(k) - 1
  {
    assert Mask(k, 0) == 0;
    assert Pow2(k) * (0 + Pow2(k) * 0) == 0;
  }

  lemma DoubleMask(k: nat, c: nat, m: nat, q: nat)
    requires m == Mask(k, c) && q == Pow2(2 * k * c)
    ensures Mask(k, 2 * c) == m + q * m
  {
    hide Mask, Pow2;
    MaskAdd(k, c, c, q);
    assert c + c == 2 * c;
  }

  lemma Masks()
    ensures Mask(16, 2) == 0x0000_FFFF_0000_FFFF
    ensures Mask(8, 4) == 0x00FF_00FF_00FF_00FF && Mask(4, 8) == 0x0F0F_0F0F_0F0F_0F0F
    ensures Mask(2, 16) == 0x3333_3333_3333_3333 && Mask(1, 32) == 0x5555_5555_5555_5555
  {
    hide Mask, Pow2;
    WordPowers();
    OneMask(16);
    DoubleMask(16, 1, 0xffff, 0x100000000);
    OneMask(8);
    DoubleMask(8, 1, 0xff, 0x10000);
    DoubleMask(8, 2, 0xff00ff, 0x100000000);
    OneMask(4);
    DoubleMask(4, 1, 0xf, 0x100);
    DoubleMask(4, 2, 0xf0f, 0x10000);
    DoubleMask(4, 4, 0xf0f0f0f, 0x100000000);
    OneMask(2);
    DoubleMask(2, 1, 0x3, 0x10);
    DoubleMask(2, 2, 0x33, 0x100);
    DoubleMask(2, 4, 0x3333, 0x10000);
    DoubleMask(2, 8, 0x33333333, 0x100000000);
    OneMask(1);
    DoubleMask(1, 1, 0x1, 0x4);
    DoubleMask(1, 2, 0x5, 0x10);
    DoubleMask(1, 4, 0x55, 0x100);
    DoubleMask(1, 8, 0x5555, 0x10000);
    DoubleMask(1, 16, 0x55555555, 0x100000000);
  }

  /** The portable 64-bit code. The first line needs no mask: its shifts drop the other half. */
  function ReverseWord(x: nat): nat {
    var x := Or(x / 0x1_0000_0000, x * 0x1_0000_0000 % WORD);
    var x := Or(And(x / 0x1_0000, 0x0000_FFFF_0000_FFFF), And(x, 0x0000_FFFF_0000_FFFF) * 0x1_0000);
    var x := Or(And(x / 0x100, 0x00FF_00FF_00FF_00FF), And(x, 0x00FF_00FF_00FF_00FF) * 0x100);
    var x := Or(And(x / 16, 0x0F0F_0F0F_0F0F_0F0F), And(x, 0x0F0F_0F0F_0F0F_0F0F) * 16);
    var x := Or(And(x / 4, 0x3333_3333_3333_3333), And(x, 0x3333_3333_3333_3333) * 4);
    Or(And(x / 2, 0x5555_5555_5555_5555), And(x, 0x5555_5555_5555_5555) * 2)
  }

  /** The network computes the reversal. */
  lemma NetworkReverses(x: nat)
    requires x < WORD
    ensures ReverseWord(x) == Reverse(x, 64)
  {
    hide Or, And, Mask, SwapFields, ReverseFields, Reverse, Pow2;
    WordPowers();
    Masks();
    WholeWord(x);
    HalvesSwap(x);
    Halving(x, 32, 1);
    var x1 := SwapFields(x, 32, 1);
    StageSwaps(x1, 16, 2);
    Halving(x1, 16, 2);
    var x2 := SwapFields(x1, 16, 2);
    StageSwaps(x2, 8, 4);
    Halving(x2, 8, 4);
    var x3 := SwapFields(x2, 8, 4);
    StageSwaps(x3, 4, 8);
    Halving(x3, 4, 8);
    var x4 := SwapFields(x3, 4, 8);
    StageSwaps(x4, 2, 16);
    Halving(x4, 2, 16);
    var x5 := SwapFields(x4, 2, 16);
    StageSwaps(x5, 1, 32);
    Halving(x5, 1, 32);
    SwapBound(x5, 1, 32);
    SingleBits(SwapFields(x5, 1, 32), 64);
  }

  lemma WholeWord(x: nat)
    requires x < WORD
    ensures ReverseFields(x, 64, 1) == Reverse(x, 64)
  {
    hide Reverse, Pow2, Low, Rest, Join;
    WordPowers();
    assert ReverseFields(Rest(x, WORD), 64, 0) == 0;
    WholeField(x, Reverse(x, 64));
  }

  lemma WholeField(x: nat, r: nat)
    requires x < WORD
    ensures Low(x, WORD) == x && Join(r, 0, WORD) == r
  {
  }

  lemma HalvesSwap(x: nat)
    requires x < WORD
    ensures Or(x / 0x1_0000_0000, x * 0x1_0000_0000 % WORD) == SwapFields(x, 32, 1)
  {
    hide Or, Pow2;
    WordPowers();
    var p: nat := 0x1_0000_0000;
    var hi, lo := Rest(x, p), Low(x, p);
    assert x * p % WORD == Join(0, lo, p);
    assert Low(hi, p) == hi && Rest(hi, p) == 0;
    assert hi == Join(hi, 0, p);
    OrJoin(hi, 0, 0, lo, 32);
    OrNone(hi);
    OrNone(lo);
    assert SwapFields(0, 32, 0) == 0;
    assert lo == Join(lo, 0, p);
  }

  lemma {:induction false} SwapBound(x: nat, k: nat, c: nat)
    ensures SwapFields(x, k, c) < Pow2(2 * k * c)
    decreases c
  {
    if c == 0 {
      assert 2 * k * c == 0;
    } else {
      hide Join, Low, Rest, Pow2;
      var p := Pow2(k);
      var y := Rest(x, p);
      SwapBound(Rest(y, p), k, c - 1);
      var z, q := SwapFields(Rest(y, p), k, c - 1), Pow2(2 * k * (c - 1));
      JoinBound(Low(x, p), z, p, q);
      JoinBound(Low(y, p), Join(Low(x, p), z, p), p, p * q);
      PowAdd(k, k + 2 * k * (c - 1));
      PowAdd(k, 2 * k * (c - 1));
      assert 2 * k * c == k + (k + 2 * k * (c - 1));
    }
  }
}
