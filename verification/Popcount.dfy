/** Counting bits: the word-parallel sums agree with counting one bit at a time. */
module Popcount {
  import Partition
  import opened Bits

  /** The number of bits set. */
  function Pop(x: nat): nat {
    if x == 0 then 0 else x % 2 + Pop(x / 2)
  }

  function Total(s: seq<Byte>): nat {
    if s == [] then 0 else Total(s[..|s| - 1]) + Pop(s[|s| - 1])
  }

  lemma {:induction false} TotalConcat(a: seq<Byte>, b: seq<Byte>)
    ensures Total(a + b) == Total(a) + Total(b)
  {
    if b == [] {
      assert a + b == a;
    } else {
      assert (a + b)[..|a + b| - 1] == a + b[..|b| - 1];
      TotalConcat(a, b[..|b| - 1]);
    }
  }

  lemma PopStep(x: nat)
    ensures Pop(x) == x % 2 + Pop(x / 2)
  {
  }

  // ----- The masks, by the number of fields they cover -----

  /** 0x55...: the low bit of every pair. */
  function Fives(k: nat): nat {
    if k == 0 then 0 else 1 + 4 * Fives(k - 1)
  }

  /** 0x33...: the low pair of every nibble. */
  function Threes(k: nat): nat {
    if k == 0 then 0 else 3 + 16 * Threes(k - 1)
  }

  /** 0x0F...: the low nibble of every byte. */
  function Lows(k: nat): nat {
    if k == 0 then 0 else 15 + 256 * Lows(k - 1)
  }

  lemma MasksAre()
    ensures Fives(16) == 0x5555_5555 && Threes(8) == 0x3333_3333 && Lows(4) == 0x0F0F_0F0F
  {
    assert Fives(4) == 0x55;
    assert Fives(8) == 0x5555;
    assert Fives(12) == 0x55_5555;
    assert Threes(4) == 0x3333;
  }

  function Pow16(k: nat): (p: nat)
    ensures p > 0
  {
    if k == 0 then 1 else 16 * Pow16(k - 1)
  }

  lemma FivesUnfold(k: nat)
    requires k > 0
    ensures Fives(k) == 1 + 4 * Fives(k - 1) && Threes(k) == 3 + 16 * Threes(k - 1) && Lows(k) == 15 + 256 * Lows(k - 1)
  {
  }

  lemma Pow4Unfold(k: nat)
    requires k > 0
    ensures Pow4(k) == 4 * Pow4(k - 1) && Pow16(k) == 16 * Pow16(k - 1) && Pow256(k) == 256 * Pow256(k - 1)
  {
  }

  lemma AndZero(y: nat)
    ensures And(0, y) == 0 && Pairs(0) == 0 && Nibbles(0) == 0 && Bytes(0) == 0 && Pop(0) == 0
  {
  }

  lemma PowZero()
    ensures Pow4(0) == 1 && Pow16(0) == 1 && Pow256(0) == 1
  {
  }

  // ----- Pairs -----

  /** Every pair replaced by the number of its bits. */
  function Pairs(x: nat): nat {
    if x == 0 then 0 else x % 2 + (x / 2) % 2 + 4 * Pairs(x / 4)
  }

  lemma {:induction false} PairStep(x: nat, k: nat)
    requires x < Pow4(k)
    ensures And(x / 2, Fives(k)) <= x && x - And(x / 2, Fives(k)) == Pairs(x)
  {
    hide And, Fives, Pairs, Pow4;
    if k > 0 {
      var m := Fives(k);
      FivesUnfold(k);
      Pow4Unfold(k);
      PairsUnfold(x);
      PairStep(x / 4, k - 1);
      AndStep(x / 2, m);
      AndStep(x / 2 / 2, m / 2);
      assert m % 2 == 1 && m / 2 % 2 == 0 && m / 2 / 2 == Fives(k - 1);
      assert x / 2 / 2 == x / 4 && x / 2 / 2 / 2 == x / 4 / 2;
    } else {
      PowZero();
      AndZero(Fives(k));
    }
  }

  // ----- Nibbles -----

  /** Every nibble replaced by the sum of its pairs. */
  function Nibbles(x: nat): nat {
    if x == 0 then 0 else x % 4 + (x / 4) % 4 + 16 * Nibbles(x / 16)
  }

  lemma {:induction false} AndThrees(x: nat, k: nat)
    requires k > 0
    ensures And(x, Threes(k)) == x % 4 + 16 * And(x / 16, Threes(k - 1))
  {
    hide And, Threes;
    var m := Threes(k);
    FivesUnfold(k);
    AndStep(x, m);
    AndStep(x / 2, m / 2);
    AndStep(x / 4, m / 4);
    AndStep(x / 8, m / 8);
    assert m % 2 == 1 && m / 2 % 2 == 1 && m / 4 % 2 == 0 && m / 8 % 2 == 0 && m / 16 == Threes(k - 1);
    assert x / 2 / 2 == x / 4 && x / 4 / 2 == x / 8 && x / 8 / 2 == x / 16;
    assert m / 2 / 2 == m / 4 && m / 4 / 2 == m / 8 && m / 8 / 2 == m / 16;
  }

  lemma {:induction false} NibbleStep(x: nat, k: nat)
    requires x < Pow16(k)
    ensures And(x, Threes(k)) + And(x / 4, Threes(k)) == Nibbles(x)
  {
    hide And, Threes, Nibbles, Pow16;
    if k > 0 {
      Pow4Unfold(k);
      NibblesUnfold(x);
      NibbleStep(x / 16, k - 1);
      AndThrees(x, k);
      AndThrees(x / 4, k);
      assert x / 4 / 16 == x / 16 / 4;
    } else {
      PowZero();
      AndZero(Threes(k));
    }
  }

  // ----- Bytes -----

  /** Every byte replaced by the sum of its nibbles. */
  function Bytes(x: nat): nat {
    if x == 0 then 0 else x % 16 + (x / 16) % 16 + 256 * Bytes(x / 256)
  }

  /** No nibble is above four. */
  predicate Small(x: nat) {
    x == 0 || (x % 16 <= 4 && Small(x / 16))
  }

  lemma AndCons(b: nat, z: nat, c: nat, y: nat)
    requires b < 2 && c < 2
    ensures And(b + 2 * z, c + 2 * y) == b * c + 2 * And(z, y)
  {
    AndStep(b + 2 * z, c + 2 * y);
  }

  lemma Sixteenth(x: nat, b0: nat, b1: nat, b2: nat, b3: nat, r: nat)
    requires b0 < 2 && b1 < 2 && b2 < 2 && b3 < 2 && x == b0 + 2 * (b1 + 2 * (b2 + 2 * (b3 + 2 * r)))
    ensures x / 4 == b2 + 2 * (b3 + 2 * r) && x / 8 == b3 + 2 * r && x / 16 == r
    ensures x % 16 == b0 + 2 * (b1 + 2 * (b2 + 2 * b3))
  {
  }

  lemma Split(x: nat) returns (b0: nat, b1: nat, b2: nat, b3: nat, r: nat)
    ensures b0 == x % 2 && b1 == x / 2 % 2 && b2 == x / 4 % 2 && b3 == x / 8 % 2 && r == x / 16
    ensures x == b0 + 2 * (b1 + 2 * (b2 + 2 * (b3 + 2 * r)))
    ensures x % 16 == b0 + 2 * (b1 + 2 * (b2 + 2 * b3))
  {
    var x1 := x / 2;
    var x2 := x1 / 2;
    var x3 := x2 / 2;
    b0, b1, b2, b3, r := x % 2, x1 % 2, x2 % 2, x3 % 2, x3 / 2;
    Sixteenth(x, b0, b1, b2, b3, r);
  }

  lemma AndBits(b0: nat, b1: nat, b2: nat, b3: nat, r: nat, c: nat, y: nat)
    requires b0 < 2 && b1 < 2 && b2 < 2 && b3 < 2 && c < 2
    ensures And(b0 + 2 * (b1 + 2 * (b2 + 2 * (b3 + 2 * r))), 15 * c + 16 * y)
            == c * (b0 + 2 * (b1 + 2 * (b2 + 2 * b3))) + 16 * And(r, y)
  {
    hide And;
    AndCons(b0, b1 + 2 * (b2 + 2 * (b3 + 2 * r)), c, 7 * c + 8 * y);
    AndCons(b1, b2 + 2 * (b3 + 2 * r), c, 3 * c + 4 * y);
    AndCons(b2, b3 + 2 * r, c, c + 2 * y);
    AndCons(b3, r, c, y);
  }

  lemma AndNibbleOn(x: nat, y: nat)
    ensures And(x, 15 + 16 * y) == x % 16 + 16 * And(x / 16, y)
  {
    hide And;
    var b0, b1, b2, b3, r := Split(x);
    AndBits(b0, b1, b2, b3, r, 1, y);
  }

  lemma AndNibbleOff(x: nat, y: nat)
    ensures And(x, 16 * y) == 16 * And(x / 16, y)
  {
    hide And;
    var b0, b1, b2, b3, r := Split(x);
    AndBits(b0, b1, b2, b3, r, 0, y);
  }

  lemma AndLows(x: nat, k: nat)
    requires k > 0
    ensures And(x, Lows(k)) == x % 16 + 256 * And(x / 256, Lows(k - 1))
  {
    hide And, Lows;
    FivesUnfold(k);
    AndNibbleOn(x, 16 * Lows(k - 1));
    AndNibbleOff(x / 16, Lows(k - 1));
    assert x / 16 / 16 == x / 256;
  }

  lemma NibbleSums(x: nat, z: nat, y: nat)
    requires z == x / 16 && y == z / 16 && x % 16 <= 4 && z % 16 <= 4 && y % 16 <= 4
    ensures (x + z) % 16 == x % 16 + z % 16 && (x + z) / 256 == y + y / 16
  {
    var n0, n1, n2, u := x % 16, z % 16, y % 16, y / 16;
    assert x + z == 16 * (n1 + 16 * y + n2 + 16 * u) + (n0 + n1);
    Partition.QuotientUnique(16, n1 + 16 * y + n2 + 16 * u, n0 + n1, (x + z) / 16, (x + z) % 16);
    assert x + z == 256 * (y + u) + (n0 + 17 * n1 + 16 * n2);
    Partition.QuotientUnique(256, y + u, n0 + 17 * n1 + 16 * n2, (x + z) / 256, (x + z) % 256);
  }

  lemma {:induction false} ByteStep(x: nat, k: nat)
    requires x < Pow256(k) && Small(x)
    ensures And(x + x / 16, Lows(k)) == Bytes(x)
  {
    hide And, Lows, Bytes, Pow256, Small;
    if k > 0 {
      var y := x / 256;
      Pow4Unfold(k);
      BytesUnfold(x);
      assert x / 16 / 16 == y;
      SmallUnfold(x);
      SmallUnfold(x / 16);
      SmallUnfold(y);
      ByteStep(y, k - 1);
      AndLows(x + x / 16, k);
      NibbleSums(x, x / 16, y);
    } else {
      PowZero();
      AndZero(Lows(k));
    }
  }

  // ----- One word -----

  lemma PairParts(p: nat, a: nat, b: nat, q: nat)
    requires a <= 2 && b <= 2 && p == a + 4 * (b + 4 * q)
    ensures p % 4 == a && p / 4 % 4 == b && p / 16 == q
  {
  }

  lemma NibbleParts(n: nat, a: nat, q: nat)
    requires a <= 4 && n == a + 16 * q
    ensures n % 16 == a && n / 16 == q
  {
  }

  /** The low nibble on its way through the first two steps. */
  lemma NibbleIs(x: nat)
    ensures var p := Pairs(x); var n := Nibbles(p);
            p / 16 == Pairs(x / 16) && n % 16 == Pop(x % 16) <= 4 && n / 16 == Nibbles(Pairs(x / 16))
  {
    hide Pairs, Nibbles, Pop;
    var b0, b1, b2, b3, r := Split(x);
    PairsOf(x, b0, b1, b2, b3, r);
    NibbleFrom(Pairs(x), Pairs(r), b0, b1, b2, b3);
    NibblePop(x % 16, b0, b1, b2, b3);
  }

  lemma NibbleFrom(p: nat, q: nat, b0: nat, b1: nat, b2: nat, b3: nat)
    requires b0 < 2 && b1 < 2 && b2 < 2 && b3 < 2 && p == b0 + b1 + 4 * (b2 + b3 + 4 * q)
    ensures p / 16 == q && Nibbles(p) % 16 == b0 + b1 + b2 + b3 && Nibbles(p) / 16 == Nibbles(q)
  {
    hide Nibbles;
    NibblesUnfold(p);
    PairParts(p, b0 + b1, b2 + b3, q);
    NibbleParts(Nibbles(p), b0 + b1 + b2 + b3, Nibbles(q));
  }

  lemma NibblePop(y: nat, b0: nat, b1: nat, b2: nat, b3: nat)
    requires b0 < 2 && b1 < 2 && b2 < 2 && b3 < 2 && y == b0 + 2 * (b1 + 2 * (b2 + 2 * b3))
    ensures Pop(y) == b0 + b1 + b2 + b3
  {
    PopBits(b0, b1, b2, b3, 0);
    AndZero(0);
  }

  lemma PairsOf(x: nat, b0: nat, b1: nat, b2: nat, b3: nat, r: nat)
    requires b0 == x % 2 && b1 == x / 2 % 2 && b2 == x / 4 % 2 && b3 == x / 8 % 2 && r == x / 16
    ensures Pairs(x) == b0 + b1 + 4 * (b2 + b3 + 4 * Pairs(r))
  {
    hide Pairs;
    PairsUnfold(x);
    PairsUnfold(x / 4);
    assert x / 4 / 2 == x / 8 && x / 4 / 4 == x / 16;
  }

  lemma PopCons(b: nat, z: nat)
    requires b < 2
    ensures Pop(b + 2 * z) == b + Pop(z)
  {
    PopStep(b + 2 * z);
  }

  lemma PopBits(b0: nat, b1: nat, b2: nat, b3: nat, r: nat)
    requires b0 < 2 && b1 < 2 && b2 < 2 && b3 < 2
    ensures Pop(b0 + 2 * (b1 + 2 * (b2 + 2 * (b3 + 2 * r)))) == b0 + b1 + b2 + b3 + Pop(r)
  {
    hide Pop;
    PopCons(b0, b1 + 2 * (b2 + 2 * (b3 + 2 * r)));
    PopCons(b1, b2 + 2 * (b3 + 2 * r));
    PopCons(b2, b3 + 2 * r);
    PopCons(b3, r);
  }

  lemma ByteParts(x: nat)
    ensures x % 256 % 16 == x % 16 && x % 256 / 16 == x / 16 % 16
  {
  }

  lemma PopByte(x: nat)
    ensures Pop(x % 256) == Pop(x % 16) + Pop(x / 16 % 16)
  {
    hide Pop;
    var y := x % 256;
    var b0, b1, b2, b3, r := Split(y);
    ByteParts(x);
    PopBits(b0, b1, b2, b3, 0);
    PopBits(b0, b1, b2, b3, r);
    AndZero(0);
  }

  /** The bit counts of the `k` low bytes, one per byte. */
  function BytePops(x: nat, k: nat): nat {
    if k == 0 then 0 else Pop(x % 256) + 256 * BytePops(x / 256, k - 1)
  }

  /** The first two steps stay inside the word and leave small nibbles. */
  lemma {:induction false} TwoSteps(x: nat, k: nat)
    requires x < Pow16(k)
    ensures Pairs(x) < Pow16(k) && Nibbles(Pairs(x)) < Pow16(k) && Small(Nibbles(Pairs(x)))
    decreases k
  {
    hide Pairs, Nibbles, Pop, Pow16, Small;
    if k == 0 {
      PowZero();
      AndZero(0);
      SmallZero();
    } else {
      Pow4Unfold(k);
      TwoSteps(x / 16, k - 1);
      NibbleIs(x);
      SmallFold(Nibbles(Pairs(x)));
    }
  }

  lemma SmallZero()
    ensures Small(0)
  {
  }

  lemma SmallFold(x: nat)
    requires x % 16 <= 4 && Small(x / 16)
    ensures Small(x)
  {
  }

  /** All three steps together count the bits of each byte. */
  lemma {:induction false} ThreeSteps(x: nat, k: nat)
    requires x < Pow256(k)
    ensures Bytes(Nibbles(Pairs(x))) == BytePops(x, k)
    decreases k
  {
    hide Pairs, Nibbles, Pop, Pow256, Bytes;
    if k == 0 {
      PowZero();
      AndZero(0);
    } else {
      Pow4Unfold(k);
      ThreeSteps(x / 256, k - 1);
      NibbleIs(x);
      NibbleIs(x / 16);
      assert x / 16 / 16 == x / 256;
      var n := Nibbles(Pairs(x));
      BytesUnfold(n);
      assert n / 256 == n / 16 / 16;
      PopByte(x);
    }
  }

  lemma SmallUnfold(x: nat)
    requires Small(x)
    ensures x % 16 <= 4 && Small(x / 16)
  {
  }

  lemma PairsUnfold(x: nat)
    ensures Pairs(x) == x % 2 + (x / 2) % 2 + 4 * Pairs(x / 4)
  {
  }

  lemma NibblesUnfold(x: nat)
    ensures Nibbles(x) == x % 4 + (x / 4) % 4 + 16 * Nibbles(x / 16)
  {
  }

  lemma BytesUnfold(x: nat)
    ensures Bytes(x) == x % 16 + (x / 16) % 16 + 256 * Bytes(x / 256)
  {
  }

  // ----- Seven words at a time -----

  const WORD: nat := 0x1_0000_0000

  /** The 32-bit arithmetic of the loop body, for one word. */
  function Spread(x: nat): nat
    requires x < WORD
  {
    var a := (x + WORD - And(x / 2, 0x5555_5555)) % WORD;
    var b := (And(a, 0x3333_3333) + And(a / 4, 0x3333_3333)) % WORD;
    And((b + b / 16) % WORD, 0x0F0F_0F0F)
  }

  lemma PowsAre()
    ensures Pow4(16) == WORD && Pow16(8) == WORD && Pow256(4) == WORD
  {
    assert Pow4(4) == 256;
    assert Pow4(8) == 65536;
    assert Pow4(12) == 16777216;
    assert Pow16(4) == 65536;
  }

  /** Without any overflow, each byte of the result is the bit count of that byte. */
  lemma SpreadIs(x: nat)
    requires x < WORD
    ensures Spread(x) == BytePops(x, 4)
  {
    hide And, Pairs, Nibbles, Bytes, BytePops;
    FirstStep(x);
    SecondStep(x);
    ThirdStep(x);
  }

  lemma Wraps(y: nat)
    requires y < WORD
    ensures y % WORD == y && (y + WORD) % WORD == y
  {
  }

  lemma FirstStep(x: nat)
    requires x < WORD
    ensures (x + WORD - And(x / 2, 0x5555_5555)) % WORD == Pairs(x) < WORD
  {
    hide And, Pairs, Nibbles, Pow4, Pow16, Fives, Threes, Lows, Small;
    MasksAre();
    PowsAre();
    PairStep(x, 16);
    TwoSteps(x, 8);
    Wraps(Pairs(x));
  }

  lemma SecondStep(x: nat)
    requires x < WORD
    ensures var a := Pairs(x);
            (And(a, 0x3333_3333) + And(a / 4, 0x3333_3333)) % WORD == Nibbles(a) < WORD
  {
    hide And, Pairs, Nibbles, Pow4, Pow16, Fives, Threes, Lows, Small;
    MasksAre();
    PowsAre();
    TwoSteps(x, 8);
    NibbleStep(Pairs(x), 8);
    Wraps(Nibbles(Pairs(x)));
  }

  lemma ThirdStep(x: nat)
    requires x < WORD
    ensures var b := Nibbles(Pairs(x));
            And((b + b / 16) % WORD, 0x0F0F_0F0F) == BytePops(x, 4)
  {
    hide And, Pairs, Nibbles, Bytes, Pow4, Pow16, Pow256, Fives, Threes, Lows, Small, BytePops;
    MasksAre();
    PowsAre();
    TwoSteps(x, 8);
    var b := Nibbles(Pairs(x));
    ByteStep(b, 4);
    ThreeSteps(x, 4);
    SmallBound(b, 8);
    Wraps(b + b / 16);
  }

  lemma {:induction false} SmallBound(x: nat, k: nat)
    requires x < Pow16(k) && Small(x)
    ensures 3 * x < Pow16(k)
  {
    hide Pow16, Small;
    if k == 0 {
      PowZero();
    } else {
      Pow4Unfold(k);
      SmallUnfold(x);
      SmallBound(x / 16, k - 1);
    }
  }

  lemma PopAtMost(x: nat)
    ensures Pop(x % 256) <= 8
  {
    hide Pop, Pairs, Nibbles;
    PopByte(x);
    NibbleIs(x);
    NibbleIs(x / 16);
  }

  /** The 32-bit word at four bytes, least significant first. */
  function Load(b: seq<Byte>): (x: nat)
    requires |b| == 4
    ensures x < WORD
  {
    var b0: int, b1: int, b2: int, b3: int := b[0], b[1], b[2], b[3];
    b0 + 256 * b1 + 65536 * b2 + 16777216 * b3
  }

  lemma LoadSpread(b: seq<Byte>)
    requires |b| == 4
    ensures Spread(Load(b)) == Pop(b[0]) + 256 * Pop(b[1]) + 65536 * Pop(b[2]) + 16777216 * Pop(b[3])
  {
    hide Pop, BytePops, Spread;
    var x := Load(b);
    SpreadIs(x);
    BytePopsUnfold(x, 4);
    BytePopsUnfold(x / 256, 3);
    BytePopsUnfold(x / 256 / 256, 2);
    BytePopsUnfold(x / 256 / 256 / 256, 1);
    LoadParts(b);
    NoPops(x / 256 / 256 / 256 / 256);
  }

  lemma LoadParts(b: seq<Byte>)
    requires |b| == 4
    ensures var x := Load(b);
            x % 256 == b[0] && x / 256 % 256 == b[1] && x / 256 / 256 % 256 == b[2] && x / 256 / 256 / 256 % 256 == b[3]
  {
    var x := Load(b);
    var b1: int, b2: int, b3: int := b[1], b[2], b[3];
    assert x / 256 == b1 + 256 * b2 + 65536 * b3;
    assert x / 256 / 256 == b2 + 256 * b3;
    assert x / 256 / 256 / 256 == b3;
  }

  lemma BytePopsUnfold(x: nat, k: nat)
    requires k > 0
    ensures BytePops(x, k) == Pop(x % 256) + 256 * BytePops(x / 256, k - 1)
  {
  }

  lemma NoPops(x: nat)
    ensures BytePops(x, 0) == 0
  {
  }

  /** The multiplication gathers the four byte sums in the top byte. */
  lemma HighByte(s0: nat, s1: nat, s2: nat, s3: nat)
    requires s0 <= 56 && s1 <= 56 && s2 <= 56 && s3 <= 56
    ensures var s := s0 + 256 * s1 + 65536 * s2 + 16777216 * s3;
            s < WORD && (s * 0x0101_0101) % WORD / 0x100_0000 == s0 + s1 + s2 + s3
  {
    var s := s0 + 256 * s1 + 65536 * s2 + 16777216 * s3;
    var t := s0 + s1 + s2 + s3;
    var low := s0 + 256 * (s0 + s1) + 65536 * (s0 + s1 + s2);
    var high := s1 + s2 + s3 + 256 * (s2 + s3) + 65536 * s3;
    assert s * 0x0101_0101 == low + 0x100_0000 * t + WORD * high;
    var y, z := low + 0x100_0000 * t, s * 0x0101_0101;
    Partition.QuotientUnique(WORD, high, y, z / WORD, z % WORD);
    Partition.QuotientUnique(0x100_0000, t, low, y / 0x100_0000, y % 0x100_0000);
  }

  lemma {:induction false} TotalPrefix(s: seq<Byte>, i: nat)
    requires i < |s|
    ensures Total(s[..i + 1]) == Total(s[..i]) + Pop(s[i])
  {
    assert s[..i + 1][..i] == s[..i];
  }

  /** The sum of seven words and the bit counts they stand for, byte by byte. */
  method SumSeven(b: seq<Byte>) returns (bits: nat)
    requires |b| == 28
    ensures bits == Total(b)
  {
    hide Pop, Spread, Total;
    var sum := 0;
    ghost var s0, s1, s2, s3 := 0, 0, 0, 0;
    assert b[..0] == [];
    NoBits();
    for k := 0 to 7
      invariant 0 <= s0 <= 8 * k && 0 <= s1 <= 8 * k && 0 <= s2 <= 8 * k && 0 <= s3 <= 8 * k
      invariant sum == s0 + 256 * s1 + 65536 * s2 + 16777216 * s3
      invariant s0 + s1 + s2 + s3 == Total(b[..4 * k])
    {
      var w := b[4 * k..4 * k + 4];
      LoadSpread(w);
      ByteAtMost(w[0]);
      ByteAtMost(w[1]);
      ByteAtMost(w[2]);
      ByteAtMost(w[3]);
      FourMore(b, 4 * k);
      sum := sum + Spread(Load(w));
      s0, s1, s2, s3 := s0 + Pop(w[0]), s1 + Pop(w[1]), s2 + Pop(w[2]), s3 + Pop(w[3]);
    }
    assert b[..28] == b;
    HighByte(s0, s1, s2, s3);
    bits := (sum * 0x0101_0101) % WORD / 0x100_0000;
  }

  lemma NoBits()
    ensures Total([]) == 0
  {
  }

  lemma ByteAtMost(b: Byte)
    ensures Pop(b) <= 8
  {
    hide Pop;
    PopAtMost(b);
  }

  lemma FourMore(s: seq<Byte>, i: nat)
    requires i + 4 <= |s|
    ensures Total(s[..i + 4]) == Total(s[..i]) + Pop(s[i]) + Pop(s[i + 1]) + Pop(s[i + 2]) + Pop(s[i + 3])
  {
    hide Pop, Total;
    TotalPrefix(s, i);
    TotalPrefix(s, i + 1);
    TotalPrefix(s, i + 2);
    TotalPrefix(s, i + 3);
  }

  /** The number of bits set in a string that starts at the given address: single bytes up to the next
      multiple of four, then 28 bytes at a time, then the rest. */
  method RedisPopcount(s: seq<Byte>, address: nat) returns (bits: nat)
    ensures bits == Total(s)
  {
    hide Pop, Total;
    var i := 0;
    bits := 0;
    assert s[..0] == [];
    NoBits();
    while (address + i) % 4 != 0 && i < |s|
      invariant 0 <= i <= |s| && bits == Total(s[..i])
      decreases |s| - i
    {
      TotalPrefix(s, i);
      bits := bits + Pop(s[i]);
      i := i + 1;
    }
    while |s| - i >= 28
      invariant 0 <= i <= |s| && bits == Total(s[..i])
    {
      var more := SumSeven(s[i..i + 28]);
      assert s[..i + 28] == s[..i] + s[i..i + 28];
      TotalConcat(s[..i], s[i..i + 28]);
      bits := bits + more;
      i := i + 28;
    }
    while i < |s|
      invariant 0 <= i <= |s| && bits == Total(s[..i])
    {
      TotalPrefix(s, i);
      bits := bits + Pop(s[i]);
      i := i + 1;
    }
    assert s[..|s|] == s;
  }
}
