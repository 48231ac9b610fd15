/** The position of the first set or clear bit of a string, found by bytes and words. */
module Bitpos {
  import Partition
  import opened Bits

  /** Bit `i` counted from the left: the first bit is the most significant one of the first byte. To the
      right of the string all bits are zero. */
  function BitAt(s: seq<Byte>, i: nat): nat {
    if i / 8 < |s| then s[i / 8] / Pow2(7 - i % 8) % 2 else 0
  }

  /** `p` is the first position with this bit. */
  ghost predicate IsFirst(s: seq<Byte>, bit: nat, p: nat) {
    BitAt(s, p) == bit && forall i: nat :: i < p ==> BitAt(s, i) != bit
  }

  /** The bytes as one number, first byte most significant. */
  function Word(s: seq<Byte>): nat {
    if s == [] then 0 else 256 * Word(s[..|s| - 1]) + s[|s| - 1]
  }

  // ----- Bits of words -----

  lemma DivDiv(x: nat, a: nat, p: nat)
    requires a > 0 && p > 0
    ensures a * p > 0 && x / (a * p) == x / a / p
  {
    Parts(x, a, p, x / a, x % a, x / a / p, x / a % p);
  }

  lemma Parts(x: nat, a: nat, p: nat, q: nat, r: nat, k: nat, t: nat)
    requires r < a && t < p && x == a * q + r && q == k * p + t
    ensures a * p > 0 && x / (a * p) == k
  {
    Regroup(a, p, k, t);
    Bound(a, p, t, r);
    Partition.DivModOf(x, a * p, k, a * t + r);
  }

  lemma Regroup(a: nat, p: nat, k: nat, t: nat)
    ensures a * (k * p + t) == k * (a * p) + a * t
  {
  }

  lemma Bound(a: nat, p: nat, t: nat, r: nat)
    requires t < p && r < a
    ensures a * t + r < a * p
  {
    assert a * (t + 1) <= a * p;
  }

  lemma PowEight(k: nat)
    ensures Pow2(k + 8) == 256 * Pow2(k)
  {
    assert Pow2(k + 2) == 2 * Pow2(k + 1) == 4 * Pow2(k);
    assert Pow2(k + 4) == 2 * Pow2(k + 3) == 4 * Pow2(k + 2);
    assert Pow2(k + 6) == 2 * Pow2(k + 5) == 4 * Pow2(k + 4);
    assert Pow2(k + 8) == 2 * Pow2(k + 7) == 4 * Pow2(k + 6);
  }

  lemma LowBit(b: nat, x: nat, k: nat)
    requires b < 256 && k < 8
    ensures (256 * x + b) / Pow2(k) % 2 == b / Pow2(k) % 2
  {
    SplitPower(k);
    hide Pow2;
    LowBitOf(b, x, Pow2(k), Pow2(7 - k));
  }

  lemma LowBitOf(b: nat, x: nat, p: nat, h: nat)
    requires p > 0 && 2 * h * p == 256
    ensures (256 * x + b) / p % 2 == b / p % 2
  {
    ShiftedQuotient(b, x, p, h, b / p, b % p, h * x);
  }

  lemma ShiftedQuotient(b: nat, x: nat, p: nat, h: nat, q: nat, r: nat, y: nat)
    requires r < p && 2 * h * p == 256 && b == q * p + r && y == h * x
    ensures (256 * x + b) / p % 2 == q % 2
  {
    MulThree(h, x, p);
    assert (2 * y + q) * p == 2 * y * p + q * p;
    Partition.DivModOf(256 * x + b, p, 2 * y + q, r);
  }

  lemma MulThree(h: nat, x: nat, p: nat)
    ensures 2 * (h * x) * p == (2 * h * p) * x
  {
  }

  lemma SplitPower(k: nat)
    requires k < 8
    ensures 2 * Pow2(7 - k) * Pow2(k) == 256
  {
    SmallPowers();
  }

  /** The bits of a word, from the most significant one, are the bits of its bytes from the left. */
  lemma {:induction false} BitOfWord(s: seq<Byte>, j: nat)
    requires j < 8 * |s|
    ensures Word(s) / Pow2(8 * |s| - 1 - j) % 2 == BitAt(s, j)
  {
    var n := |s| - 1;
    var front: seq<Byte>, last: nat := s[..n], s[n];
    var k := 8 * |s| - 1 - j;
    if j < 8 * n {
      BitOfWord(front, j);
      PowEight(k - 8);
      DivDiv(Word(s), 256, Pow2(k - 8));
      assert Word(s) / 256 == Word(front);
      assert front[j / 8] == s[j / 8];
    } else {
      assert j / 8 == n && 7 - j % 8 == k;
      LowBit(last, Word(front), k);
    }
  }

  lemma {:induction false} WordZero(s: seq<Byte>)
    ensures Word(s) == 0 <==> forall i :: 0 <= i < |s| ==> s[i] == 0
  {
    if s != [] {
      WordZero(s[..|s| - 1]);
    }
  }

  lemma {:induction false} WordMax(s: seq<Byte>)
    ensures Word(s) < Pow2(8 * |s|)
    ensures Word(s) == Pow2(8 * |s|) - 1 <==> forall i :: 0 <= i < |s| ==> s[i] == 255
  {
    if s != [] {
      var n := |s| - 1;
      WordMax(s[..n]);
      PowEight(8 * n);
      assert 8 * |s| == 8 * n + 8;
    }
  }

  lemma UniformBits(b: Byte, k: nat, bit: nat)
    requires k < 8 && bit < 2 && b == (if bit == 1 then 0 else 255)
    ensures b / Pow2(k) % 2 != bit
  {
    SmallPowers();
  }

  /** Bytes of a single kind of bit hold no position of the other kind. */
  ghost predicate Skipped(s: seq<Byte>, bit: nat, i: nat) {
    i <= |s| && forall k :: 0 <= k < i ==> s[k] == if bit == 1 then 0 else 255
  }

  lemma SkippedBits(s: seq<Byte>, bit: nat, i: nat, j: nat)
    requires bit < 2 && Skipped(s, bit, i) && j < 8 * i
    ensures BitAt(s, j) != bit
  {
    UniformBits(s[j / 8], 7 - j % 8, bit);
  }

  /** The eight bytes from `i` on, padded with zeros on the right. */
  function Padded(s: seq<Byte>, i: nat): (b: seq<Byte>)
    ensures |b| == 8
  {
    seq(8, k requires 0 <= k < 8 => if i + k < |s| then s[i + k] else 0)
  }

  lemma PaddedBit(s: seq<Byte>, i: nat, j: nat)
    requires j < 64
    ensures BitAt(Padded(s, i), j) == BitAt(s, 8 * i + j)
  {
    assert (8 * i + j) / 8 == i + j / 8 && (8 * i + j) % 8 == j % 8;
    if i + j / 8 >= |s| {
      assert Padded(s, i)[j / 8] == 0;
      ZeroBit(7 - j % 8);
    }
  }

  lemma ZeroBit(k: nat)
    ensures 0 / Pow2(k) % 2 == 0
  {
  }

  /** The eight bytes at `i` are the machine word the loop compares, whatever its byte order. */
  lemma WholeWord(s: seq<Byte>, i: nat, bit: nat)
    requires i + 8 <= |s| && bit < 2 && Skipped(s, bit, i)
    ensures Word(s[i..i + 8]) == (if bit == 1 then 0 else Pow2(64) - 1) <==> Skipped(s, bit, i + 8)
  {
    var w := s[i..i + 8];
    WordZero(w);
    WordMax(w);
    assert forall k :: 0 <= k < 8 ==> w[k] == s[i + k];
    if Skipped(s, bit, i + 8) {
      assert forall k :: 0 <= k < 8 ==> w[k] == if bit == 1 then 0 else 255;
    } else {
      var k :| i <= k < i + 8 && s[k] != if bit == 1 then 0 else 255;
      assert w[k - i] == s[k];
    }
  }

  // ----- The search -----

  /** Skips single bytes up to an aligned address and whole words after it while they hold no match. */
  method SkipAhead(s: seq<Byte>, address: nat, bit: nat) returns (i: nat)
    requires bit < 2
    ensures Skipped(s, bit, i)
    ensures i + 8 > |s| || !Skipped(s, bit, i + 8)
  {
    hide Word, Pow2;
    i := 0;
    while (address + i) % 8 != 0 && i < |s|
      invariant Skipped(s, bit, i)
      decreases |s| - i
    {
      if s[i] != if bit == 1 then 0 else 255 {
        break;
      }
      i := i + 1;
    }
    while |s| - i >= 8
      invariant Skipped(s, bit, i)
    {
      WholeWord(s, i, bit);
      if Word(s[i..i + 8]) != if bit == 1 then 0 else Pow2(64) - 1 {
        break;
      }
      i := i + 8;
    }
  }

  lemma EmptyWord()
    ensures Word([]) == 0
  {
  }

  lemma WordAppend(s: seq<Byte>, j: nat)
    requires j < |s|
    ensures Word(s[..j + 1]) == 256 * Word(s[..j]) + s[j]
  {
    assert s[..j + 1][..j] == s[..j];
  }

  lemma HalfPower(k: nat)
    ensures Pow2(k) / 2 == if k > 0 then Pow2(k - 1) else 0
  {
  }

  /** A number of `n` bits that are not all of the other kind has a bit of this kind. */
  lemma {:induction false} SomeBit(x: nat, n: nat, bit: nat) returns (k: nat)
    requires bit < 2 && x < Pow2(n) && x != if bit == 1 then 0 else Pow2(n) - 1
    ensures k < n && x / Pow2(n - 1 - k) % 2 == bit
    decreases n
  {
    if x % 2 == bit {
      k := n - 1;
    } else {
      k := SomeBit(x / 2, n - 1, bit);
      DivDiv(x, 2, Pow2(n - 2 - k));
      assert Pow2(n - 1 - k) == 2 * Pow2(n - 2 - k);
    }
  }

  lemma BitInByte(s: seq<Byte>, i: nat, k: nat)
    requires i < |s| && k < 8
    ensures BitAt(s, 8 * i + k) == s[i] / Pow2(7 - k) % 2
  {
    assert (8 * i + k) / 8 == i && (8 * i + k) % 8 == k;
  }

  /** With nothing but zeros skipped and a zero word at the end, no bit is set. */
  lemma NothingSet(s: seq<Byte>, i: nat)
    requires Skipped(s, 1, i) && (i + 8 > |s| || !Skipped(s, 1, i + 8)) && Word(Padded(s, i)) == 0
    ensures forall j: nat :: BitAt(s, j) == 0
  {
    var w := Padded(s, i);
    WordZero(w);
    assert forall k :: i <= k < |s| && k < i + 8 ==> w[k - i] == s[k];
    assert forall k :: 0 <= k < |s| ==> s[k] == 0;
    forall j: nat ensures BitAt(s, j) == 0 {
      if j / 8 < |s| {
        ZeroBit(7 - j % 8);
      }
    }
  }

  /** The last word holds a match: that is why the end of the scan is never reached. */
  lemma FoundSomewhere(s: seq<Byte>, i: nat, bit: nat)
    requires bit < 2 && Skipped(s, bit, i) && (i + 8 > |s| || !Skipped(s, bit, i + 8))
    requires bit == 1 ==> Word(Padded(s, i)) != 0
    ensures exists j: nat :: 8 * i <= j < 8 * i + 64 && BitAt(s, j) == bit
  {
    hide Word, BitAt, Pow2;
    var w := Padded(s, i);
    var skip := if bit == 1 then 0 else 255;
    WordZero(w);
    if i + 8 <= |s| {
      var n :| 0 <= n < i + 8 && s[n] != skip;
      assert n >= i;
      SmallPowers();
      var k := SomeBit(s[n], 8, bit);
      BitInByte(s, n, k);
      assert 8 * i <= 8 * n + k < 8 * i + 64;
    } else if bit == 0 {
      PastEnd(s, 8 * i + 63);
    } else {
      var m :| 0 <= m < 8 && w[m] != 0;
      SmallPowers();
      var k := SomeBit(s[i + m], 8, bit);
      BitInByte(s, i + m, k);
      assert 8 * i <= 8 * (i + m) + k < 8 * i + 64;
    }
  }

  lemma PastEnd(s: seq<Byte>, j: nat)
    requires j / 8 >= |s|
    ensures BitAt(s, j) == 0
  {
  }

  /** The first matching bit, or -1 if a set bit is looked for and there is none. */
  method RedisBitpos(s: seq<Byte>, address: nat, bit: nat) returns (pos: int)
    requires bit < 2
    ensures pos == -1 ==> bit == 1 && forall i: nat :: BitAt(s, i) == 0
    ensures pos != -1 ==> pos >= 0 && IsFirst(s, bit, pos)
  {
    hide BitAt, Word, Pow2;
    var i := SkipAhead(s, address, bit);
    var word: nat, c := 0, i;
    ghost var bytes := Padded(s, i);
    EmptyWord();
    assert bytes[..0] == [];
    for j := 0 to 8
      invariant c == (if i + j < |s| then i + j else if i < |s| then |s| else i)
      invariant word == Word(bytes[..j])
    {
      WordAppend(bytes, j);
      word := 256 * word;
      if c < |s| {
        word := word + s[c];
        c := c + 1;
      }
    }
    assert bytes[..8] == bytes;
    if bit == 1 && word == 0 {
      NothingSet(s, i);
      return -1;
    }
    pos := 8 * i;
    FoundSomewhere(s, i, bit);
    forall j: nat | j < 8 * i ensures BitAt(s, j) != bit {
      SkippedBits(s, bit, i, j);
    }
    var one := Pow2(63);
    ghost var k := 0;
    while one > 0
      invariant 0 <= k <= 64 && pos == 8 * i + k && one == (if k < 64 then Pow2(63 - k) else 0)
      invariant forall j: nat :: j < 8 * i + k ==> BitAt(s, j) != bit
      invariant exists j: nat :: 8 * i + k <= j < 8 * i + 64 && BitAt(s, j) == bit
      decreases 64 - k
    {
      BitOfWord(bytes, k);
      PaddedBit(s, i, k);
      if word / one % 2 == bit {
        return;
      }
      HalfPower(63 - k);
      pos := pos + 1;
      one := one / 2;
      k := k + 1;
    }
    assert false;
  }
}
