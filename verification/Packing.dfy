/** Column entries of six bytes each, read eight bytes at a time. */
module Packing {
  import Partition
  import opened Bits

  const BYTES: nat := 6
  const CAPACITY: nat := 0x1_0000_0000_0000

  /** `n` bytes of `x`, least significant first. */
  function LowBytes(x: nat, n: nat): (s: seq<Byte>)
    ensures |s| == n
  {
    if n == 0 then [] else [x % 256] + LowBytes(x / 256, n - 1)
  }

  function Value(s: seq<Byte>): nat {
    if s == [] then 0 else s[0] + 256 * Value(s[1..])
  }

  /** Copies the low six bytes of `x` to slot `a`. */
  function SetColumn(buf: seq<Byte>, a: nat, x: nat): (r: seq<Byte>)
    requires BYTES * a + BYTES <= |buf|
    ensures |r| == |buf|
  {
    buf[..BYTES * a] + LowBytes(x, BYTES) + buf[BYTES * a + BYTES..]
  }

  /** Reads the eight bytes at slot `i` and masks off the upper two. */
  function Column(buf: seq<Byte>, i: nat): nat
    requires BYTES * i + 8 <= |buf|
  {
    Value(buf[BYTES * i..BYTES * i + 8]) % CAPACITY
  }

  lemma {:induction false} ValueOfLowBytes(x: nat, n: nat)
    ensures Value(LowBytes(x, n)) == x % Pow256(n)
  {
    if n > 0 {
      ValueOfLowBytes(x / 256, n - 1);
      var s := LowBytes(x, n);
      assert s[1..] == LowBytes(x / 256, n - 1);
      DigitSplit(x, Pow256(n - 1));
    }
  }

  lemma DigitSplit(x: nat, p: nat)
    requires p > 0
    ensures x % (256 * p) == x % 256 + 256 * ((x / 256) % p)
  {
    var q, d := x / 256, x % 256;
    var k, r := q / p, q % p;
    assert q == k * p + r;
    assert x == 256 * (k * p + r) + d;
    assert 256 * (k * p + r) == k * (256 * p) + 256 * r;
    RemainderIs(x, 256 * p, k, 256 * r + d);
  }

  lemma RemainderIs(x: nat, m: nat, k: nat, r: nat)
    requires r < m && x == k * m + r
    ensures x % m == r
  {
    Partition.QuotientUnique(m, k, r, x / m, x % m);
  }

  lemma {:induction false} ValueConcat(a: seq<Byte>, b: seq<Byte>)
    ensures Value(a + b) == Value(a) + Pow256(|a|) * Value(b)
  {
    if a == [] {
      assert a + b == b;
    } else {
      assert (a + b)[1..] == a[1..] + b;
      ValueConcat(a[1..], b);
      Distribute(a[0], Value(a[1..]), Pow256(|a| - 1), Value(b));
    }
  }

  lemma Distribute(x: int, y: int, p: int, z: int)
    ensures x + 256 * (y + p * z) == x + 256 * y + 256 * p * z
  {
  }

  lemma {:induction false} ValueBound(s: seq<Byte>)
    ensures Value(s) < Pow256(|s|)
  {
    if s != [] {
      ValueBound(s[1..]);
    }
  }

  lemma SixBytes()
    ensures Pow256(BYTES) == CAPACITY
  {
    assert Pow256(3) == 0x100_0000;
    assert Pow256(6) == 256 * (256 * (256 * Pow256(3)));
  }

  /** Only the six bytes of a slot matter to a read. */
  lemma ColumnIs(buf: seq<Byte>, i: nat)
    requires BYTES * i + 8 <= |buf|
    ensures Column(buf, i) == Value(buf[BYTES * i..BYTES * i + BYTES])
  {
    var six, two := buf[BYTES * i..BYTES * i + BYTES], buf[BYTES * i + BYTES..BYTES * i + 8];
    assert buf[BYTES * i..BYTES * i + 8] == six + two;
    ValueConcat(six, two);
    ValueBound(six);
    SixBytes();
    assert Pow256(|six|) * Value(two) == Value(two) * CAPACITY;
    RemainderIs(Value(six) + Pow256(|six|) * Value(two), CAPACITY, Value(two), Value(six));
  }

  /** Writing an identifier below 2^48 changes its slot to it and no other slot. */
  lemma ColumnRoundTrip(buf: seq<Byte>, a: nat, x: nat, i: nat)
    requires BYTES * a + BYTES <= |buf| && BYTES * i + 8 <= |buf| && x < CAPACITY
    ensures Column(SetColumn(buf, a, x), i) == if i == a then x else Column(buf, i)
  {
    hide Column, LowBytes, Value, SetColumn, Pow256;
    ColumnIs(SetColumn(buf, a, x), i);
    ColumnIs(buf, i);
    SlotOf(buf, a, x, i);
    ValueOfLowBytes(x, BYTES);
    SixBytes();
  }

  /** Slot `a` holds the new bytes, the other slots what they held. */
  lemma SlotOf(buf: seq<Byte>, a: nat, x: nat, i: nat)
    requires BYTES * a + BYTES <= |buf| && BYTES * i + BYTES <= |buf|
    ensures SetColumn(buf, a, x)[BYTES * i..BYTES * i + BYTES]
            == if i == a then LowBytes(x, BYTES) else buf[BYTES * i..BYTES * i + BYTES]
  {
    hide LowBytes;
    var r := SetColumn(buf, a, x);
    if i == a {
      assert r[BYTES * i..BYTES * i + BYTES] == LowBytes(x, BYTES);
    } else {
      assert i < a ==> BYTES * i + BYTES <= BYTES * a;
      assert a < i ==> BYTES * a + BYTES <= BYTES * i;
      assert forall k :: BYTES * i <= k < BYTES * i + BYTES ==> r[k] == buf[k];
    }
  }
}
