/** The routing byte of internode messages: the local number of the destination, stored in a signed byte
    and turned into a local number again by the receiver. */
module AmlRoute {
  import opened Partition
  import opened Bits

  /** A value stored in a signed byte and read back. */
  function SignedByte(n: nat): (c: int)
    ensures -128 <= c < 128
  {
    if n % 256 < 128 then n % 256 else n % 256 - 256
  }

  /** The remainder of C, which has the sign of the dividend. */
  function TruncRem(x: int, n: nat): int
    requires n > 0
  {
    if x >= 0 then x % n else -((-x) % n)
  }

  /** The local number computed from the byte. The build for powers of two masks with the group size minus
      one, the other build takes the remainder of C. A negative number indexes outside all arrays; it
      is given here as `n`, which is no local number either. */
  function Received(n: nat, masked: bool, c: int): (l: nat)
    requires n > 0
    ensures masked ==> l < n
  {
    var r := if masked then c % n else TruncRem(c, n);
    if r < 0 then n else r
  }

  /** Where a message for local number `l` ends up. */
  function Routed(n: nat, masked: bool, l: nat): nat
    requires n > 0
  {
    Received(n, masked, SignedByte(l))
  }

  /** The group sizes a build accepts. */
  ghost predicate Accepted(n: nat, masked: bool) {
    n > 0 && (masked ==> exists k: nat :: n == Pow2(k))
  }

  lemma LargeGroup(n: nat)
    requires Accepted(n, true)
    ensures n <= 128 || n % 256 == 0
  {
    hide Pow2;
    var k: nat :| n == Pow2(k);
    SmallPowers();
    if k >= 8 {
      PowAdd(8, k - 8);
      DivModOf(n, 256, Pow2(k - 8), 0);
    }
  }

  lemma Remainder(x: int, n: nat)
    requires 0 - n <= x < n
    ensures x % n == if x < 0 then x + n else x
  {
    if x < 0 {
      DivModOf(x, n, -1, x + n);
    } else {
      DivModOf(x, n, 0, x);
    }
  }

  /** The message arrives at its destination exactly if the local number is below 128 or, in the build that
      masks, among the last 128 of the group. */
  lemma RoutingByteExact(n: nat, masked: bool, l: nat)
    requires Accepted(n, masked) && l < n
    ensures Routed(n, masked, l) == l <==> l < 128 || (masked && l >= n - 128)
  {
    hide Accepted;
    var c := SignedByte(l);
    if masked {
      LargeGroup(n);
      MaskedExact(n, l, c);
    } else if c >= 0 {
      Remainder(c, n);
    }
  }

  lemma MaskedExact(n: nat, l: nat, c: int)
    requires l < n && (n <= 128 || n % 256 == 0) && c == SignedByte(l)
    ensures c % n == l <==> l < 128 || l >= n - 128
  {
    Remainder(c, n);
  }

  /** Every local number of a group is reached exactly up to 256 processes per group in the build that masks,
      and up to 128 in the other. */
  lemma AllExactIff(n: nat, masked: bool)
    requires Accepted(n, masked)
    ensures (forall l: nat :: l < n ==> Routed(n, masked, l) == l) <==> n <= if masked then 256 else 128
  {
    hide Accepted, Routed;
    forall l: nat | l < n ensures Routed(n, masked, l) == l <==> l < 128 || (masked && l >= n - 128) {
      RoutingByteExact(n, masked, l);
    }
    if masked {
      LargeGroup(n);
      if n > 256 {
        assert Routed(n, masked, 200) != 200;
      }
    } else if n > 128 {
      assert Routed(n, masked, 128) != 128;
    }
  }

  /** A message that went astray arrives where messages arrive as they should. */
  lemma RoutedTwice(n: nat, masked: bool, l: nat)
    requires Accepted(n, masked) && l < n && Routed(n, masked, l) < n
    ensures Routed(n, masked, Routed(n, masked, l)) == Routed(n, masked, l)
  {
    hide Accepted, Routed, Received;
    var r := Routed(n, masked, l);
    RoutedEnd(n, masked, l);
    RoutingByteExact(n, masked, r);
  }

  lemma RoutedEnd(n: nat, masked: bool, l: nat)
    requires Accepted(n, masked) && l < n && Routed(n, masked, l) < n
    ensures var r := Routed(n, masked, l); r < 128 || (masked && r >= n - 128)
  {
    hide Accepted;
    var c := SignedByte(l);
    if masked {
      LargeGroup(n);
      MaskedEnd(n, c, Routed(n, masked, l));
    } else if c >= 0 {
      SmallRemainder(c, n);
    }
  }

  lemma SmallRemainder(x: nat, n: nat)
    requires n > 0
    ensures x % n <= x
  {
    if x < n {
      Remainder(x, n);
    }
  }

  lemma MaskedEnd(n: nat, c: int, r: nat)
    requires n > 0 && (n <= 128 || n % 256 == 0) && -128 <= c < 128 && r == c % n
    ensures r < 128 || r >= n - 128
  {
    if n > 128 {
      Remainder(c, n);
    }
  }

  /** A local number outside all arrays is computed exactly in the build that does not mask, for groups of
      more than 128 processes. */
  lemma LeavesArraysIff(n: nat, masked: bool)
    requires Accepted(n, masked)
    ensures (exists l: nat :: l < n && Routed(n, masked, l) == n) <==> !masked && n > 128
  {
    hide Accepted;
    if !masked && n > 128 {
      Remainder(128, n);
      assert Routed(n, masked, 128) == n;
    } else if !masked {
      forall l: nat | l < n ensures Routed(n, masked, l) < n {
        Remainder(l, n);
      }
    }
  }

  /** In a group of 512 processes the message for local number 200 goes to 456. */
  lemma RoutingByteFails()
    ensures Accepted(512, true) && Routed(512, true, 200) == 456
  {
    hide Pow2;
    SmallPowers();
    PowStep(9);
    assert 512 == Pow2(9);
    Remainder(SignedByte(200), 512);
  }
}
