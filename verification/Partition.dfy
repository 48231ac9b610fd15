/** The cyclic distribution of vertices over processing elements (PEs), and queues of local
    vertices. */
module Partition {

  function Owner(pes: nat, v: nat): nat
    requires pes > 0
  {
    v % pes
  }

  function Local(pes: nat, v: nat): nat
    requires pes > 0
  {
    v / pes
  }

  function ToGlobal(pes: nat, pe: nat, i: nat): nat {
    i * pes + pe
  }

  /** A vertex is recovered from its owner and local index, and no other pair names it. */
  lemma GlobalRoundTrip(pes: nat, v: nat)
    requires pes > 0
    ensures Owner(pes, v) < pes
    ensures ToGlobal(pes, Owner(pes, v), Local(pes, v)) == v
  {
  }

  lemma LocalRoundTrip(pes: nat, pe: nat, i: nat)
    requires pe < pes
    ensures Owner(pes, ToGlobal(pes, pe, i)) == pe
    ensures Local(pes, ToGlobal(pes, pe, i)) == i
  {
    var v := i * pes + pe;
    QuotientUnique(pes, i, pe, v / pes, v % pes);
  }

  lemma QuotientUnique(d: nat, q: int, r: nat, q': int, r': nat)
    requires r < d && r' < d
    requires q * d + r == q' * d + r'
    ensures q == q' && r == r'
  {
    if q > q' {
      ScaleAtLeast(d, q - q');
    } else if q < q' {
      ScaleAtLeast(d, q' - q);
    }
  }

  /** Quotient and remainder from any way to write the number. */
  lemma DivModOf(x: int, d: nat, q: int, r: nat)
    requires r < d && x == q * d + r
    ensures x / d == q && x % d == r
  {
    QuotientUnique(d, q, r, x / d, x % d);
  }

  lemma ScaleAtLeast(d: nat, k: nat)
    requires k > 0
    ensures k * d >= d
  {
  }

  lemma ScaleAtMost(d: nat, i: nat, j: nat)
    requires i <= j
    ensures i * d <= j * d
  {
  }
}
