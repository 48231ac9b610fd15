/** Arithmetic modulo 2^31 - 1: the plain remainder forms, the division-free forms used on 32-bit
    machines, and congruence. */
module ModArith {

  const M: int := 0x7FFF_FFFF

  /** The two multipliers of the generator. */
  const X: int := 107374182
  const Y: int := 104480

  type Residue = a: int | 0 <= a < 0x7FFF_FFFF

  function Mod(a: int): Residue { a % 0x7FFF_FFFF }

  // ----- The remainder forms -----

  function ModAdd(a: Residue, b: Residue): Residue { Mod((a as int) + (b as int)) }

  function ModMul(a: Residue, b: Residue): Residue { Mod((a as int) * (b as int)) }

  function ModMac(sum: Residue, a: Residue, b: Residue): Residue { Mod((a as int) * (b as int) + (sum as int)) }

  function ModMac2(sum: Residue, a: Residue, b: Residue, c: Residue, d: Residue): Residue {
    Mod((a as int) * (b as int) + (c as int) * (d as int) + (sum as int))
  }

  function ModMac3(sum: Residue, a: Residue, b: Residue, c: Residue, d: Residue, e: Residue, f: Residue): Residue {
    Mod((a as int) * (b as int) + (c as int) * (d as int) + (e as int) * (f as int) + (sum as int))
  }

  function ModMac4(sum: Residue, a: Residue, b: Residue, c: Residue, d: Residue,
                   e: Residue, f: Residue, g: Residue, h: Residue): Residue {
    Mod((a as int) * (b as int) + (c as int) * (d as int) + (e as int) * (f as int) + (g as int) * (h as int)
      + (sum as int))
  }

  function ModMulX(a: Residue): Residue { Mod(107374182 * (a as int)) }

  function ModMulY(a: Residue): Residue { Mod(104480 * (a as int)) }

  function ModMacY(sum: Residue, a: Residue): Residue { Mod((sum as int) + 104480 * (a as int)) }

  /** The sum of four products of residues and a residue fits a 64-bit word. */
  lemma Mac4Fits(sum: Residue, a: Residue, b: Residue, c: Residue, d: Residue,
                 e: Residue, f: Residue, g: Residue, h: Residue)
    ensures (a as int) * (b as int) + (c as int) * (d as int) + (e as int) * (f as int) + (g as int) * (h as int)
            + (sum as int) < 0x1_0000_0000_0000_0000
  {
    ProductBound(a, b);
    ProductBound(c, d);
    ProductBound(e, f);
    ProductBound(g, h);
  }

  lemma ProductBound(a: Residue, b: Residue)
    ensures 0 <= (a as int) * (b as int) <= 0x7FFF_FFFE * 0x7FFF_FFFE
  {
    MulMonotone(a, b, 0x7FFF_FFFE);
  }

  lemma MulMonotone(a: nat, b: nat, c: nat)
    requires a <= c && b <= c
    ensures 0 <= a * b <= c * c
  {
    assert a * b <= c * b;
  }

  // ----- The division-free forms -----

  function Add32(a: Residue, b: Residue): (r: Residue)
    ensures r == ModAdd(a, b)
  {
    var x := (a as int) + (b as int);
    if x >= 0x7FFF_FFFF then x - 0x7FFF_FFFF else x
  }

  /** Adds the high part of a product to its low 31 bits, then subtracts the modulus at most once. */
  function Fold(temp: int): int
    requires 0 <= temp
  {
    var temp2 := temp % 0x8000_0000 + temp / 0x8000_0000;
    if temp2 >= 0x7FFF_FFFF then temp2 - 0x7FFF_FFFF else temp2
  }

  /** Folding once is the remainder for every value below the square of the modulus, and the folded
      sum fits a 32-bit word. */
  lemma FoldIsMod(temp: int)
    requires 0 <= temp < 0x7FFF_FFFF * 0x7FFF_FFFF
    ensures Fold(temp) == Mod(temp)
    ensures temp % 0x8000_0000 + temp / 0x8000_0000 < 0x1_0000_0000
  {
    var q, r := temp / 0x8000_0000, temp % 0x8000_0000;
    assert temp == 0x7FFF_FFFF * q + (q + r);
  }

  function Mul32(a: Residue, b: Residue): Residue {
    ProductBound(a, b);
    FoldIsMod((a as int) * (b as int));
    Fold((a as int) * (b as int))
  }

  function Mac32(sum: Residue, a: Residue, b: Residue): Residue {
    ProductBound(a, b);
    FoldIsMod((a as int) * (b as int) + (sum as int));
    Fold((a as int) * (b as int) + (sum as int))
  }

  function Mac2By32(sum: Residue, a: Residue, b: Residue, c: Residue, d: Residue): Residue {
    Mac32(Mac32(sum, a, b), c, d)
  }

  function Mac3By32(sum: Residue, a: Residue, b: Residue, c: Residue, d: Residue, e: Residue, f: Residue): Residue {
    Mac2By32(Mac32(sum, a, b), c, d, e, f)
  }

  function Mac4By32(sum: Residue, a: Residue, b: Residue, c: Residue, d: Residue,
                    e: Residue, f: Residue, g: Residue, h: Residue): Residue {
    Mac2By32(Mac2By32(sum, a, b, c, d), e, f, g, h)
  }

  lemma Mac32IsMac(sum: Residue, a: Residue, b: Residue)
    ensures Mul32(a, b) == ModMul(a, b)
    ensures Mac32(sum, a, b) == ModMac(sum, a, b)
  {
    ProductBound(a, b);
    FoldIsMod((a as int) * (b as int));
    FoldIsMod((a as int) * (b as int) + (sum as int));
  }

  /** A product added to a remainder that stands for `total`. */
  lemma MacAdds(total: int, sum: Residue, a: Residue, b: Residue)
    requires sum == Mod(total)
    ensures Mac32(sum, a, b) == Mod((a as int) * (b as int) + total)
  {
    hide Mod, Mac32;
    Mac32IsMac(sum, a, b);
    CongMod(total);
    CongAdd((a as int) * (b as int), (a as int) * (b as int), sum, total);
  }

  /** Several products added one after the other, each sum folded: the remainder of the whole sum. */
  lemma MacsBy32(sum: Residue, a: Residue, b: Residue, c: Residue, d: Residue,
                 e: Residue, f: Residue, g: Residue, h: Residue)
    ensures Mac2By32(sum, a, b, c, d) == ModMac2(sum, a, b, c, d)
    ensures Mac3By32(sum, a, b, c, d, e, f) == ModMac3(sum, a, b, c, d, e, f)
    ensures Mac4By32(sum, a, b, c, d, e, f, g, h) == ModMac4(sum, a, b, c, d, e, f, g, h)
  {
    hide Mac32;
    assert sum == Mod(sum);
    var ab, cd, ef, gh := (a as int) * (b as int), (c as int) * (d as int), (e as int) * (f as int),
      (g as int) * (h as int);
    hide Mod;
    MacAdds(sum, sum, a, b);
    MacAdds(ab + sum, Mod(ab + sum), c, d);
    MacAdds(cd + (ab + sum), Mod(cd + (ab + sum)), e, f);
    MacAdds(ef + (cd + (ab + sum)), Mod(ef + (cd + (ab + sum))), g, h);
    assert cd + (ab + sum) == ab + cd + sum;
    assert ef + (cd + (ab + sum)) == ab + cd + ef + sum;
    assert gh + (ef + (cd + (ab + sum))) == ab + cd + ef + gh + sum;
  }

  predicate Int32(n: int) { -0x8000_0000 <= n < 0x8000_0000 }

  /** Multiplication by a constant `k` with `q = M / k` and `r = M % k`, without a wide product. */
  function Schrage(k: int, q: int, r: int, a: Residue): int
    requires q > 0
  {
    var h := (a as int) / q;
    var result := k * ((a as int) - h * q) - h * r;
    if result < 0 then result + 0x7FFF_FFFF else result
  }

  /** For both constants of the generator the intermediate values fit 32-bit integers and the result
      is the remainder of the product. */
  lemma SchrageX(a: Residue)
    ensures Int32(107374182 * ((a as int) - (a as int) / 20 * 20)) && Int32((a as int) / 20 * 7)
    ensures Int32(107374182 * ((a as int) - (a as int) / 20 * 20) - (a as int) / 20 * 7)
    ensures Schrage(107374182, 20, 7, a) == ModMulX(a)
  {
    SchrageStep(107374182, 20, 7, (a as int) / 20, (a as int) % 20);
  }

  lemma SchrageStep(k: int, q: int, r: int, h: int, g: int)
    requires k * q + r == 0x7FFF_FFFF
    ensures Mod(k * (q * h + g)) == Mod(k * g - h * r)
  {
    calc {
      k * (q * h + g);
      (k * q) * h + k * g;
      (0x7FFF_FFFF - r) * h + k * g;
      (k * g - h * r) + h * 0x7FFF_FFFF;
    }
    CongByMultiple(k * g - h * r, h);
  }

  lemma SchrageY(a: Residue)
    ensures Int32(104480 * ((a as int) - (a as int) / 20554 * 20554)) && Int32((a as int) / 20554 * 1727)
    ensures Int32(104480 * ((a as int) - (a as int) / 20554 * 20554) - (a as int) / 20554 * 1727)
    ensures Schrage(104480, 20554, 1727, a) == ModMulY(a)
  {
    SchrageStep(104480, 20554, 1727, (a as int) / 20554, (a as int) % 20554);
  }

  /** The product with `Y` without division, added to `sum`. */
  function MacYBy32(sum: Residue, a: Residue): Residue {
    SchrageY(a);
    Add32(sum, Schrage(104480, 20554, 1727, a))
  }

  lemma MacYIsMac(sum: Residue, a: Residue)
    ensures MacYBy32(sum, a) == ModMacY(sum, a) == ModMac(sum, a, 104480)
  {
    SchrageY(a);
    hide Schrage;
    CongMod(104480 * (a as int));
    CongAdd(sum, sum, ModMulY(a), 104480 * (a as int));
  }

  // ----- Congruence -----

  ghost predicate Cong(a: int, b: int) { Mod(a) == Mod(b) }

  lemma CongByMultiple(a: int, k: int)
    ensures Cong(a + k * 0x7FFF_FFFF, a)
  {
  }

  lemma CongAdd(a: int, a': int, b: int, b': int)
    requires Cong(a, a') && Cong(b, b')
    ensures Cong(a + b, a' + b')
  {
    var k, l := a / 0x7FFF_FFFF - a' / 0x7FFF_FFFF, b / 0x7FFF_FFFF - b' / 0x7FFF_FFFF;
    assert a + b == a' + b' + (k + l) * 0x7FFF_FFFF;
    CongByMultiple(a' + b', k + l);
  }

  lemma CongMul(a: int, a': int, b: int, b': int)
    requires Cong(a, a') && Cong(b, b')
    ensures Cong(a * b, a' * b')
  {
    var k, l := a / 0x7FFF_FFFF - a' / 0x7FFF_FFFF, b / 0x7FFF_FFFF - b' / 0x7FFF_FFFF;
    assert a == a' + k * 0x7FFF_FFFF && b == b' + l * 0x7FFF_FFFF;
    var j := k * b' + a' * l + k * l * 0x7FFF_FFFF;
    calc {
      a * b;
      (a' + k * 0x7FFF_FFFF) * (b' + l * 0x7FFF_FFFF);
      a' * b' + j * 0x7FFF_FFFF;
    }
    CongByMultiple(a' * b', j);
  }

  lemma CongMod(a: int)
    ensures Cong(Mod(a), a)
  {
  }
}
