/** The multiple recursive generator of the edge generator and its jump-ahead. A power of the
    transition matrix is kept as its bottom row and a few cached entries; jumping combines table
    entries for the bytes of a 192-bit step count. */
module Mrg {
  import opened ModArith

  // ----- The recurrence over the integers -----

  datatype Vec = Vec(z1: int, z2: int, z3: int, z4: int, z5: int)

  /** One step of the recurrence, without reduction. */
  function A(z: Vec): Vec {
    Vec(107374182 * z.z1 + 104480 * z.z5, z.z1, z.z2, z.z3, z.z4)
  }

  function Iter(k: nat, z: Vec): Vec {
    if k == 0 then z else A(Iter(k - 1, z))
  }

  lemma {:induction false} IterAdd(j: nat, k: nat, z: Vec)
    ensures Iter(j, Iter(k, z)) == Iter(j + k, z)
  {
    if j > 0 {
      IterAdd(j - 1, k, z);
    }
  }

  lemma IterComponents(k: nat, z: Vec)
    ensures Iter(k, A(z)) == A(Iter(k, z))
    ensures var r := Iter(k, z);
            && r.z4 == A(r).z5 && r.z3 == A(A(r)).z5
            && r.z2 == A(A(A(r))).z5 && r.z1 == A(A(A(A(r)))).z5
  {
    IterAdd(k, 1, z);
    IterAdd(1, k, z);
    assert Iter(1, z) == A(z) && Iter(1, Iter(k, z)) == A(Iter(k, z));
  }

  // ----- Bottom rows -----

  /** The bottom row of a power of the transition matrix. */
  datatype Poly = Poly(s: int, t: int, u: int, v: int, w: int)

  function Dot(p: Poly, z: Vec): int {
    p.s * z.z1 + p.t * z.z2 + p.u * z.z3 + p.v * z.z4 + p.w * z.z5
  }

  /** The row above: the bottom row of the matrix times one more step. */
  function Shift(p: Poly): Poly {
    Poly(107374182 * p.s + p.t, p.u, p.v, p.w, 104480 * p.s)
  }

  lemma ShiftIsStep(p: Poly, z: Vec)
    ensures Dot(Shift(p), z) == Dot(p, A(z))
  {
    var s, z1, z5 := p.s, z.z1, z.z5;
    assert (107374182 * s + p.t) * z1 == 107374182 * (s * z1) + p.t * z1;
    assert s * (107374182 * z1 + 104480 * z5) == 107374182 * (s * z1) + 104480 * (s * z5);
    assert (104480 * s) * z5 == 104480 * (s * z5);
  }

  /** The whole matrix applied to a vector: its rows are the shifts of the bottom row. */
  function Act(p: Poly, z: Vec): Vec {
    var r4 := Shift(p);
    var r3 := Shift(r4);
    var r2 := Shift(r3);
    Vec(Dot(Shift(r2), z), Dot(r2, z), Dot(r3, z), Dot(r4, z), Dot(p, z))
  }

  lemma ActByDots(p: Poly, z: Vec)
    ensures Act(p, z) == Vec(Dot(p, A(A(A(A(z))))), Dot(p, A(A(A(z)))), Dot(p, A(A(z))), Dot(p, A(z)), Dot(p, z))
  {
    hide Dot;
    var r4 := Shift(p);
    var r3 := Shift(r4);
    var r2 := Shift(r3);
    ShiftIsStep(p, z);
    ShiftIsStep(r4, z);
    ShiftIsStep(p, A(z));
    ShiftIsStep(r3, z);
    ShiftIsStep(r4, A(z));
    ShiftIsStep(p, A(A(z)));
    ShiftIsStep(r2, z);
    ShiftIsStep(r3, A(z));
    ShiftIsStep(r4, A(A(z)));
    ShiftIsStep(p, A(A(A(z))));
  }

  /** The bottom row of a product: the bottom row of the first factor times the second. */
  function Mult(m: Poly, n: Poly): Poly {
    var n1 := Shift(n);
    var n2 := Shift(n1);
    var n3 := Shift(n2);
    var n4 := Shift(n3);
    Poly(m.s * n4.s + m.t * n3.s + m.u * n2.s + m.v * n1.s + m.w * n.s,
         m.s * n4.t + m.t * n3.t + m.u * n2.t + m.v * n1.t + m.w * n.t,
         m.s * n4.u + m.t * n3.u + m.u * n2.u + m.v * n1.u + m.w * n.u,
         m.s * n4.v + m.t * n3.v + m.u * n2.v + m.v * n1.v + m.w * n.v,
         m.s * n4.w + m.t * n3.w + m.u * n2.w + m.v * n1.w + m.w * n.w)
  }

  /** The product acts as the first factor after the second. */
  lemma MultIsCompose(m: Poly, n: Poly, z: Vec)
    ensures Dot(Mult(m, n), z) == Dot(m, Act(n, z))
  {
    var n1 := Shift(n);
    var n2 := Shift(n1);
    var n3 := Shift(n2);
    var n4 := Shift(n3);
    hide Shift;
    DotOfSum(m, n4, n3, n2, n1, n, z);
  }

  lemma DotOfSum(m: Poly, n4: Poly, n3: Poly, n2: Poly, n1: Poly, n: Poly, z: Vec)
    ensures Dot(Poly(m.s * n4.s + m.t * n3.s + m.u * n2.s + m.v * n1.s + m.w * n.s,
                     m.s * n4.t + m.t * n3.t + m.u * n2.t + m.v * n1.t + m.w * n.t,
                     m.s * n4.u + m.t * n3.u + m.u * n2.u + m.v * n1.u + m.w * n.u,
                     m.s * n4.v + m.t * n3.v + m.u * n2.v + m.v * n1.v + m.w * n.v,
                     m.s * n4.w + m.t * n3.w + m.u * n2.w + m.v * n1.w + m.w * n.w), z)
         == m.s * Dot(n4, z) + m.t * Dot(n3, z) + m.u * Dot(n2, z) + m.v * Dot(n1, z) + m.w * Dot(n, z)
  {
    ScaleDot(m.s, n4, z);
    ScaleDot(m.t, n3, z);
    ScaleDot(m.u, n2, z);
    ScaleDot(m.v, n1, z);
    ScaleDot(m.w, n, z);
    Distribute5(m.s * n4.s, m.t * n3.s, m.u * n2.s, m.v * n1.s, m.w * n.s, z.z1);
    Distribute5(m.s * n4.t, m.t * n3.t, m.u * n2.t, m.v * n1.t, m.w * n.t, z.z2);
    Distribute5(m.s * n4.u, m.t * n3.u, m.u * n2.u, m.v * n1.u, m.w * n.u, z.z3);
    Distribute5(m.s * n4.v, m.t * n3.v, m.u * n2.v, m.v * n1.v, m.w * n.v, z.z4);
    Distribute5(m.s * n4.w, m.t * n3.w, m.u * n2.w, m.v * n1.w, m.w * n.w, z.z5);
  }

  lemma Distribute5(a: int, b: int, c: int, d: int, e: int, z: int)
    ensures (a + b + c + d + e) * z == a * z + b * z + c * z + d * z + e * z
  {
  }

  lemma ScaleDot(k: int, p: Poly, z: Vec)
    ensures k * Dot(p, z)
            == (k * p.s) * z.z1 + (k * p.t) * z.z2 + (k * p.u) * z.z3 + (k * p.v) * z.z4 + (k * p.w) * z.z5
  {
    Assoc(k, p.s, z.z1);
    Assoc(k, p.t, z.z2);
    Assoc(k, p.u, z.z3);
    Assoc(k, p.v, z.z4);
    Assoc(k, p.w, z.z5);
    Distribute5(p.s * z.z1, p.t * z.z2, p.u * z.z3, p.v * z.z4, p.w * z.z5, k);
  }

  lemma Assoc(a: int, b: int, c: int)
    ensures (b * c) * a == (a * b) * c
  {
  }

  // ----- Congruence of rows and vectors -----

  ghost predicate CongVec(a: Vec, b: Vec) {
    Cong(a.z1, b.z1) && Cong(a.z2, b.z2) && Cong(a.z3, b.z3) && Cong(a.z4, b.z4) && Cong(a.z5, b.z5)
  }

  ghost predicate CongPoly(p: Poly, q: Poly) {
    Cong(p.s, q.s) && Cong(p.t, q.t) && Cong(p.u, q.u) && Cong(p.v, q.v) && Cong(p.w, q.w)
  }

  lemma CongSum5(a: int, a': int, b: int, b': int, c: int, c': int, d: int, d': int, e: int, e': int)
    requires Cong(a, a') && Cong(b, b') && Cong(c, c') && Cong(d, d') && Cong(e, e')
    ensures Cong(a + b + c + d + e, a' + b' + c' + d' + e')
  {
    hide Cong;
    CongAdd(a, a', b, b');
    CongAdd(a + b, a' + b', c, c');
    CongAdd(a + b + c, a' + b' + c', d, d');
    CongAdd(a + b + c + d, a' + b' + c' + d', e, e');
  }

  lemma CongDot(p: Poly, p': Poly, z: Vec, z': Vec)
    requires CongPoly(p, p') && CongVec(z, z')
    ensures Cong(Dot(p, z), Dot(p', z'))
  {
    hide Cong;
    CongMul(p.s, p'.s, z.z1, z'.z1);
    CongMul(p.t, p'.t, z.z2, z'.z2);
    CongMul(p.u, p'.u, z.z3, z'.z3);
    CongMul(p.v, p'.v, z.z4, z'.z4);
    CongMul(p.w, p'.w, z.z5, z'.z5);
    CongSum5(p.s * z.z1, p'.s * z'.z1, p.t * z.z2, p'.t * z'.z2, p.u * z.z3, p'.u * z'.z3,
             p.v * z.z4, p'.v * z'.z4, p.w * z.z5, p'.w * z'.z5);
  }

  /** The row stands for `k` steps: on every vector it gives the last component after `k` steps. */
  ghost predicate ActsAs(p: Poly, k: nat) {
    forall z: Vec :: Cong(Dot(p, z), Iter(k, z).z5)
  }

  /** Then the whole matrix gives the whole vector after `k` steps. */
  lemma ActsOnVectors(p: Poly, k: nat, z: Vec)
    requires ActsAs(p, k)
    ensures CongVec(Act(p, z), Iter(k, z))
  {
    hide Cong, Dot;
    ActByDots(p, z);
    IterComponents(k, z);
    IterComponents(k, A(z));
    IterComponents(k, A(A(z)));
    IterComponents(k, A(A(A(z))));
    assert Cong(Dot(p, z), Iter(k, z).z5);
    assert Cong(Dot(p, A(z)), Iter(k, A(z)).z5);
    assert Cong(Dot(p, A(A(z))), Iter(k, A(A(z))).z5);
    assert Cong(Dot(p, A(A(A(z)))), Iter(k, A(A(A(z)))).z5);
    assert Cong(Dot(p, A(A(A(A(z))))), Iter(k, A(A(A(A(z))))).z5);
  }

  lemma CongPolyRefl(p: Poly)
    ensures CongPoly(p, p)
  {
  }

  lemma CongVecRefl(z: Vec)
    ensures CongVec(z, z)
  {
  }

  /** Rows multiply as step counts add. */
  lemma MultActs(m: Poly, j: nat, n: Poly, k: nat)
    requires ActsAs(m, j) && ActsAs(n, k)
    ensures ActsAs(Mult(m, n), j + k)
  {
    forall z: Vec
      ensures Cong(Dot(Mult(m, n), z), Iter(j + k, z).z5)
    {
      hide Dot, Mult;
      MultIsCompose(m, n, z);
      ActsOnVectors(n, k, z);
      CongPolyRefl(m);
      CongDot(m, m, Act(n, z), Iter(k, z));
      assert Cong(Dot(m, Iter(k, z)), Iter(j, Iter(k, z)).z5);
      IterAdd(j, k, z);
    }
  }

  lemma CongPolyActs(p: Poly, q: Poly, k: nat)
    requires CongPoly(p, q) && ActsAs(q, k)
    ensures ActsAs(p, k)
  {
    forall z: Vec
      ensures Cong(Dot(p, z), Iter(k, z).z5)
    {
      CongVecRefl(z);
      CongDot(p, q, z, z);
      assert Cong(Dot(q, z), Iter(k, z).z5);
    }
  }

  // ----- The stored matrices -----

  /** A transition matrix as stored: the bottom row, and the first entries of the other rows. */
  datatype Matrix = Matrix(s: Residue, t: Residue, u: Residue, v: Residue, w: Residue,
                           a: Residue, b: Residue, c: Residue, d: Residue)

  function Row(m: Matrix): Poly { Poly(m.s, m.t, m.u, m.v, m.w) }

  function UpdateCache(s: Residue, t: Residue, u: Residue, v: Residue, w: Residue): Matrix {
    var a := ModAdd(ModMulX(s), t);
    var b := ModAdd(ModMulX(a), u);
    var c := ModAdd(ModMulX(b), v);
    Matrix(s, t, u, v, w, a, b, c, ModAdd(ModMulX(c), w))
  }

  ghost predicate Cached(m: Matrix) {
    m == UpdateCache(m.s, m.t, m.u, m.v, m.w)
  }

  lemma CacheStep(lead: Residue, next: Residue, full: int, nextFull: int)
    requires Cong(lead, full) && Cong(next, nextFull)
    ensures Cong(ModAdd(ModMulX(lead), next), 107374182 * full + nextFull)
  {
    CongMul(107374182, 107374182, lead, full);
    CongMod(107374182 * (lead as int));
    CongAdd(ModMulX(lead), 107374182 * full, next, nextFull);
    CongMod((ModMulX(lead) as int) + (next as int));
  }

  /** The rows of the full matrix, built from the cached entries. */
  function Row4(m: Matrix): Poly { Poly(m.a, m.u, m.v, m.w, 104480 * m.s) }
  function Row3(m: Matrix): Poly { Poly(m.b, m.v, m.w, 104480 * m.s, 104480 * m.a) }
  function Row2(m: Matrix): Poly { Poly(m.c, m.w, 104480 * m.s, 104480 * m.a, 104480 * m.b) }
  function Row1(m: Matrix): Poly { Poly(m.d, 104480 * m.s, 104480 * m.a, 104480 * m.b, 104480 * m.c) }

  lemma CongScaleY(a: int, b: int)
    requires Cong(a, b)
    ensures Cong(104480 * a, 104480 * b)
  {
    CongMul(104480, 104480, a, b);
  }

  lemma CongRefl(a: int, b: int, c: int, d: int, e: int)
    ensures Cong(a, a) && Cong(b, b) && Cong(c, c) && Cong(d, d) && Cong(e, e)
  {
  }

  /** The cached entries are those of the rows that the bottom row determines. */
  lemma CachedRows(m: Matrix)
    requires Cached(m)
    ensures var r4 := Shift(Row(m));
            var r3 := Shift(r4);
            var r2 := Shift(r3);
            && CongPoly(Row4(m), r4) && CongPoly(Row3(m), r3)
            && CongPoly(Row2(m), r2) && CongPoly(Row1(m), Shift(r2))
  {
    hide Cong, ModAdd, ModMulX;
    var r4 := Shift(Row(m));
    var r3 := Shift(r4);
    var r2 := Shift(r3);
    CongRefl(m.s, m.t, m.u, m.v, m.w);
    CongScaleY(m.s, m.s);
    CacheStep(m.s, m.t, m.s, m.t);
    CacheStep(m.a, m.u, r4.s, m.u);
    CacheStep(m.b, m.v, r3.s, m.v);
    CacheStep(m.c, m.w, r2.s, m.w);
    CongScaleY(m.a, r4.s);
    CongScaleY(m.b, r3.s);
    CongScaleY(m.c, r2.s);
  }

  function Identity(): Matrix { UpdateCache(0, 0, 0, 0, 1) }

  function OneStep(): Matrix { UpdateCache(0, 0, 0, 1, 0) }

  lemma BasicMatrices()
    ensures Cached(Identity()) && ActsAs(Row(Identity()), 0)
    ensures Cached(OneStep()) && ActsAs(Row(OneStep()), 1)
  {
    forall z: Vec
      ensures Dot(Row(Identity()), z) == Iter(0, z).z5 && Dot(Row(OneStep()), z) == Iter(1, z).z5
    {
      assert Iter(1, z) == A(Iter(0, z));
    }
  }

  /** Product of two stored matrices. */
  function Multiply(m: Matrix, n: Matrix): Matrix {
    UpdateCache(
      ModMac(ModMac(ModMac(ModMac(ModMul(m.s, n.d), m.t, n.c), m.u, n.b), m.v, n.a), m.w, n.s),
      ModMac(ModMac(ModMac(ModMac(ModMulY(ModMul(m.s, n.s)), m.t, n.w), m.u, n.v), m.v, n.u), m.w, n.t),
      ModMac(ModMac(ModMac(ModMulY(ModMac(ModMul(m.s, n.a), m.t, n.s)), m.u, n.w), m.v, n.v), m.w, n.u),
      ModMac(ModMac(ModMulY(ModMac(ModMac(ModMul(m.s, n.b), m.t, n.a), m.u, n.s)), m.v, n.w), m.w, n.v),
      ModMac(ModMulY(ModMac(ModMac(ModMac(ModMul(m.s, n.c), m.t, n.b), m.u, n.a), m.v, n.s)), m.w, n.w))
  }

  lemma MulCong(a: Residue, b: Residue)
    ensures Cong(ModMul(a, b), (a as int) * (b as int))
  {
    CongMod((a as int) * (b as int));
  }

  lemma MacCong(sum: Residue, total: int, a: Residue, b: Residue)
    requires Cong(sum, total)
    ensures Cong(ModMac(sum, a, b), total + (a as int) * (b as int))
  {
    CongAdd(sum, total, (a as int) * (b as int), (a as int) * (b as int));
    CongMod((a as int) * (b as int) + (sum as int));
  }

  lemma MulYCong(a: Residue, total: int)
    requires Cong(a, total)
    ensures Cong(ModMulY(a), 104480 * total)
  {
    CongScaleY(a, total);
    CongMod(104480 * (a as int));
  }

  lemma PullY(a: int, b: int)
    ensures 104480 * (a * b) == a * (104480 * b)
  {
  }

  /** The five entries that the multiplication computes, before the modulus. */
  lemma MultiplyS(m: Matrix, n: Matrix)
    ensures Cong(Multiply(m, n).s, m.s * n.d + m.t * n.c + m.u * n.b + m.v * n.a + m.w * n.s)
  {
    hide Cong;
    var r := ModMul(m.s, n.d);
    MulCong(m.s, n.d);
    MacCong(r, m.s * n.d, m.t, n.c);
    r := ModMac(r, m.t, n.c);
    MacCong(r, m.s * n.d + m.t * n.c, m.u, n.b);
    r := ModMac(r, m.u, n.b);
    MacCong(r, m.s * n.d + m.t * n.c + m.u * n.b, m.v, n.a);
    r := ModMac(r, m.v, n.a);
    MacCong(r, m.s * n.d + m.t * n.c + m.u * n.b + m.v * n.a, m.w, n.s);
  }

  lemma MultiplyT(m: Matrix, n: Matrix)
    ensures Cong(Multiply(m, n).t, m.s * (104480 * n.s) + m.t * n.w + m.u * n.v + m.v * n.u + m.w * n.t)
  {
    hide Cong;
    MulCong(m.s, n.s);
    MulYCong(ModMul(m.s, n.s), m.s * n.s);
    var r, e := ModMulY(ModMul(m.s, n.s)), 104480 * (m.s * n.s);
    MacCong(r, e, m.t, n.w);
    r, e := ModMac(r, m.t, n.w), e + m.t * n.w;
    MacCong(r, e, m.u, n.v);
    r, e := ModMac(r, m.u, n.v), e + m.u * n.v;
    MacCong(r, e, m.v, n.u);
    r, e := ModMac(r, m.v, n.u), e + m.v * n.u;
    MacCong(r, e, m.w, n.t);
    PullY(m.s, n.s);
  }

  lemma MultiplyU(m: Matrix, n: Matrix)
    ensures Cong(Multiply(m, n).u, m.s * (104480 * n.a) + m.t * (104480 * n.s) + m.u * n.w + m.v * n.v + m.w * n.u)
  {
    hide Cong;
    MulCong(m.s, n.a);
    MacCong(ModMul(m.s, n.a), m.s * n.a, m.t, n.s);
    var r, e := ModMac(ModMul(m.s, n.a), m.t, n.s), m.s * n.a + m.t * n.s;
    MulYCong(r, e);
    r, e := ModMulY(r), 104480 * e;
    MacCong(r, e, m.u, n.w);
    r, e := ModMac(r, m.u, n.w), e + m.u * n.w;
    MacCong(r, e, m.v, n.v);
    r, e := ModMac(r, m.v, n.v), e + m.v * n.v;
    MacCong(r, e, m.w, n.u);
    PullY(m.s, n.a);
    PullY(m.t, n.s);
  }

  lemma MultiplyV(m: Matrix, n: Matrix)
    ensures Cong(Multiply(m, n).v,
                 m.s * (104480 * n.b) + m.t * (104480 * n.a) + m.u * (104480 * n.s) + m.v * n.w + m.w * n.v)
  {
    hide Cong;
    MulCong(m.s, n.b);
    var r, e := ModMul(m.s, n.b), m.s * n.b;
    MacCong(r, e, m.t, n.a);
    r, e := ModMac(r, m.t, n.a), e + m.t * n.a;
    MacCong(r, e, m.u, n.s);
    r, e := ModMac(r, m.u, n.s), e + m.u * n.s;
    MulYCong(r, e);
    r, e := ModMulY(r), 104480 * e;
    MacCong(r, e, m.v, n.w);
    r, e := ModMac(r, m.v, n.w), e + m.v * n.w;
    MacCong(r, e, m.w, n.v);
    PullY(m.s, n.b);
    PullY(m.t, n.a);
    PullY(m.u, n.s);
  }

  lemma MultiplyW(m: Matrix, n: Matrix)
    ensures Cong(Multiply(m, n).w,
                 m.s * (104480 * n.c) + m.t * (104480 * n.b) + m.u * (104480 * n.a) + m.v * (104480 * n.s) + m.w * n.w)
  {
    hide Cong;
    MulCong(m.s, n.c);
    var r, e := ModMul(m.s, n.c), m.s * n.c;
    MacCong(r, e, m.t, n.b);
    r, e := ModMac(r, m.t, n.b), e + m.t * n.b;
    MacCong(r, e, m.u, n.a);
    r, e := ModMac(r, m.u, n.a), e + m.u * n.a;
    MacCong(r, e, m.v, n.s);
    r, e := ModMac(r, m.v, n.s), e + m.v * n.s;
    MulYCong(r, e);
    r, e := ModMulY(r), 104480 * e;
    MacCong(r, e, m.w, n.w);
    PullY(m.s, n.c);
    PullY(m.t, n.b);
    PullY(m.u, n.a);
    PullY(m.v, n.s);
  }

  /** One entry of a product: the bottom row of the first factor times a column of the second, with
      the stored rows in place of the exact ones. */
  lemma ColumnCong(m: Poly, x: int, r1: int, r1': int, r2: int, r2': int, r3: int, r3': int, r4: int, r4': int, r5: int)
    requires Cong(x, m.s * r1 + m.t * r2 + m.u * r3 + m.v * r4 + m.w * r5)
    requires Cong(r1, r1') && Cong(r2, r2') && Cong(r3, r3') && Cong(r4, r4')
    ensures Cong(x, m.s * r1' + m.t * r2' + m.u * r3' + m.v * r4' + m.w * r5)
  {
    CongPolyRefl(m);
    CongDot(m, m, Vec(r1, r2, r3, r4, r5), Vec(r1', r2', r3', r4', r5));
  }

  /** The stored product is the exact product modulo the modulus. */
  lemma MultiplyIsMult(m: Matrix, n: Matrix)
    requires Cached(n)
    ensures Cached(Multiply(m, n)) && CongPoly(Row(Multiply(m, n)), Mult(Row(m), Row(n)))
  {
    MultiplyCached(m, n);
    hide Shift, Cong, Multiply, UpdateCache;
    var e4 := Shift(Row(n));
    var e3 := Shift(e4);
    var e2 := Shift(e3);
    CachedRows(n);
    ProductCong(m, n, Shift(e2), e2, e3, e4);
  }

  lemma MultiplyCached(m: Matrix, n: Matrix)
    ensures Cached(Multiply(m, n))
  {
    hide ModMac, ModMul, ModMulY, ModMulX, ModAdd;
  }

  lemma ProductCong(m: Matrix, n: Matrix, e1: Poly, e2: Poly, e3: Poly, e4: Poly)
    requires CongPoly(Row1(n), e1) && CongPoly(Row2(n), e2) && CongPoly(Row3(n), e3) && CongPoly(Row4(n), e4)
    ensures var p, q := Row(m), Row(n);
            CongPoly(Row(Multiply(m, n)),
                     Poly(p.s * e1.s + p.t * e2.s + p.u * e3.s + p.v * e4.s + p.w * q.s,
                          p.s * e1.t + p.t * e2.t + p.u * e3.t + p.v * e4.t + p.w * q.t,
                          p.s * e1.u + p.t * e2.u + p.u * e3.u + p.v * e4.u + p.w * q.u,
                          p.s * e1.v + p.t * e2.v + p.u * e3.v + p.v * e4.v + p.w * q.v,
                          p.s * e1.w + p.t * e2.w + p.u * e3.w + p.v * e4.w + p.w * q.w))
  {
    hide Cong, Multiply;
    var p, q := Row(m), Multiply(m, n);
    MultiplyS(m, n);
    ColumnCong(p, q.s, n.d, e1.s, n.c, e2.s, n.b, e3.s, n.a, e4.s, n.s);
    MultiplyT(m, n);
    ColumnCong(p, q.t, 104480 * n.s, e1.t, n.w, e2.t, n.v, e3.t, n.u, e4.t, n.t);
    MultiplyU(m, n);
    ColumnCong(p, q.u, 104480 * n.a, e1.u, 104480 * n.s, e2.u, n.w, e3.u, n.v, e4.u, n.u);
    MultiplyV(m, n);
    ColumnCong(p, q.v, 104480 * n.b, e1.v, 104480 * n.a, e2.v, 104480 * n.s, e3.v, n.w, e4.v, n.v);
    MultiplyW(m, n);
    ColumnCong(p, q.w, 104480 * n.c, e1.w, 104480 * n.b, e2.w, 104480 * n.a, e3.w, 104480 * n.s, e4.w, n.w);
  }

  /** A stored matrix for `k` steps. */
  ghost predicate Stands(m: Matrix, k: nat) {
    Cached(m) && ActsAs(Row(m), k)
  }

  lemma MultiplyStands(m: Matrix, j: nat, n: Matrix, k: nat)
    requires Stands(m, j) && Stands(n, k)
    ensures Stands(Multiply(m, n), j + k)
  {
    hide ActsAs;
    MultiplyIsMult(m, n);
    MultActs(Row(m), j, Row(n), k);
    CongPolyActs(Row(Multiply(m, n)), Mult(Row(m), Row(n)), j + k);
  }
}
