/** How far the fixed-point conversion from line spectral pairs is from exact arithmetic (lsp.c). */
module LspFixed {
  import opened Arith
  import opened Fixed
  import opened LspPolynomials
  import opened LspLpc

  // The 2*cos terms as they stand for real numbers: Q14.
  function Cosines(f: seq<int>): (c: seq<real>)
    ensures |c| == |f|
  {
    seq(|f|, i requires 0 <= i < |f| => f[i] as real / 16384.0)
  }

  predicate AreCosines(f: seq<int>) { forall i :: 0 <= i < |f| ==> -0x8000 <= f[i] <= 0x7fff }

  // ---------- how large a coefficient can get ----------

  // The coefficients of (1 + z)^(2i), which no product of quadratics with cosines exceeds.
  const TABLE: seq<seq<int>> := [[1], [1, 2, 1], [1, 4, 6, 4, 1], [1, 6, 15, 20, 15, 6, 1],
                                 [1, 8, 28, 56, 70, 56, 28, 8, 1], [1, 10, 45, 120, 210, 252, 210, 120, 45, 10, 1]]

  function Most(i: nat, k: int): (b: int)
    requires i <= 5
    ensures 0 <= b <= 252 && (i <= 4 ==> b <= 70)
  {
    if 0 <= k <= 2 * i then TABLE[i][k] else 0
  }

  lemma MostGrows(i: nat, k: int)
    requires 1 <= i <= 5
    ensures Most(i, k) == Most(i - 1, k) + 2 * Most(i - 1, k - 1) + Most(i - 1, k - 2)
  {
    assert i == 1 || i == 2 || i == 3 || i == 4 || i == 5;
    if 0 <= k <= 2 * i {
      assert k == 0 || k == 1 || k == 2 || k == 3 || k == 4 || k == 5 || k == 6 || k == 7 || k == 8 || k == 9
             || k == 10;
    }
  }

  lemma {:induction false} ProdBound(c: seq<real>, i: nat, k: int)
    requires i <= |c| && i <= 5 && forall j :: 0 <= j < |c| ==> -2.0 <= c[j] <= 2.0
    ensures -(Most(i, k) as real) <= Prod(c, i, k) <= Most(i, k) as real
    decreases i
  {
    if i > 0 {
      ProdBound(c, i - 1, k);
      ProdBound(c, i - 1, k - 1);
      ProdBound(c, i - 1, k - 2);
      MostGrows(i, k);
      TwiceAtMost(c[i - 1], Prod(c, i - 1, k - 1), Most(i - 1, k - 1) as real);
      hide Mult, Most;
    }
  }

  lemma TwiceAtMost(g: real, p: real, b: real)
    requires -2.0 <= g <= 2.0 && -b <= p <= b
    ensures -2.0 * b <= Mult(g, p) <= 2.0 * b
  {
    hide Mult;
    var a := if p < 0.0 then -p else p;
    ScaleLe(g, 2.0, a);
    ScaleLe(-2.0, g, a);
    Doubles(a);
    MinusOut(g, a);
    assert p == a || p == -a;
  }

  lemma ScaleLe(a: real, b: real, n: real)
    requires a <= b && 0.0 <= n
    ensures Mult(a, n) <= Mult(b, n)
  {
    NonNegative(b - a, n);
    assert (b - a) * n == b * n - a * n;
  }

  lemma Doubles(a: real)
    ensures Mult(2.0, a) == 2.0 * a && Mult(-2.0, a) == -2.0 * a
  {
  }

  lemma MinusOut(g: real, a: real)
    ensures Mult(g, -a) == -Mult(g, a)
  {
  }

  lemma NonNegative(x: real, y: real)
    requires x >= 0.0 && y >= 0.0
    ensures x * y >= 0.0
  {
  }

  // ---------- one row after the other ----------

  // The value of a row in fixed point, with nothing on either side.
  function At(f: seq<int>, par: nat, i: nat, k: int): int
    requires par <= 1 && 2 * i <= |f|
  {
    if 0 <= k <= 2 * i then Row(FixedOps(), f, par, i, k) else 0
  }

  // Units of 2^-20 that a row may be off.
  function Off(i: nat): nat { if i <= 1 then 0 else 4 * Off(i - 1) + 1 }

  ghost predicate IsNear(r: int, p: real, e: nat) { -(e as real) <= r as real - 1048576.0 * p <= e as real }

  // Three entries that are near, and a product that is rounded down, make an entry that is near.
  lemma NearStep(r0: int, r1: int, r2: int, p0: real, p1: real, p2: real, g: int, q: int, e: nat)
    requires IsNear(r0, p0, e) && IsNear(r1, p1, e) && IsNear(r2, p2, e)
    requires -0x8000 <= g <= 0x7fff && q == g * r1 / 0x4000
    ensures IsNear(r0 - q + r2, p0 - Mult(g as real / 16384.0, p1) + p2, 4 * e + 1)
  {
    var c, d := g as real / 16384.0, r1 as real - 1048576.0 * p1;
    TwiceAtMost(c, d, e as real);
    RoundedDown(g, r1, q);
    Apart(c, r1 as real, p1);
    hide Mult;
  }

  lemma RoundedDown(g: int, r: int, q: int)
    requires q == g * r / 0x4000
    ensures var c := g as real / 16384.0; Mult(c, r as real) - 1.0 < q as real <= Mult(c, r as real)
  {
    var x := g * r;
    assert x as real == g as real * r as real;
    assert 16384 * q <= x < 16384 * q + 16384;
    assert (g as real / 16384.0) * r as real == (g as real * r as real) / 16384.0;
  }

  lemma Apart(c: real, r: real, p: real)
    ensures Mult(c, r - 1048576.0 * p) == Mult(c, r) - 1048576.0 * Mult(c, p)
  {
    assert c * (1048576.0 * p) == 1048576.0 * (c * p);
  }

  // Every row is the exact product, in units of 2^-20, but for that.
  lemma {:induction false} RowIsNear(f: seq<int>, par: nat, m: nat, i: nat, k: int)
    requires par <= 1 && i <= m <= 5 && 2 * m <= |f| && AreCosines(f)
    ensures IsNear(At(f, par, i, k), Prod(Every(Cosines(f), par, m), i, k), Off(i))
    ensures -0x10_0000 * Most(i, k) - Off(i) <= At(f, par, i, k) <= 0x10_0000 * Most(i, k) + Off(i)
    decreases i
  {
    var c := Every(Cosines(f), par, m);
    ProdEnds(c, i, k);
    ProdBound(c, i, k);
    NearBound(At(f, par, i, k), Prod(c, i, k), Off(i), Most(i, k));
    if k <= 0 || k >= 2 * i {
      EndsAre(f, par, i, k);
    } else {
      InnerIsNear(f, par, m, i, k, c);
    }
  }

  lemma NearBound(r: int, p: real, e: nat, b: nat)
    requires -(b as real) <= p <= b as real
    ensures IsNear(r, p, e) ==> -0x10_0000 * b - e <= r <= 0x10_0000 * b + e
  {
    if IsNear(r, p, e) {
      assert r as real <= (0x10_0000 * b + e) as real;
      assert r as real >= (-0x10_0000 * b - e) as real;
    }
  }

  lemma EndsAre(f: seq<int>, par: nat, i: nat, k: int)
    requires par <= 1 && 2 * i <= |f|
    ensures k == 0 || k == 2 * i ==> At(f, par, i, k) == 0x10_0000
    ensures k < 0 || k > 2 * i ==> At(f, par, i, k) == 0
  {
  }

  lemma {:induction false} InnerIsNear(f: seq<int>, par: nat, m: nat, i: nat, k: int, c: seq<real>)
    requires par <= 1 && 1 <= i <= m <= 5 && 2 * m <= |f| && AreCosines(f) && 0 < k < 2 * i
    requires c == Every(Cosines(f), par, m)
    ensures IsNear(At(f, par, i, k), Prod(c, i, k), Off(i))
    decreases i, 0
  {
    hide Prod, Row, Mult, Most, At;
    var g := f[2 * (i - 1) + par];
    ProdUnfolds(c, i, k);
    RowIsNear(f, par, m, i - 1, k);
    RowIsNear(f, par, m, i - 1, k - 1);
    RowIsNear(f, par, m, i - 1, k - 2);
    OffBound(i - 1);
    InnerValue(f, par, i, k);
    NearStep(At(f, par, i - 1, k), At(f, par, i - 1, k - 1), At(f, par, i - 1, k - 2), Prod(c, i - 1, k),
             Prod(c, i - 1, k - 1), Prod(c, i - 1, k - 2), g, g * At(f, par, i - 1, k - 1) / 0x4000, Off(i - 1));
    if i == 1 { FirstRow(f, par, c, k); }
  }

  lemma OffBound(i: nat)
    requires i <= 5
    ensures Off(i) <= 85 && (i <= 4 ==> Off(i) <= 21)
  {
    assert Off(2) == 1 && Off(3) == 5 && Off(4) == 21 && Off(5) == 85;
  }

  // The second row is exact.
  lemma FirstRow(f: seq<int>, par: nat, c: seq<real>, k: int)
    requires par <= 1 && |f| >= 2 && |c| > 0 && c[0] == f[par] as real / 16384.0 && k == 1 && AreCosines(f)
    ensures IsNear(At(f, par, 1, k), Prod(c, 1, k), 0)
  {
    FloorQ14(f[par], 0x10_0000);
    assert At(f, par, 1, 1) == Sub32(0, Mult16_32_Q14(f[par], 0x10_0000));
    assert f[par] * 0x10_0000 / 0x4000 == 64 * f[par];
    assert Prod(c, 0, 1) == 0.0 && Prod(c, 0, 0) == 1.0 && Prod(c, 0, -1) == 0.0;
    assert Prod(c, 1, 1) == 0.0 - Mult(c[0], 1.0) + 0.0;
    hide Mult16_32_Q14;
  }

  // No sum of an inner entry overflows.
  lemma InnerValue(f: seq<int>, par: nat, i: nat, k: int)
    requires par <= 1 && 1 <= i <= 5 && 2 * i <= |f| && AreCosines(f) && 0 < k < 2 * i
    requires -0x500_0000 <= At(f, par, i - 1, k) <= 0x500_0000
    requires -0x500_0000 <= At(f, par, i - 1, k - 1) <= 0x500_0000
    requires -0x500_0000 <= At(f, par, i - 1, k - 2) <= 0x500_0000
    ensures At(f, par, i, k)
         == At(f, par, i - 1, k) - f[2 * (i - 1) + par] * At(f, par, i - 1, k - 1) / 0x4000 + At(f, par, i - 1, k - 2)
  {
    var g, r := f[2 * (i - 1) + par], At(f, par, i - 1, k - 1);
    FloorQ14(g, r);
    ProductFits(g, r);
    hide Row, Mult16_32_Q14;
    if i == 1 {
      OneFirst(f, par);
    } else {
      RowUnfolds(FixedOps(), f, par, i, k);
    }
  }

  lemma OneFirst(f: seq<int>, par: nat)
    requires par <= 1 && |f| >= 2
    ensures Row(FixedOps(), f, par, 1, 1) == Sub32(0, Mult16_32_Q14(f[par], 0x10_0000))
    ensures Row(FixedOps(), f, par, 0, 0) == 0x10_0000
  {
    hide Mult16_32_Q14;
  }

  lemma ProductFits(g: int, r: int)
    requires -0x8000 <= g <= 0x7fff && -0x500_0000 <= r <= 0x500_0000
    ensures -0xa00_0000 <= g * r / 0x4000 <= 0xa00_0000
  {
    var a := if g < 0 then -g else g;
    MulLe(-0x500_0000, r, a);
    MulLe(r, 0x500_0000, a);
    if g < 0 { Negated(r, a); }
    assert g * r == r * g;
  }

  // ---------- the coefficients ----------

  // The exact filter, in units of 2^-13.
  function Exact(f: seq<int>, m: nat, j: nat): real
    requires |f| == 2 * m
  {
    8192.0 * Half(Every(Cosines(f), 0, m), Every(Cosines(f), 1, m), m, j)
  }

  // Every coefficient of the fixed-point build is the exact one, rounded to within two units and saturated.
  lemma WithinTwo(f: seq<int>, m: nat, j: nat) returns (v: int)
    requires |f| == 2 * m && 1 <= m <= 5 && 1 <= j <= 2 * m && AreCosines(f)
    ensures Exact(f, m, j) - 2.0 < v as real < Exact(f, m, j) + 2.0
    ensures Coefficient(FixedOps(), f, m, j) == Saturate(v, 32767)
  {
    hide Row, Prod, Saturate, At, Mult, Most;
    var p, q := Every(Cosines(f), 0, m), Every(Cosines(f), 1, m);
    RowIsNear(f, 0, m, m, j);
    RowIsNear(f, 1, m, m, j);
    RowIsNear(f, 0, m, m, j - 1);
    RowIsNear(f, 1, m, m, j - 1);
    OffBound(m);
    var a, b, c, d := At(f, 0, m, j), At(f, 0, m, j - 1), At(f, 1, m, j), At(f, 1, m, j - 1);
    CoefficientIs(f, m, j);
    HalfIs(p, q, m, j);
    var total := a + b + c - d;
    v := (total + 0x80) / 0x100;
    Rounded(total, Prod(p, m, j) + Prod(p, m, j - 1) + Prod(q, m, j) - Prod(q, m, j - 1));
  }

  lemma HalfIs(p: seq<real>, q: seq<real>, m: nat, j: nat)
    requires |p| == |q| == m
    ensures Half(p, q, m, j) == (Prod(p, m, j) + Prod(p, m, j - 1) + Prod(q, m, j) - Prod(q, m, j - 1)) / 2.0
  {
    hide Prod;
  }

  lemma Rounded(total: int, sum: real)
    requires -340.0 <= total as real - 1048576.0 * sum <= 340.0
    ensures var v := (total + 0x80) / 0x100;
            8192.0 * (sum / 2.0) - 2.0 < v as real < 8192.0 * (sum / 2.0) + 2.0
  {
    var v := (total + 0x80) / 0x100;
    assert 256 * v <= total + 128 < 256 * v + 256;
    assert (256 * v) as real == 256.0 * v as real;
  }

  // The four terms, of which two cancel in the first coefficient, where the code leaves them out.
  lemma CoefficientIs(f: seq<int>, m: nat, j: nat)
    requires |f| == 2 * m && 1 <= m <= 5 && 1 <= j <= 2 * m
    requires forall par, k :: 0 <= par <= 1 && j - 1 <= k <= j ==> -0xfff_ffff <= At(f, par, m, k) <= 0xfff_ffff
    ensures Coefficient(FixedOps(), f, m, j)
         == Saturate((At(f, 0, m, j) + At(f, 0, m, j - 1) + At(f, 1, m, j) - At(f, 1, m, j - 1) + 0x80) / 0x100, 32767)
  {
    hide Row, Saturate;
    EndsAre(f, 0, m, j - 1);
    EndsAre(f, 1, m, j - 1);
    var a, b := At(f, 0, m, j), if j == 1 then 0 else At(f, 0, m, j - 1);
    var c, d := At(f, 1, m, j), if j == 1 then 0 else At(f, 1, m, j - 1);
    assert Coefficient(FixedOps(), f, m, j)
        == Saturate(Add32(Sub32(Add32(Add32(a, b), c), d), 0x80) / 0x100, 32767) by { hide Add32, Sub32, Wrap32; }
    FourSums(a, b, c, d);
    hide Add32, Sub32;
  }

  lemma FourSums(a: int, b: int, c: int, d: int)
    requires forall x :: x in [a, b, c, d] ==> -0xfff_ffff <= x <= 0xfff_ffff
    ensures Add32(Sub32(Add32(Add32(a, b), c), d), 0x80) == a + b + c - d + 0x80
  {
    assert a in [a, b, c, d] && b in [a, b, c, d] && c in [a, b, c, d] && d in [a, b, c, d];
    assert Add32(a, b) == a + b;
    assert Add32(a + b, c) == a + b + c;
    assert Sub32(a + b + c, d) == a + b + c - d;
  }
}
