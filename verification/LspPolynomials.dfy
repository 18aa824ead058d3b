/** Products of quadratics, coefficient by coefficient, and sums of Chebyshev polynomials, over exact reals. */
module LspPolynomials {
  import opened Arith

  // Coefficient k of the product of the first n factors 1 - f[i]*z + z*z.
  function Prod(f: seq<real>, n: nat, k: int): real
    requires n <= |f|
  {
    if n == 0 then (if k == 0 then 1.0 else 0.0)
    else Prod(f, n - 1, k) - Mult(f[n - 1], Prod(f, n - 1, k - 1)) + Prod(f, n - 1, k - 2)
  }

  // Nothing below 0 and above 2n, and ones at both ends.
  lemma {:induction false} ProdEnds(f: seq<real>, n: nat, k: int)
    requires n <= |f|
    ensures k < 0 || k > 2 * n ==> Prod(f, n, k) == 0.0
    ensures k == 0 || k == 2 * n ==> Prod(f, n, k) == 1.0
  {
    if n > 0 {
      ProdEnds(f, n - 1, k);
      ProdEnds(f, n - 1, k - 1);
      ProdEnds(f, n - 1, k - 2);
    }
  }

  // ---------- it is the product ----------

  function Power(z: real, k: nat): real { if k == 0 then 1.0 else Mult(z, Power(z, k - 1)) }

  // The first n coefficients put into a polynomial at z.
  function Value(f: seq<real>, m: nat, z: real, n: nat): real
    requires m <= |f|
  {
    if n == 0 then 0.0 else Value(f, m, z, n - 1) + Mult(Prod(f, m, n - 1), Power(z, n - 1))
  }

  function Product(f: seq<real>, m: nat, z: real): real
    requires m <= |f|
  {
    if m == 0 then 1.0 else Mult(1.0 - Mult(f[m - 1], z) + Mult(z, z), Product(f, m - 1, z))
  }

  lemma Spread(a: real, f: real, b: real, c: real, w: real)
    ensures Mult(a - Mult(f, b) + c, w) == Mult(a, w) - Mult(f, Mult(b, w)) + Mult(c, w)
  {
    assert (a - f * b + c) * w == a * w - f * b * w + c * w;
    assert f * b * w == f * (b * w);
  }

  lemma Associate(a: real, b: real, c: real)
    ensures Mult(a, Mult(b, c)) == Mult(b, Mult(a, c)) == Mult(Mult(a, b), c)
  {
  }

  lemma Distribute(a: real, b: real, c: real)
    ensures Mult(a, b + c) == Mult(a, b) + Mult(a, c) && Mult(b + c, a) == Mult(b, a) + Mult(c, a)
  {
  }

  // Value with one factor more, in terms of the values with one less.
  lemma {:induction false} ValueStep(f: seq<real>, m: nat, z: real, n: nat)
    requires 0 < m <= |f| && n >= 2
    ensures Value(f, m, z, n) == Value(f, m - 1, z, n) - Mult(f[m - 1], Mult(z, Value(f, m - 1, z, n - 1)))
                                 + Mult(Mult(z, z), Value(f, m - 1, z, n - 2))
  {
    hide Mult;
    var g := f[m - 1];
    var a, b, c := Prod(f, m - 1, n - 1), Prod(f, m - 1, n - 2), Prod(f, m - 1, n - 3);
    var w := Power(z, n - 1);
    Spread(a, g, b, c, w);
    if n == 2 {
      ProdEnds(f, m - 1, -1);
      ProdEnds(f, m - 1, -2);
      ProdEnds(f, m, 0);
      ProdEnds(f, m - 1, 0);
      SmallValues(z, g, b);
      assert Power(z, 0) == 1.0 && Power(z, 1) == z;
      assert Value(f, m - 1, z, 0) == 0.0 && Value(f, m - 1, z, 1) == 1.0;
      assert Value(f, m, z, 1) == 1.0 && Value(f, m, z, 2) == 1.0 + Mult(Prod(f, m, 1), z);
      assert Value(f, m - 1, z, 2) == 1.0 + Mult(a, z);
    } else {
      ValueStep(f, m, z, n - 1);
      Associate(b, z, Power(z, n - 2));
      Distribute(z, Value(f, m - 1, z, n - 2), Mult(b, Power(z, n - 2)));
      Distribute(g, Mult(z, Value(f, m - 1, z, n - 2)), Mult(z, Mult(b, Power(z, n - 2))));
      Associate(z, z, Power(z, n - 3));
      Associate(c, Mult(z, z), Power(z, n - 3));
      Distribute(Mult(z, z), Value(f, m - 1, z, n - 3), Mult(c, Power(z, n - 3)));
    }
  }

  lemma SmallValues(z: real, g: real, b: real)
    ensures Mult(0.0, z) == 0.0 && Mult(g, 0.0) == 0.0 && Mult(z, 0.0) == 0.0 && Mult(1.0, z) == z == Mult(z, 1.0)
    ensures Mult(b, Mult(z, 1.0)) == Mult(b, z) && Mult(Mult(z, z), 0.0) == 0.0 && Mult(1.0, 1.0) == 1.0
    ensures Mult(1.0, b) == b == Mult(b, 1.0)
  {
  }

  // Coefficients beyond the degree add nothing.
  lemma {:induction false} ValueBeyond(f: seq<real>, m: nat, z: real, n: nat)
    requires m <= |f| && n >= 2 * m + 1
    ensures Value(f, m, z, n) == Value(f, m, z, 2 * m + 1)
  {
    if n > 2 * m + 1 {
      ValueBeyond(f, m, z, n - 1);
      ProdEnds(f, m, n - 1);
      SmallValues(Power(z, n - 1), 0.0, 0.0);
      hide Mult;
    }
  }

  // The coefficients are those of the product.
  lemma {:induction false} ValueIsProduct(f: seq<real>, m: nat, z: real)
    requires m <= |f|
    ensures Value(f, m, z, 2 * m + 1) == Product(f, m, z)
  {
    if m == 0 {
      SmallValues(z, 0.0, 0.0);
      assert Value(f, 0, z, 0) == 0.0 && Power(z, 0) == 1.0;
    } else {
      var v := Product(f, m - 1, z);
      ValueIsProduct(f, m - 1, z);
      ValueStep(f, m, z, 2 * m + 1);
      ValueBeyond(f, m - 1, z, 2 * m + 1);
      ValueBeyond(f, m - 1, z, 2 * m);
      Spread(1.0, f[m - 1], z, Mult(z, z), v);
      SmallValues(v, 0.0, 0.0);
      hide Mult;
    }
  }

  // ---------- Chebyshev polynomials ----------

  function Cheb(x: real, i: nat): real {
    if i == 0 then 1.0 else if i == 1 then x else 2.0 * Mult(x, Cheb(x, i - 1)) - Cheb(x, i - 2)
  }

  // coef[m] T0(x) + coef[m-1] T1(x) + ..., up to the term n - 1
  function Series(coef: seq<real>, m: nat, x: real, n: nat): real
    requires n <= m + 1 <= |coef|
  {
    if n == 0 then 0.0 else Series(coef, m, x, n - 1) + Mult(coef[m - (n - 1)], Cheb(x, n - 1))
  }
}
