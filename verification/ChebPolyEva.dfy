/** The two evaluations of a Chebyshev series: forwards in the fixed-point build, backwards in the other one (lsp.c). */
module ChebPolyEva {
  import opened Arith
  import opened Fixed
  import opened LspPolynomials

  // The arithmetic of the forward evaluation: twice a product, a product with a coefficient, and the
  // limits on the argument.
  datatype Ops<!T> = Ops(one: T, twice: (T, T) -> T, scale: (T, T) -> T, add: (T, T) -> T, sub: (T, T) -> T,
      limit: T -> T)

  // The polynomials one after the other, and the sum of the first n terms.
  function Poly<T>(o: Ops<T>, x: T, i: nat): T {
    if i == 0 then o.one else if i == 1 then x else o.sub(o.twice(x, Poly(o, x, i - 1)), Poly(o, x, i - 2))
  }

  function Sum<T>(o: Ops<T>, coef: seq<T>, m: nat, x: T, n: nat): T
    requires 0 < n <= m + 1 <= |coef|
  {
    if n == 1 then coef[m] else o.add(Sum(o, coef, m, x, n - 1), o.scale(coef[m - (n - 1)], Poly(o, x, n - 1)))
  }

  // cheb_poly_eva of the fixed-point build
  method Forward<T>(o: Ops<T>, coef: seq<T>, arg: T, m: nat) returns (sum: T)
    requires 1 <= m < |coef|
    ensures sum == Sum(o, coef, m, o.limit(arg), m + 1)
  {
    var x := o.limit(arg);
    var b1, b0 := o.one, x;
    sum := o.add(coef[m], o.scale(coef[m - 1], x));
    for i := 2 to m + 1
      invariant sum == Sum(o, coef, m, x, i) && b0 == Poly(o, x, i - 1) && b1 == Poly(o, x, i - 2)
    {
      b0, b1 := o.sub(o.twice(x, b0), b1), b0;
      sum := o.add(sum, o.scale(coef[m - i], b0));
    }
  }

  function FixedOps(): Ops<int> {
    Ops(16384, (a, b) => Mult16_16(a, b) / 0x2000, Mult16_16_P14, Add32, (a, b) => Wrap16(a - b),
        x => if x > 16383 then 16383 else if x < -16383 then -16383 else x)
  }

  function ExactOps(): Ops<real> {
    Ops(1.0, (a, b) => 2.0 * Mult(a, b), Mult, (a, b) => a + b, (a, b) => a - b, x => x)
  }

  lemma {:induction false} PolyIsCheb(x: real, i: nat)
    ensures Poly(ExactOps(), x, i) == Cheb(x, i)
  {
    if i >= 2 {
      PolyIsCheb(x, i - 1);
      PolyIsCheb(x, i - 2);
    }
  }

  lemma {:induction false} SumIsSeries(coef: seq<real>, m: nat, x: real, n: nat)
    requires 0 < n <= m + 1 <= |coef|
    ensures Sum(ExactOps(), coef, m, x, n) == Series(coef, m, x, n)
  {
    PolyIsCheb(x, n - 1);
    if n > 1 {
      SumIsSeries(coef, m, x, n - 1);
      hide Poly, Cheb;
    } else {
      One(coef[m]);
      assert Series(coef, m, x, 0) == 0.0;
    }
  }

  lemma One(a: real)
    ensures Mult(a, 1.0) == a && Mult(0.0, a) == 0.0 == Mult(a, 0.0)
  {
  }

  // cheb_poly_eva of the floating-point build: Clenshaw's recurrence
  method Backward(coef: seq<real>, x: real, m: nat) returns (v: real)
    requires m < |coef|
    ensures v == Series(coef, m, x, m + 1)
  {
    hide Mult, Cheb, Series;
    var b0, b1, x2, k := 0.0, 0.0, x * 2.0, m;
    One(Cheb(x, m + 1));
    One(Cheb(x, m));
    while k > 0
      invariant 0 <= k <= m
      invariant Series(coef, m, x, m + 1)
                == Series(coef, m, x, k + 1) + Mult(b0, Cheb(x, k + 1)) - Mult(b1, Cheb(x, k))
    {
      Clenshaw(coef, m, x, k, b0, b1);
      b0, b1 := Mult(x2, b0) - b1 + coef[m - k], b0;
      k := k - 1;
    }
    v := -b1 + Mult(0.5 * x2, b0) + coef[m];
    LastStep(coef, m, x, b0, b1);
  }

  lemma Clenshaw(coef: seq<real>, m: nat, x: real, k: nat, b0: real, b1: real)
    requires 0 < k <= m < |coef|
    ensures Series(coef, m, x, k + 1) + Mult(b0, Cheb(x, k + 1)) - Mult(b1, Cheb(x, k))
         == Series(coef, m, x, k) + Mult(Mult(x * 2.0, b0) - b1 + coef[m - k], Cheb(x, k)) - Mult(b0, Cheb(x, k - 1))
  {
    var a, t, s := coef[m - k], Cheb(x, k), Cheb(x, k - 1);
    assert Series(coef, m, x, k + 1) == Series(coef, m, x, k) + Mult(a, t);
    assert Cheb(x, k + 1) == 2.0 * Mult(x, t) - s;
    hide Cheb, Series, Mult;
    Turn(x, a, b0, b1, t, s);
  }

  lemma Turn(x: real, a: real, b0: real, b1: real, t: real, s: real)
    ensures Mult(a, t) + Mult(b0, 2.0 * Mult(x, t) - s) - Mult(b1, t)
            == Mult(Mult(x * 2.0, b0) - b1 + a, t) - Mult(b0, s)
  {
    assert b0 * (2.0 * (x * t) - s) == b0 * (2.0 * (x * t)) - b0 * s;
    assert (x * 2.0 * b0 - b1 + a) * t == x * 2.0 * b0 * t - b1 * t + a * t;
    assert b0 * (2.0 * (x * t)) == x * 2.0 * b0 * t;
  }

  lemma LastStep(coef: seq<real>, m: nat, x: real, b0: real, b1: real)
    requires m < |coef|
    ensures Series(coef, m, x, 1) + Mult(b0, Cheb(x, 1)) - Mult(b1, Cheb(x, 0))
            == -b1 + Mult(0.5 * (x * 2.0), b0) + coef[m]
  {
    assert Series(coef, m, x, 0) == 0.0;
    assert 0.5 * (x * 2.0) == x;
  }

  // Both evaluations are the same function.
  method BothWays(coef: seq<real>, x: real, m: nat) returns (a: real, b: real)
    requires 1 <= m < |coef|
    ensures a == b == Series(coef, m, x, m + 1)
  {
    a := Forward(ExactOps(), coef, x, m);
    SumIsSeries(coef, m, x, m + 1);
    b := Backward(coef, x, m);
  }
}
