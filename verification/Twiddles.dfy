/** The twiddle table: powers of exp(-2*pi*i/n) for the forward transform and of
    exp(2*pi*i/n) for the inverse, known here only by the algebra they satisfy. */
module Twiddles {
  import opened Arith
  import opened Complex

  // What cos and sin give kiss_fft_alloc: the powers of a primitive n-th root of unity of
  // modulus one, whose quarter turn has the sign of the chosen direction.
  ghost predicate IsTwiddles(tw: seq<Cpx>, inverse: bool) {
    && |tw| > 0
    && tw[0] == ONE
    && (forall a, b {:trigger Mul(tw[a], tw[b])} ::
          0 <= a < |tw| && 0 <= b < |tw| ==> Mul(tw[a], tw[b]) == tw[(a + b) % |tw|])
    && (forall a :: 0 < a < |tw| ==> tw[a] != ONE)
    && (forall a {:trigger Conj(tw[a])} :: 0 < a < |tw| ==> Conj(tw[a]) == tw[|tw| - a])
    && (|tw| % 4 == 0 ==> if inverse then tw[|tw| / 4].i > 0.0 else tw[|tw| / 4].i < 0.0)
  }

  // The e-th power of the root.
  ghost function W(tw: seq<Cpx>, e: int): Cpx
    requires |tw| > 0
  {
    tw[e % |tw|]
  }

  lemma NotEmpty(tw: seq<Cpx>, inverse: bool)
    requires IsTwiddles(tw, inverse)
    ensures |tw| > 0
  {
  }

  lemma WAdd(tw: seq<Cpx>, inverse: bool, a: int, b: int)
    requires IsTwiddles(tw, inverse)
    ensures W(tw, a + b) == Mul(W(tw, a), W(tw, b))
  {
    ModAdd(a, b, |tw|);
  }

  lemma WPeriod(tw: seq<Cpx>, a: int, k: int)
    requires |tw| > 0
    ensures W(tw, a + k * |tw|) == W(tw, a)
  {
    ModAddMul(a, k, |tw|);
  }

  lemma WSame(tw: seq<Cpx>, a: int, c: int, t: int)
    requires |tw| > 0 && c == a + t * |tw|
    ensures W(tw, c) == W(tw, a)
  {
    ModAddMul(a, t, |tw|);
  }

  lemma WDirect(tw: seq<Cpx>, e: nat)
    requires e < |tw|
    ensures W(tw, e) == tw[e]
  {
    DivModUnique(e, 0, e, |tw|);
  }

  lemma WConj(tw: seq<Cpx>, inverse: bool, a: int)
    requires IsTwiddles(tw, inverse)
    ensures W(tw, -a) == Conj(W(tw, a))
  {
    var n, m := |tw|, a % |tw|;
    if m == 0 {
      DivModUnique(-a, -(a / n), 0, n);
    } else {
      assert -a == (-(a / n) - 1) * n + (n - m);
      DivModUnique(-a, -(a / n) - 1, n - m, n);
    }
  }

  lemma WNotOne(tw: seq<Cpx>, inverse: bool, a: int)
    requires IsTwiddles(tw, inverse) && 0 < a < |tw|
    ensures W(tw, a) != ONE
  {
  }

  lemma WFull(tw: seq<Cpx>, inverse: bool)
    requires IsTwiddles(tw, inverse)
    ensures W(tw, |tw|) == W(tw, 0) == ONE
  {
  }

  // A half turn is -1.
  lemma WHalf(tw: seq<Cpx>, inverse: bool, h: int)
    requires IsTwiddles(tw, inverse) && 2 * h == |tw|
    ensures W(tw, h) == Neg(ONE)
  {
    WAdd(tw, inverse, h, h);
    WFull(tw, inverse);
    WNotOne(tw, inverse, h);
    SquareRootOfOne(W(tw, h));
  }

  lemma SquareRootOfOne(x: Cpx)
    requires Mul(x, x) == ONE && x != ONE
    ensures x == Neg(ONE)
  {
    var d, s := Sub(x, ONE), Add(x, ONE);
    assert Mul(d, s) == Sub(Mul(x, x), ONE) == ZERO;
    NoZeroDivisors(d, s);
  }

  lemma QuarterSign(tw: seq<Cpx>, inverse: bool, h: int)
    requires IsTwiddles(tw, inverse) && 4 * h == |tw|
    ensures W(tw, h) == tw[|tw| / 4] && if inverse then W(tw, h).i > 0.0 else W(tw, h).i < 0.0
  {
    assert |tw| / 4 == h && |tw| % 4 == 0;
    WDirect(tw, h);
  }

  // A quarter turn is i or -i, according to the direction.
  lemma WQuarter(tw: seq<Cpx>, inverse: bool, h: int)
    requires IsTwiddles(tw, inverse) && 4 * h == |tw|
    ensures W(tw, h) == Cpx(0.0, if inverse then 1.0 else -1.0)
  {
    assert |tw| > 0;
    hide *;
    QuarterSign(tw, inverse, h);
    WAdd(tw, inverse, h, h);
    WHalf(tw, inverse, 2 * h);
    SquareRootOfMinusOne(W(tw, h));
  }

  lemma SquareRootOfMinusOne(x: Cpx)
    requires Mul(x, x) == Neg(ONE) && x.i != 0.0
    ensures x.r == 0.0 && (x.i == 1.0 || x.i == -1.0)
  {
    assert x.r * x.i + x.r * x.i == 0.0;
    ZeroProduct(x.r, x.i);
    assert x.i * x.i == 1.0;
    ZeroProduct(x.i - 1.0, x.i + 1.0);
  }

  lemma ZeroProduct(a: real, b: real)
    requires a * b == 0.0
    ensures a == 0.0 || b == 0.0
  {
  }

  lemma WThreeQuarters(tw: seq<Cpx>, inverse: bool, h: int)
    requires IsTwiddles(tw, inverse) && 4 * h == |tw|
    ensures W(tw, 3 * h) == Cpx(0.0, if inverse then -1.0 else 1.0)
  {
    WQuarter(tw, inverse, h);
    WConj(tw, inverse, h);
    WSame(tw, -h, 3 * h, 1);
  }

  // A third of a turn has real part -1/2, and two thirds is its conjugate.
  lemma WThird(tw: seq<Cpx>, inverse: bool, h: int)
    requires IsTwiddles(tw, inverse) && 3 * h == |tw|
    ensures W(tw, h).r == -0.5
    ensures W(tw, 2 * h) == Conj(W(tw, h))
  {
    WAdd(tw, inverse, h, h);
    WConj(tw, inverse, h);
    WPeriod(tw, -h, 1);
    WAdd(tw, inverse, h, -h);
    WFull(tw, inverse);
    WNotOne(tw, inverse, h);
    CubeRootOfOne(W(tw, h));
  }

  lemma CubeRootOfOne(x: Cpx)
    requires Mul(x, x) == Conj(x) && Mul(x, Conj(x)) == ONE && x != ONE
    ensures x.r == -0.5
  {
    // (x - 1) times the real number 2 Re x + 1 vanishes.
    var d, s := Sub(x, ONE), Cpx(2.0 * x.r + 1.0, 0.0);
    assert x.r * x.r + x.i * x.i == 1.0;
    assert x.r * x.r - x.i * x.i == x.r;
    assert 2.0 * (x.r * x.i) == -x.i;
    assert Mul(d, s) == ZERO;
    NoZeroDivisors(d, s);
  }
}
