/** Complex samples over exact reals, finite sums of them, and the few ring facts
    the transforms need. The multiplication is the one the float build spells out. */
module Complex {
  datatype Cpx = Cpx(r: real, i: real)

  const ZERO := Cpx(0.0, 0.0)
  const ONE := Cpx(1.0, 0.0)

  function Add(a: Cpx, b: Cpx): Cpx { Cpx(a.r + b.r, a.i + b.i) }

  function Sub(a: Cpx, b: Cpx): Cpx { Cpx(a.r - b.r, a.i - b.i) }

  function Mul(a: Cpx, b: Cpx): Cpx {
    Cpx(a.r * b.r - a.i * b.i, a.r * b.i + a.i * b.r)
  }

  function Neg(a: Cpx): Cpx { Cpx(-a.r, -a.i) }

  function Conj(a: Cpx): Cpx { Cpx(a.r, -a.i) }

  lemma MulAssoc(a: Cpx, b: Cpx, c: Cpx)
    ensures Mul(a, Mul(b, c)) == Mul(Mul(a, b), c)
  {
    calc {
      Mul(a, Mul(b, c)).r;
      a.r * (b.r * c.r - b.i * c.i) - a.i * (b.r * c.i + b.i * c.r);
      (a.r * b.r - a.i * b.i) * c.r - (a.r * b.i + a.i * b.r) * c.i;
      Mul(Mul(a, b), c).r;
    }
    calc {
      Mul(a, Mul(b, c)).i;
      a.r * (b.r * c.i + b.i * c.r) + a.i * (b.r * c.r - b.i * c.i);
      (a.r * b.r - a.i * b.i) * c.i + (a.r * b.i + a.i * b.r) * c.r;
      Mul(Mul(a, b), c).i;
    }
  }

  lemma MulComm(a: Cpx, b: Cpx)
    ensures Mul(a, b) == Mul(b, a)
  {
  }

  lemma MulAdd(a: Cpx, b: Cpx, c: Cpx)
    ensures Mul(a, Add(b, c)) == Add(Mul(a, b), Mul(a, c))
    ensures Mul(Add(b, c), a) == Add(Mul(b, a), Mul(c, a))
  {
  }

  lemma ConjMul(a: Cpx, b: Cpx)
    ensures Conj(Mul(a, b)) == Mul(Conj(a), Conj(b))
  {
  }

  ghost function Product(x: real, y: real): real { x * y }

  ghost function Norm(a: Cpx): real { Product(a.r, a.r) + Product(a.i, a.i) }

  lemma ProductSign(x: real, y: real)
    ensures x > 0.0 && y > 0.0 ==> Product(x, y) > 0.0
    ensures x < 0.0 && y < 0.0 ==> Product(x, y) > 0.0
    ensures x == 0.0 ==> Product(x, y) == 0.0
  {
  }

  lemma NormPositive(a: Cpx)
    requires a != ZERO
    ensures Norm(a) > 0.0
  {
    hide Product;
    ProductSign(a.r, a.r);
    ProductSign(a.i, a.i);
    assert a.r != 0.0 || a.i != 0.0;
  }

  // |a|^2 b = conj(a) (a b), coordinate by coordinate; re and im are those of a b.
  lemma NormTimes(ar: real, ai: real, br: real, bi: real, re: real, im: real)
    requires re == ar * br - ai * bi && im == ar * bi + ai * br
    ensures (ar * ar + ai * ai) * br == ar * re + ai * im
    ensures (ar * ar + ai * ai) * bi == ar * im - ai * re
  {
  }

  lemma NormCancels(a: Cpx, b: Cpx)
    requires Mul(a, b) == ZERO
    ensures Norm(a) * b.r == 0.0 && Norm(a) * b.i == 0.0
  {
    NormTimes(a.r, a.i, b.r, b.i, 0.0, 0.0);
  }

  lemma SameSign(n: real, x: real)
    requires n > 0.0
    ensures x > 0.0 ==> n * x > 0.0
    ensures x < 0.0 ==> n * x < 0.0
  {
  }

  // The field has no zero divisors.
  lemma NoZeroDivisors(a: Cpx, b: Cpx)
    requires Mul(a, b) == ZERO && a != ZERO
    ensures b == ZERO
  {
    NormPositive(a);
    NormCancels(a, b);
    hide *;
    SameSign(Norm(a), b.r);
    SameSign(Norm(a), b.i);
  }

  // f(0) + f(1) + ... + f(n-1)
  function Sum(f: int -> Cpx, n: nat): Cpx {
    if n == 0 then ZERO else Add(Sum(f, n - 1), f(n - 1))
  }

  lemma {:induction false} SumCong(f: int -> Cpx, g: int -> Cpx, n: nat)
    requires forall j :: 0 <= j < n ==> f(j) == g(j)
    ensures Sum(f, n) == Sum(g, n)
  {
    if n > 0 { SumCong(f, g, n - 1); }
  }

  lemma {:induction false} SumAdd(f: int -> Cpx, g: int -> Cpx, h: int -> Cpx, n: nat)
    requires forall j :: 0 <= j < n ==> h(j) == Add(f(j), g(j))
    ensures Sum(h, n) == Add(Sum(f, n), Sum(g, n))
  {
    if n > 0 { SumAdd(f, g, h, n - 1); }
  }

  lemma {:induction false} SumMul(c: Cpx, f: int -> Cpx, h: int -> Cpx, n: nat)
    requires forall j :: 0 <= j < n ==> h(j) == Mul(f(j), c)
    ensures Sum(h, n) == Mul(Sum(f, n), c)
  {
    if n > 0 {
      SumMul(c, f, h, n - 1);
      MulAdd(c, Sum(f, n - 1), f(n - 1));
    }
  }

  lemma {:induction false} SumConj(f: int -> Cpx, h: int -> Cpx, n: nat)
    requires forall j :: 0 <= j < n ==> h(j) == Conj(f(j))
    ensures Sum(h, n) == Conj(Sum(f, n))
  {
    if n > 0 { SumConj(f, h, n - 1); }
  }

  lemma {:induction false} SumConcat(f: int -> Cpx, g: int -> Cpx, m: nat, n: nat)
    requires forall j :: 0 <= j < n ==> g(j) == f(m + j)
    ensures Sum(f, m + n) == Add(Sum(f, m), Sum(g, n))
  {
    if n > 0 { SumConcat(f, g, m, n - 1); }
  }

  lemma {:induction false} SumZero(f: int -> Cpx, n: nat)
    requires forall j :: 0 <= j < n ==> f(j) == ZERO
    ensures Sum(f, n) == ZERO
  {
    if n > 0 { SumZero(f, n - 1); }
  }

  // g(q) + g(q+p) + ... + g(q+p*(m-1))
  function SumEvery(g: int -> Cpx, q: int, p: nat, m: nat): Cpx {
    if m == 0 then ZERO else Add(SumEvery(g, q, p, m - 1), g(q + p * (m - 1)))
  }

  lemma {:induction false} SumEveryIsSum(g: int -> Cpx, q: int, p: nat, f: int -> Cpx, m: nat)
    requires forall j :: 0 <= j < m ==> f(j) == g(q + p * j)
    ensures SumEvery(g, q, p, m) == Sum(f, m)
  {
    if m > 0 { SumEveryIsSum(g, q, p, f, m - 1); }
  }

  lemma Distribute(p: nat, m: nat)
    requires m > 0
    ensures p * (m - 1) >= 0 && p * (m - 1) + p == p * m
  {
  }

  lemma SumInterleaveStep(g: int -> Cpx, before: int -> Cpx, inner: int -> Cpx, p: nat, done: nat)
    requires forall q :: 0 <= q < p ==> inner(q) == Add(before(q), g(done + q))
    requires Sum(before, p) == Sum(g, done)
    ensures Sum(inner, p) == Sum(g, done + p)
  {
    var last := (q: int) => g(done + q);
    SumAdd(before, last, inner, p);
    SumConcat(g, last, done, p);
  }

  // A sum over p*m terms is the sum of the p sums over every p-th term.
  lemma {:induction false} SumInterleave(g: int -> Cpx, inner: int -> Cpx, p: nat, m: nat)
    requires forall q :: 0 <= q < p ==> inner(q) == SumEvery(g, q, p, m)
    ensures Sum(inner, p) == Sum(g, p * m)
  {
    if m == 0 {
      SumZero(inner, p);
    } else {
      Distribute(p, m);
      var before := (q: int) => SumEvery(g, q, p, m - 1);
      SumInterleave(g, before, p, m - 1);
      SumInterleaveStep(g, before, inner, p, p * (m - 1));
    }
  }

  lemma SumFew(f: int -> Cpx)
    ensures Sum(f, 2) == Add(f(0), f(1))
    ensures Sum(f, 3) == Add(Add(f(0), f(1)), f(2))
    ensures Sum(f, 4) == Add(Add(Add(f(0), f(1)), f(2)), f(3))
    ensures Sum(f, 5) == Add(Add(Add(Add(f(0), f(1)), f(2)), f(3)), f(4))
  {
    assert Sum(f, 1) == Add(Sum(f, 0), f(0));
    assert Sum(f, 2) == Add(Sum(f, 1), f(1));
    assert Sum(f, 3) == Add(Sum(f, 2), f(2));
    assert Sum(f, 4) == Add(Sum(f, 3), f(3));
    assert Sum(f, 5) == Add(Sum(f, 4), f(4));
  }
}
