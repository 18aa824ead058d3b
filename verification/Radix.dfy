/** The unrolled butterflies for radix 2, 3, 4 and 5: each shortcut equals the defining sum. */
module Radix {
  import opened Arith
  import opened Columns
  import opened Complex
  import opened Twiddles
  import opened FftSpec
  import opened Butterflies

  ghost predicate IsRoots(roots: seq<Cpx>, tw: seq<Cpx>, h: int)
    requires |tw| > 0
  {
    forall e :: 0 <= e < |roots| ==> roots[e] == W(tw, e * h)
  }

  ghost predicate IsTurned(y: seq<Cpx>, was: seq<Cpx>, base: nat, m: nat, step: nat, tw: seq<Cpx>, u: nat)
    requires |tw| > 0
  {
    forall q :: 0 <= q < |y| ==> y[q] == Turned(was, base, m, step, tw, u, q)
  }

  // c lists the powers of the p-th root of unity that bin q1 multiplies its p samples by.
  ghost predicate IsPowers(c: seq<Cpx>, roots: seq<Cpx>, p: nat, q1: nat) {
    && 2 <= p <= 5 && |c| == |roots| == p && q1 < p
    && c[0] == roots[0] && c[1] == roots[q1]
    && (p > 2 ==> c[2] == roots[2 * q1 % p])
    && (p > 3 ==> c[3] == roots[3 * q1 % p])
    && (p > 4 ==> c[4] == roots[4 * q1 % p])
  }

  ghost function DotTerm(y: seq<Cpx>, c: seq<Cpx>): int -> Cpx {
    (q: int) => Mul(At(y, q), At(c, q))
  }

  // y[0]*c[0] + y[1]*c[1] + ... for two to five products.
  ghost function Dot(y: seq<Cpx>, c: seq<Cpx>): Cpx
    requires 2 <= |y| == |c| <= 5
  {
    var s2 := Add(Mul(y[0], c[0]), Mul(y[1], c[1]));
    if |y| == 2 then s2
    else
      var s3 := Add(s2, Mul(y[2], c[2]));
      if |y| == 3 then s3
      else
        var s4 := Add(s3, Mul(y[3], c[3]));
        if |y| == 4 then s4 else Add(s4, Mul(y[4], c[4]))
  }

  // Output bin u + q1*m of a column is a p-point DFT of its turned samples.
  lemma BinIsDot(was: seq<Cpx>, base: nat, m: nat, step: nat, tw: seq<Cpx>, inverse: bool,
                 target: int -> Cpx, u: nat, q1: nat, k: nat, y: seq<Cpx>, roots: seq<Cpx>, c: seq<Cpx>)
    requires IsTwiddles(tw, inverse) && step * |y| * m == |tw| && IsPowers(c, roots, |y|, q1)
    requires u < m && k == u + q1 * m && IsTarget(target, was, base, |y|, m, step, tw)
    requires IsTurned(y, was, base, m, step, tw, u) && IsRoots(roots, tw, step * m)
    ensures target(k) == Dot(y, c)
  {
    hide IsTwiddles, IsTarget, IsTurned, IsRoots, Dot, BinTerm, DotTerm, Sum;
    NotEmpty(tw, inverse);
    var f, g := BinTerm(was, base, |y|, m, step, tw, u, q1), DotTerm(y, c);
    BinIsSum(was, base, |y|, m, step, tw, inverse, target, u, q1, k);
    TermsAgree(was, base, m, step, tw, u, q1, y, roots, c);
    SumCong(f, g, |y|);
    DotIsSum(y, c);
  }

  lemma TermsAgree(was: seq<Cpx>, base: nat, m: nat, step: nat, tw: seq<Cpx>, u: nat, q1: nat, y: seq<Cpx>,
                   roots: seq<Cpx>, c: seq<Cpx>)
    requires |tw| > 0 && IsPowers(c, roots, |y|, q1)
    requires IsTurned(y, was, base, m, step, tw, u) && IsRoots(roots, tw, step * m)
    ensures forall q :: 0 <= q < |y| ==> BinTerm(was, base, |y|, m, step, tw, u, q1)(q) == DotTerm(y, c)(q)
  {
    hide IsTurned, IsRoots, BinTerm, DotTerm, IsPowers;
    forall q: nat | q < |y| ensures BinTerm(was, base, |y|, m, step, tw, u, q1)(q) == DotTerm(y, c)(q) {
      SmallTerm(was, base, m, step, tw, u, q, q1, y, roots, c);
    }
  }

  // z lists all p outputs of the p-point DFT of y; row q1 of c holds the coefficients of output q1.
  ghost predicate IsSmallDft(z: seq<Cpx>, y: seq<Cpx>, roots: seq<Cpx>, c: seq<seq<Cpx>>) {
    && |z| == |c| == |y|
    && forall q1 :: 0 <= q1 < |c| ==> IsPowers(c[q1], roots, |y|, q1) && z[q1] == Dot(y, c[q1])
  }

  lemma DotIsSum(y: seq<Cpx>, c: seq<Cpx>)
    requires 2 <= |y| == |c| <= 5
    ensures Sum(DotTerm(y, c), |y|) == Dot(y, c)
  {
    hide Mul, Add;
    SumFew(DotTerm(y, c));
  }

  lemma SmallTerm(was: seq<Cpx>, base: nat, m: nat, step: nat, tw: seq<Cpx>, u: nat, q: nat, q1: nat,
                  y: seq<Cpx>, roots: seq<Cpx>, c: seq<Cpx>)
    requires |tw| > 0 && q < |y| && IsPowers(c, roots, |y|, q1)
    requires IsTurned(y, was, base, m, step, tw, u) && IsRoots(roots, tw, step * m)
    ensures BinTerm(was, base, |y|, m, step, tw, u, q1)(q) == DotTerm(y, c)(q)
  {
    var e := q * q1 % |y|;
    assert c[q] == roots[e] by { PowerAt(c, roots, |y|, q1, q); }
    assert roots[e] == W(tw, e * (step * m));
  }

  lemma PowerAt(c: seq<Cpx>, roots: seq<Cpx>, p: nat, q1: nat, q: nat)
    requires IsPowers(c, roots, p, q1) && q < p
    ensures 0 <= q * q1 % p < p && c[q] == roots[q * q1 % p]
  {
    assert q * q1 == if q == 0 then 0 else if q == 1 then q1 else if q == 2 then 2 * q1 else if q == 3 then 3 * q1
           else 4 * q1;
  }

  lemma Distribute(z: real, x: real, y: real, c: real)
    requires z == x + y
    ensures z * c == x * c + y * c
  {
  }

  lemma DistributeSub(z: real, x: real, y: real, c: real)
    requires z == x - y
    ensures z * c == x * c - y * c
  {
  }

  lemma NegateFactor(z: real, c: real, x: real)
    requires z == -c
    ensures x * z == -(x * c)
  {
  }

  // ---------- radix 2 ----------

  const ROOTS2 := [ONE, Neg(ONE)]

  lemma Roots2Are(tw: seq<Cpx>, inverse: bool, h: nat)
    requires IsTwiddles(tw, inverse) && 2 * h == |tw|
    ensures IsRoots(ROOTS2, tw, h)
  {
    WFull(tw, inverse);
    WHalf(tw, inverse, h);
  }

  // The two output bins of a radix-2 column.
  function Pair(y: seq<Cpx>): seq<Cpx>
    requires |y| == 2
  {
    [Add(y[0], y[1]), Sub(y[0], y[1])]
  }

  lemma PairIsDft(y: seq<Cpx>)
    requires |y| == 2
    ensures IsSmallDft(Pair(y), y, ROOTS2, [[ONE, ONE], ROOTS2])
  {
  }

  // ---------- radix 3 ----------

  function Roots3(e: real): seq<Cpx> {
    [ONE, Cpx(-0.5, e), Cpx(-0.5, -e)]
  }

  lemma Roots3Are(tw: seq<Cpx>, inverse: bool, h: nat)
    requires IsTwiddles(tw, inverse) && 3 * h == |tw|
    ensures IsRoots(Roots3(W(tw, h).i), tw, h)
  {
    WFull(tw, inverse);
    WThird(tw, inverse, h);
    FewMultiples(h);
  }

  lemma FewMultiples(h: int)
    ensures 0 * h == 0 && 1 * h == h
  {
  }

  // The three output bins of a radix-3 column; e is the imaginary part of a third of a turn.
  function Triple(y: seq<Cpx>, e: real): seq<Cpx>
    requires |y| == 3
  {
    var s, d := Add(y[1], y[2]), Sub(y[1], y[2]);
    var mid := Cpx(y[0].r - s.r * 0.5, y[0].i - s.i * 0.5);
    [ Add(y[0], s),
      Cpx(mid.r - d.i * e, mid.i + d.r * e),
      Cpx(mid.r + d.i * e, mid.i - d.r * e) ]
  }

  lemma TripleIsDft(y: seq<Cpx>, e: real)
    requires |y| == 3
    ensures Triple(y, e)[0] == Dot(y, [ONE, ONE, ONE])
    ensures Triple(y, e)[1] == Dot(y, Roots3(e))
    ensures Triple(y, e)[2] == Dot(y, Roots3(-e))
  {
    var d := Sub(y[1], y[2]);
    DistributeSub(d.r, y[1].r, y[2].r, e);
    DistributeSub(d.i, y[1].i, y[2].i, e);
  }

  lemma TripleIsSmallDft(y: seq<Cpx>, e: real)
    requires |y| == 3
    ensures IsSmallDft(Triple(y, e), y, Roots3(e), [[ONE, ONE, ONE], Roots3(e), Roots3(-e)])
  {
    TripleIsDft(y, e);
  }

  // ---------- radix 4 ----------

  function Roots4(inverse: bool): seq<Cpx> {
    var s := if inverse then 1.0 else -1.0;
    [ONE, Cpx(0.0, s), Neg(ONE), Cpx(0.0, -s)]
  }

  lemma Roots4Are(tw: seq<Cpx>, inverse: bool, h: nat)
    requires IsTwiddles(tw, inverse) && 4 * h == |tw|
    ensures IsRoots(Roots4(inverse), tw, h)
  {
    WFull(tw, inverse);
    WQuarter(tw, inverse, h);
    WHalf(tw, inverse, 2 * h);
    WThreeQuarters(tw, inverse, h);
    FewMultiples(h);
  }

  // The four output bins of a radix-4 column.
  function Quad(y: seq<Cpx>, inverse: bool): seq<Cpx>
    requires |y| == 4
  {
    var s, d := Add(y[1], y[3]), Sub(y[1], y[3]);
    var turned := if inverse then Cpx(-d.i, d.r) else Cpx(d.i, -d.r);
    [ Add(Add(y[0], y[2]), s), Add(Sub(y[0], y[2]), turned), Sub(Add(y[0], y[2]), s), Sub(Sub(y[0], y[2]), turned) ]
  }

  lemma QuadIsDft(y: seq<Cpx>, inverse: bool)
    requires |y| == 4
    ensures Quad(y, inverse)[0] == Dot(y, [ONE, ONE, ONE, ONE])
    ensures Quad(y, inverse)[1] == Dot(y, Roots4(inverse))
    ensures Quad(y, inverse)[2] == Dot(y, [ONE, Neg(ONE), ONE, Neg(ONE)])
    ensures Quad(y, inverse)[3] == Dot(y, Roots4(!inverse))
  {
    MulUnits(y[0]);
    MulUnits(y[1]);
    MulUnits(y[2]);
    MulUnits(y[3]);
    hide Mul;
  }

  lemma MulUnits(x: Cpx)
    ensures Mul(x, ONE) == x && Mul(x, Neg(ONE)) == Neg(x)
    ensures Mul(x, Cpx(0.0, 1.0)) == Cpx(-x.i, x.r) && Mul(x, Cpx(0.0, -1.0)) == Cpx(x.i, -x.r)
  {
  }

  lemma QuadIsSmallDft(y: seq<Cpx>, inverse: bool)
    requires |y| == 4
    ensures IsSmallDft(Quad(y, inverse), y, Roots4(inverse),
                       [[ONE, ONE, ONE, ONE], Roots4(inverse), [ONE, Neg(ONE), ONE, Neg(ONE)], Roots4(!inverse)])
  {
    QuadIsDft(y, inverse);
  }

  // ---------- radix 5 ----------

  function Roots5(a: Cpx, b: Cpx): seq<Cpx> {
    [ONE, a, b, Conj(b), Conj(a)]
  }

  lemma Roots5Are(tw: seq<Cpx>, inverse: bool, h: int)
    requires IsTwiddles(tw, inverse) && 5 * h == |tw|
    ensures IsRoots(Roots5(W(tw, h), W(tw, 2 * h)), tw, h)
  {
    WFull(tw, inverse);
    WConj(tw, inverse, h);
    WSame(tw, -h, 4 * h, 1);
    WConj(tw, inverse, 2 * h);
    WSame(tw, -2 * h, 3 * h, 1);
    FewMultiples(h);
  }

  // A sample with its two coordinates scaled.
  function Scale(x: Cpx, c: real): Cpx { Cpx(x.r * c, x.i * c) }

  // The five output bins of a radix-5 column; a and b are one and two fifths of a turn.
  function Quint(y: seq<Cpx>, a: Cpx, b: Cpx): seq<Cpx>
    requires |y| == 5
  {
    var s7, s10, s8, s9 := Add(y[1], y[4]), Sub(y[1], y[4]), Add(y[2], y[3]), Sub(y[2], y[3]);
    var p, q, u, v := Scale(s7, a.r), Scale(s8, b.r), Scale(s10, a.i), Scale(s9, b.i);
    var s5 := Cpx(y[0].r + p.r + q.r, y[0].i + p.i + q.i);
    var s6 := Cpx(u.i + v.i, -u.r - v.r);
    var p', q', u', v' := Scale(s7, b.r), Scale(s8, a.r), Scale(s10, b.i), Scale(s9, a.i);
    var s11 := Cpx(y[0].r + p'.r + q'.r, y[0].i + p'.i + q'.i);
    var s12 := Cpx(-u'.i + v'.i, u'.r - v'.r);
    [ Add(y[0], Add(s7, s8)), Sub(s5, s6), Add(s11, s12), Sub(s11, s12), Add(s5, s6) ]
  }

  // x*c + y*conj(c) through the sum and the difference of the two samples.
  lemma ConjugateSum(x: Cpx, y: Cpx, c: Cpx)
    ensures var p, u := Scale(Add(x, y), c.r), Scale(Sub(x, y), c.i);
            Add(Mul(x, c), Mul(y, Conj(c))) == Cpx(p.r - u.i, p.i + u.r)
  {
    hide Add, Sub, Mul, Conj, Scale;
    SumReal(x, y, c);
    SumImag(x, y, c);
  }

  lemma SumReal(x: Cpx, y: Cpx, c: Cpx)
    ensures Add(Mul(x, c), Mul(y, Conj(c))).r == Scale(Add(x, y), c.r).r - Scale(Sub(x, y), c.i).i
  {
    PairReal(x.r, x.i, y.r, y.i, c.r, c.i);
  }

  lemma SumImag(x: Cpx, y: Cpx, c: Cpx)
    ensures Add(Mul(x, c), Mul(y, Conj(c))).i == Scale(Add(x, y), c.r).i + Scale(Sub(x, y), c.i).r
  {
    PairImag(x.r, x.i, y.r, y.i, c.r, c.i);
  }

  lemma PairReal(xr: real, xi: real, yr: real, yi: real, cr: real, ci: real)
    ensures xr * cr - xi * ci + (yr * cr - yi * (-ci)) == (xr + yr) * cr - (xi - yi) * ci
  {
    Distribute(xr + yr, xr, yr, cr);
    DistributeSub(xi - yi, xi, yi, ci);
    NegateFactor(-ci, ci, yi);
  }

  lemma PairImag(xr: real, xi: real, yr: real, yi: real, cr: real, ci: real)
    ensures xr * ci + xi * cr + (yr * (-ci) + yi * cr) == (xi + yi) * cr + (xr - yr) * ci
  {
    Distribute(xi + yi, xi, yi, cr);
    DistributeSub(xr - yr, xr, yr, ci);
    NegateFactor(-ci, ci, yr);
  }

  lemma Opposite(x: Cpx, c: real)
    ensures Scale(x, -c).r == -Scale(x, c).r && Scale(x, -c).i == -Scale(x, c).i
  {
    NegateFactor(-c, c, x.r);
    NegateFactor(-c, c, x.i);
  }

  // The same with c conjugated.
  lemma ConjugateBack(x: Cpx, y: Cpx, c: Cpx)
    ensures var p, u := Scale(Add(x, y), c.r), Scale(Sub(x, y), c.i);
            Add(Mul(x, Conj(c)), Mul(y, c)) == Cpx(p.r + u.i, p.i - u.r)
  {
    assert Conj(Conj(c)) == c;
    ConjugateSum(x, y, Conj(c));
    Opposite(Sub(x, y), c.i);
    assert Conj(c).r == c.r && Conj(c).i == -c.i;
    hide *;
  }

  // The outer two products and the inner two taken together.
  lemma Paired(y: seq<Cpx>, c: seq<Cpx>)
    requires |y| == |c| == 5
    ensures Dot(y, c)
            == Add(Mul(y[0], c[0]), Add(Add(Mul(y[1], c[1]), Mul(y[4], c[4])), Add(Mul(y[2], c[2]), Mul(y[3], c[3]))))
  {
    hide Mul;
  }

  // Sums and differences of a sample and two pairs of products, for the two signs of each pair.
  lemma PairsTaken(y: Cpx, p: Cpx, q: Cpx, u: Cpx, v: Cpx)
    ensures Sub(Cpx(y.r + p.r + q.r, y.i + p.i + q.i), Cpx(u.i + v.i, -u.r - v.r))
         == Add(y, Add(Cpx(p.r - u.i, p.i + u.r), Cpx(q.r - v.i, q.i + v.r)))
    ensures Add(Cpx(y.r + p.r + q.r, y.i + p.i + q.i), Cpx(u.i + v.i, -u.r - v.r))
         == Add(y, Add(Cpx(p.r + u.i, p.i - u.r), Cpx(q.r + v.i, q.i - v.r)))
    ensures Add(Cpx(y.r + p.r + q.r, y.i + p.i + q.i), Cpx(-u.i + v.i, u.r - v.r))
         == Add(y, Add(Cpx(p.r - u.i, p.i + u.r), Cpx(q.r + v.i, q.i - v.r)))
    ensures Sub(Cpx(y.r + p.r + q.r, y.i + p.i + q.i), Cpx(-u.i + v.i, u.r - v.r))
         == Add(y, Add(Cpx(p.r + u.i, p.i - u.r), Cpx(q.r - v.i, q.i + v.r)))
  {
  }

  lemma QuintSecond(y: seq<Cpx>, a: Cpx, b: Cpx)
    requires |y| == 5
    ensures Quint(y, a, b)[2] == Dot(y, [ONE, b, Conj(a), a, Conj(b)])
  {
    hide Mul, Dot, Add, Sub, Scale;
    MulUnits(y[0]);
    ConjugateSum(y[1], y[4], b);
    ConjugateBack(y[2], y[3], a);
    Paired(y, [ONE, b, Conj(a), a, Conj(b)]);
    PairsTaken(y[0], Scale(Add(y[1], y[4]), b.r), Scale(Add(y[2], y[3]), a.r),
               Scale(Sub(y[1], y[4]), b.i), Scale(Sub(y[2], y[3]), a.i));
  }

  lemma QuintThird(y: seq<Cpx>, a: Cpx, b: Cpx)
    requires |y| == 5
    ensures Quint(y, a, b)[3] == Dot(y, [ONE, Conj(b), a, Conj(a), b])
  {
    hide Mul, Dot, Add, Sub, Scale;
    MulUnits(y[0]);
    ConjugateBack(y[1], y[4], b);
    ConjugateSum(y[2], y[3], a);
    Paired(y, [ONE, Conj(b), a, Conj(a), b]);
    PairsTaken(y[0], Scale(Add(y[1], y[4]), b.r), Scale(Add(y[2], y[3]), a.r),
               Scale(Sub(y[1], y[4]), b.i), Scale(Sub(y[2], y[3]), a.i));
  }

  lemma QuintFirst(y: seq<Cpx>, a: Cpx, b: Cpx)
    requires |y| == 5
    ensures Quint(y, a, b)[1] == Dot(y, [ONE, a, b, Conj(b), Conj(a)])
  {
    hide Mul, Dot, Add, Sub, Scale;
    MulUnits(y[0]);
    ConjugateSum(y[1], y[4], a);
    ConjugateSum(y[2], y[3], b);
    Paired(y, [ONE, a, b, Conj(b), Conj(a)]);
    PairsTaken(y[0], Scale(Add(y[1], y[4]), a.r), Scale(Add(y[2], y[3]), b.r),
               Scale(Sub(y[1], y[4]), a.i), Scale(Sub(y[2], y[3]), b.i));
  }

  lemma QuintFourth(y: seq<Cpx>, a: Cpx, b: Cpx)
    requires |y| == 5
    ensures Quint(y, a, b)[4] == Dot(y, [ONE, Conj(a), Conj(b), b, a])
  {
    hide Mul, Dot, Add, Sub, Scale;
    MulUnits(y[0]);
    ConjugateBack(y[1], y[4], a);
    ConjugateBack(y[2], y[3], b);
    Paired(y, [ONE, Conj(a), Conj(b), b, a]);
    PairsTaken(y[0], Scale(Add(y[1], y[4]), a.r), Scale(Add(y[2], y[3]), b.r),
               Scale(Sub(y[1], y[4]), a.i), Scale(Sub(y[2], y[3]), b.i));
  }

  lemma QuintZero(y: seq<Cpx>, a: Cpx, b: Cpx)
    requires |y| == 5
    ensures Quint(y, a, b)[0] == Dot(y, [ONE, ONE, ONE, ONE, ONE])
  {
  }

  lemma QuintIsSmallDft(y: seq<Cpx>, a: Cpx, b: Cpx)
    requires |y| == 5
    ensures IsSmallDft(Quint(y, a, b), y, Roots5(a, b),
                       [ [ONE, ONE, ONE, ONE, ONE], [ONE, a, b, Conj(b), Conj(a)], [ONE, b, Conj(a), a, Conj(b)],
                         [ONE, Conj(b), a, Conj(a), b], [ONE, Conj(a), Conj(b), b, a] ])
  {
    QuintZero(y, a, b);
    QuintFirst(y, a, b);
    QuintSecond(y, a, b);
    QuintThird(y, a, b);
    QuintFourth(y, a, b);
    hide Quint, Dot;
  }
}
