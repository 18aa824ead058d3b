/** The DFT of 2n real samples through the DFT of n complex samples that hold them in pairs,
    and the symmetry of their spectrum. */
module RealDft {
  import opened Arith
  import opened Complex
  import opened Twiddles
  import opened FftSpec
  import opened KissFftMain

  // The real samples stored pairwise in t.
  ghost function Unpair(t: seq<Cpx>): (x: seq<Cpx>)
    ensures |x| == 2 * |t|
  {
    seq(2 * |t|, i => if i % 2 == 0 then Cpx(At(t, i / 2).r, 0.0) else Cpx(At(t, i / 2).i, 0.0))
  }

  // tw holds every other entry of the twice as long table tw2.
  ghost predicate IsHalfTable(tw: seq<Cpx>, tw2: seq<Cpx>) {
    |tw2| == 2 * |tw| && forall j :: 0 <= j < |tw| ==> tw[j] == tw2[2 * j]
  }

  lemma HalfPower(tw: seq<Cpx>, tw2: seq<Cpx>, e: int)
    requires |tw| > 0 && IsHalfTable(tw, tw2)
    ensures W(tw, e) == W(tw2, 2 * e)
  {
    var n, r := |tw|, e % |tw|;
    assert 2 * e == (e / n) * (2 * n) + 2 * r;
    DivModUnique(2 * e, e / n, 2 * r, 2 * n);
  }

  // The DFT of the even samples (off == 0) or of the odd ones (off == 1).
  ghost function Part(t: seq<Cpx>, off: nat, tw2: seq<Cpx>, k: int): Cpx
    requires |tw2| > 0
  {
    SubDft(Unpair(t), off, 2, |t|, tw2, k)
  }

  const I := Cpx(0.0, 1.0)

  lemma PairTerm(t: seq<Cpx>, tw: seq<Cpx>, tw2: seq<Cpx>, k: int, j: int)
    requires |tw| > 0 && IsHalfTable(tw, tw2) && 0 <= j < |t|
    ensures DftTerm(t, 0, 1, tw, k)(j)
         == Add(DftTerm(Unpair(t), 0, 2, tw2, k)(j), Mul(DftTerm(Unpair(t), 1, 2, tw2, k)(j), I))
  {
    assert |tw2| > 0;
    hide Mul, Add, W, IsHalfTable;
    var x, w := Unpair(t), W(tw, 1 * j * k);
    assert w == W(tw2, 2 * j * k) by {
      HalfPower(tw, tw2, 1 * j * k);
      assert 2 * (1 * j * k) == 2 * j * k;
    }
    UnpairAt(t, j);
    hide Unpair;
    PairProduct(t[j], w);
  }

  lemma UnpairAt(t: seq<Cpx>, j: nat)
    requires j < |t|
    ensures At(Unpair(t), 2 * j) == Cpx(t[j].r, 0.0) && At(Unpair(t), 1 + 2 * j) == Cpx(t[j].i, 0.0)
  {
  }

  lemma PairProduct(a: Cpx, w: Cpx)
    ensures Mul(a, w) == Add(Mul(Cpx(a.r, 0.0), w), Mul(Mul(Cpx(a.i, 0.0), w), I))
  {
  }

  // The complex DFT of the pairs is the even part plus i times the odd part.
  lemma PairedDft(t: seq<Cpx>, tw: seq<Cpx>, tw2: seq<Cpx>, k: int)
    requires |tw| > 0 && IsHalfTable(tw, tw2)
    ensures Dft(t, tw, k) == Add(Part(t, 0, tw2, k), Mul(Part(t, 1, tw2, k), I))
  {
    var x := Unpair(t);
    var f, g := DftTerm(x, 0, 2, tw2, k), DftTerm(x, 1, 2, tw2, k);
    var gi := (j: int) => Mul(g(j), I);
    SumMul(I, g, gi, |t|);
    forall j | 0 <= j < |t| ensures DftTerm(t, 0, 1, tw, k)(j) == Add(f(j), gi(j)) {
      PairTerm(t, tw, tw2, k, j);
    }
    SumAdd(f, gi, DftTerm(t, 0, 1, tw, k), |t|);
  }

  // Bin q1*n + u of the long DFT from the two parts.
  lemma LongDft(t: seq<Cpx>, tw2: seq<Cpx>, inverse: bool, q1: int, u: int, k: int)
    requires IsTwiddles(tw2, inverse) && |tw2| == 2 * |t| && k == q1 * |t| + u
    ensures Dft(Unpair(t), tw2, k) == Add(Part(t, 0, tw2, u), Mul(Part(t, 1, tw2, u), W(tw2, k)))
  {
    var x, n := Unpair(t), |t|;
    var g := DftTerm(x, 0, 1, tw2, k);
    assert SumEvery(g, 0, 2, n) == Part(t, 0, tw2, u) by {
      TurnedSubDft(x, tw2, inverse, 0, 1, 2, n, 0, q1, u, k);
      WFull(tw2, inverse);
      assert 1 * 0 * k == 0;
    }
    assert SumEvery(g, 1, 2, n) == Mul(Part(t, 1, tw2, u), W(tw2, k)) by {
      TurnedSubDft(x, tw2, inverse, 0, 1, 2, n, 1, q1, u, k);
      assert 1 * 1 * k == k;
    }
    var inner := (q: int) => SumEvery(g, q, 2, n);
    SumInterleave(g, inner, 2, n);
    SumFew(inner);
  }

  // The DFT of real samples is conjugate-symmetric.
  lemma RealSymmetric(x: seq<Cpx>, off: nat, step: nat, len: nat, tw2: seq<Cpx>, inverse: bool, period: nat, k: int)
    requires IsTwiddles(tw2, inverse) && |tw2| == step * period
    requires forall i :: 0 <= i < |x| ==> x[i].i == 0.0
    ensures SubDft(x, off, step, len, tw2, period - k) == Conj(SubDft(x, off, step, len, tw2, k))
  {
    var f, g := DftTerm(x, off, step, tw2, k), DftTerm(x, off, step, tw2, period - k);
    forall j | 0 <= j < len ensures g(j) == Conj(f(j)) {
      SymmetricTerm(x, off, step, tw2, inverse, period, k, j);
    }
    SumConj(f, g, len);
  }

  lemma SymmetricTerm(x: seq<Cpx>, off: nat, step: nat, tw2: seq<Cpx>, inverse: bool, period: nat, k: int, j: int)
    requires IsTwiddles(tw2, inverse) && |tw2| == step * period && At(x, off + step * j).i == 0.0
    ensures DftTerm(x, off, step, tw2, period - k)(j) == Conj(DftTerm(x, off, step, tw2, k)(j))
  {
    var e, e' := step * j * k, step * j * (period - k);
    MirrorExponent(step, j, period, k);
    WSame(tw2, -e, e', j);
    WConj(tw2, inverse, e);
    ConjMul(At(x, off + step * j), W(tw2, e));
  }

  lemma MirrorExponent(step: int, j: int, period: int, k: int)
    ensures step * j * (period - k) == -(step * j * k) + j * (step * period)
  {
    assert step * j * (period - k) == step * j * period - step * j * k;
    assert step * j * period == j * (step * period);
  }

  lemma PartSymmetric(t: seq<Cpx>, off: nat, tw2: seq<Cpx>, inverse: bool, k: int)
    requires IsTwiddles(tw2, inverse) && |tw2| == 2 * |t|
    ensures Part(t, off, tw2, |t| - k) == Conj(Part(t, off, tw2, k))
  {
    RealSymmetric(Unpair(t), off, 2, |t|, tw2, inverse, |t|, k);
  }
}
