/** The transform with the conjugate twiddles undoes the DFT up to the factor n. */
module DftInverse {
  import opened Arith
  import opened Complex
  import opened Twiddles
  import opened FftSpec
  import opened KissFftMain

  ghost function Across(f: (int, int) -> Cpx, k: int): int -> Cpx { (l: int) => f(k, l) }

  ghost function Down(f: (int, int) -> Cpx, l: int): int -> Cpx { (k: int) => f(k, l) }

  ghost function Rows(f: (int, int) -> Cpx, m: nat): int -> Cpx { (k: int) => Sum(Across(f, k), m) }

  ghost function Columns(f: (int, int) -> Cpx, n: nat): int -> Cpx { (l: int) => Sum(Down(f, l), n) }

  // A double sum may be taken in either order.
  lemma {:induction false} SumSwap(f: (int, int) -> Cpx, n: nat, m: nat)
    ensures Sum(Rows(f, m), n) == Sum(Columns(f, n), m)
  {
    if n == 0 {
      SumZero(Columns(f, 0), m);
    } else {
      SumSwap(f, n - 1, m);
      forall l | 0 <= l < m ensures Columns(f, n)(l) == Add(Columns(f, n - 1)(l), Across(f, n - 1)(l)) {
        assert Sum(Down(f, l), n) == Add(Sum(Down(f, l), n - 1), Down(f, l)(n - 1));
      }
      SumAdd(Columns(f, n - 1), Across(f, n - 1), Columns(f, n), m);
    }
  }

  // The powers of w^d, k of them.
  ghost function Powers(tw: seq<Cpx>, d: int): int -> Cpx
    requires |tw| > 0
  {
    (k: int) => W(tw, k * d)
  }

  lemma PowersStep(tw: seq<Cpx>, inverse: bool, d: int, k: int)
    requires IsTwiddles(tw, inverse)
    ensures Powers(tw, d)(k + 1) == Mul(Powers(tw, d)(k), W(tw, d))
  {
    assert (k + 1) * d == k * d + d;
    WCombine(tw, inverse, k * d, d, 0, (k + 1) * d);
  }

  // Multiplying a geometric sum by its ratio shifts it by one term.
  lemma {:induction false} GeometricShift(f: int -> Cpx, w: Cpx, n: nat)
    requires forall k :: 0 <= k < n ==> f(k + 1) == Mul(f(k), w)
    ensures Add(Mul(Sum(f, n), w), f(0)) == Add(Sum(f, n), f(n))
  {
    if n > 0 {
      GeometricShift(f, w, n - 1);
      assert f(n - 1 + 1) == Mul(f(n - 1), w);
      ShiftStep(Sum(f, n - 1), w, f(n - 1), f(0), f(n));
    }
  }

  lemma ShiftStep(s: Cpx, w: Cpx, t: Cpx, first: Cpx, next: Cpx)
    requires Add(Mul(s, w), first) == Add(s, t) && Mul(t, w) == next
    ensures Add(Mul(Add(s, t), w), first) == Add(Add(s, t), next)
  {
    MulAdd(w, s, t);
  }

  // The n powers of a root other than one add up to zero.
  lemma PowersVanish(tw: seq<Cpx>, inverse: bool, d: int)
    requires IsTwiddles(tw, inverse) && d % |tw| != 0
    ensures Sum(Powers(tw, d), |tw|) == ZERO
  {
    var f, n, w := Powers(tw, d), |tw|, W(tw, d);
    forall k | 0 <= k < n ensures f(k + 1) == Mul(f(k), w) { PowersStep(tw, inverse, d, k); }
    GeometricShift(f, w, n);
    assert f(n) == f(0) by { WSame(tw, 0, n * d, d); assert 0 * d == 0; }
    assert w == tw[d % n];
    FixedPoint(Sum(f, n), w, f(0));
  }

  lemma FixedPoint(s: Cpx, w: Cpx, first: Cpx)
    requires Add(Mul(s, w), first) == Add(s, first) && w != ONE
    ensures s == ZERO
  {
    var v := Sub(w, ONE);
    assert Mul(s, w) == s;
    assert Mul(v, s) == Sub(Mul(s, w), s);
    NoZeroDivisors(v, s);
  }

  lemma {:induction false} SumOnes(f: int -> Cpx, n: nat)
    requires forall k :: 0 <= k < n ==> f(k) == ONE
    ensures Sum(f, n) == Cpx(n as real, 0.0)
  {
    if n > 0 { SumOnes(f, n - 1); }
  }

  // A sum with one nonzero term.
  lemma {:induction false} SumSingle(f: int -> Cpx, n: nat, j: nat)
    requires j < n && forall l :: 0 <= l < n && l != j ==> f(l) == ZERO
    ensures Sum(f, n) == f(j)
  {
    if j == n - 1 { SumZero(f, n - 1); } else { SumSingle(f, n - 1, j); }
  }

  ghost predicate IsConjugateTable(twi: seq<Cpx>, tw: seq<Cpx>) {
    |twi| == |tw| && forall j {:trigger twi[j]} :: 0 <= j < |tw| ==> twi[j] == Conj(tw[j])
  }

  // x[l] * w^(k*(l-j))
  ghost function Cross(x: seq<Cpx>, tw: seq<Cpx>, j: int): (int, int) -> Cpx
    requires |tw| > 0
  {
    (k: int, l: int) => Mul(At(x, l), W(tw, k * (l - j)))
  }

  lemma ConjugatePower(tw: seq<Cpx>, twi: seq<Cpx>, inverse: bool, e: int)
    requires IsTwiddles(tw, inverse) && IsConjugateTable(twi, tw)
    ensures W(twi, e) == W(tw, -e)
  {
    WConj(tw, inverse, e);
  }

  lemma PlainTerm(x: seq<Cpx>, tw: seq<Cpx>, k: int, l: int)
    requires |tw| > 0
    ensures DftTerm(x, 0, 1, tw, k)(l) == Mul(At(x, l), W(tw, l * k))
  {
    assert 1 * l == l;
  }

  lemma CrossTerm(x: seq<Cpx>, tw: seq<Cpx>, twi: seq<Cpx>, inverse: bool, j: int, k: int, l: int)
    requires IsTwiddles(tw, inverse) && IsConjugateTable(twi, tw)
    ensures Mul(Mul(At(x, l), W(tw, l * k)), W(twi, k * j)) == Cross(x, tw, j)(k, l)
  {
    ConjugatePower(tw, twi, inverse, k * j);
    var a, b := l * k, -(k * j);
    assert k * (l - j) == a + b;
    Rotate(tw, inverse, At(x, l), a, b, 0, k * (l - j));
  }

  // Term k of the outer sum is row k of the cross products.
  lemma OuterTerm(x: seq<Cpx>, z: seq<Cpx>, tw: seq<Cpx>, twi: seq<Cpx>, inverse: bool, j: int, k: int)
    requires IsTwiddles(tw, inverse) && IsConjugateTable(twi, tw) && IsDft(z, x, tw) && 0 <= k < |x|
    ensures DftTerm(z, 0, 1, twi, j)(k) == Rows(Cross(x, tw, j), |x|)(k)
  {
    var f, c, h := DftTerm(x, 0, 1, tw, k), W(twi, k * j), Across(Cross(x, tw, j), k);
    PlainTerm(z, twi, j, k);
    forall l | 0 <= l < |x| ensures h(l) == Mul(f(l), c) {
      PlainTerm(x, tw, k, l);
      CrossTerm(x, tw, twi, inverse, j, k, l);
    }
    SumMul(c, f, h, |x|);
    assert z[k] == Sum(f, |x|);
  }

  ghost function Times(n: nat, a: Cpx): Cpx { Cpx(n as real * a.r, n as real * a.i) }

  lemma ScaledOnes(n: nat, a: Cpx)
    ensures Mul(Cpx(n as real, 0.0), a) == Times(n, a)
  {
  }

  // Column l of the cross products vanishes unless l is j.
  lemma ColumnSum(x: seq<Cpx>, tw: seq<Cpx>, inverse: bool, j: int, l: int)
    requires IsTwiddles(tw, inverse) && |tw| == |x| && 0 <= j < |x| && 0 <= l < |x|
    ensures Columns(Cross(x, tw, j), |x|)(l) == if l == j then Times(|x|, x[j]) else ZERO
  {
    var f, g := Powers(tw, l - j), Down(Cross(x, tw, j), l);
    forall k | 0 <= k < |x| ensures g(k) == Mul(f(k), x[l]) {
      assert g(k) == Mul(x[l], W(tw, k * (l - j)));
      MulComm(x[l], W(tw, k * (l - j)));
    }
    SumMul(x[l], f, g, |x|);
    if l == j {
      forall k | 0 <= k < |x| ensures f(k) == ONE { assert k * (l - j) == 0; WFull(tw, inverse); }
      SumOnes(f, |x|);
      ScaledOnes(|x|, x[j]);
    } else {
      if l > j { DivModUnique(l - j, 0, l - j, |x|); } else { DivModUnique(l - j, -1, l - j + |x|, |x|); }
      PowersVanish(tw, inverse, l - j);
    }
  }

  // The DFT of a DFT with the conjugate table is the original signal times n.
  lemma DftInverts(x: seq<Cpx>, z: seq<Cpx>, tw: seq<Cpx>, twi: seq<Cpx>, inverse: bool, j: int)
    requires IsTwiddles(tw, inverse) && |tw| == |x| && IsConjugateTable(twi, tw) && IsDft(z, x, tw)
    requires 0 <= j < |x|
    ensures Dft(z, twi, j) == Times(|x|, x[j])
  {
    var n, f := |x|, Cross(x, tw, j);
    OuterSum(x, z, tw, twi, inverse, j);
    SumSwap(f, n, n);
    OneColumn(x, tw, inverse, j);
  }

  lemma OuterSum(x: seq<Cpx>, z: seq<Cpx>, tw: seq<Cpx>, twi: seq<Cpx>, inverse: bool, j: int)
    requires IsTwiddles(tw, inverse) && IsConjugateTable(twi, tw) && IsDft(z, x, tw)
    ensures Dft(z, twi, j) == Sum(Rows(Cross(x, tw, j), |x|), |x|)
  {
    var f, g := DftTerm(z, 0, 1, twi, j), Rows(Cross(x, tw, j), |x|);
    forall k | 0 <= k < |x| ensures f(k) == g(k) {
      OuterTerm(x, z, tw, twi, inverse, j, k);
    }
    SumCong(f, g, |x|);
  }

  lemma OneColumn(x: seq<Cpx>, tw: seq<Cpx>, inverse: bool, j: int)
    requires IsTwiddles(tw, inverse) && |tw| == |x| && 0 <= j < |x|
    ensures Sum(Columns(Cross(x, tw, j), |x|), |x|) == Times(|x|, x[j])
  {
    var g := Columns(Cross(x, tw, j), |x|);
    forall l | 0 <= l < |x| ensures g(l) == if l == j then Times(|x|, x[j]) else ZERO {
      ColumnSum(x, tw, inverse, j, l);
    }
    SumSingle(g, |x|, j);
  }
}
