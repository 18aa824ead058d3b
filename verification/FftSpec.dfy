/** What the mixed-radix transform computes: the plain DFT sum, the divide-and-conquer
    recursion over a factor list, and the input order that recursion expects. */
module FftSpec {
  import opened Arith
  import opened Complex
  import opened Twiddles

  // One entry of the factor list: the radix p and the remaining length m of that stage.
  datatype Factor = Factor(p: nat, m: nat)

  // p1*m1 == n, p2*m2 == m1, ..., and only the last remaining length is 1.
  predicate Chain(n: nat, fs: seq<Factor>) {
    && |fs| > 0
    && fs[0].p > 0 && fs[0].m > 0
    && fs[0].p * fs[0].m == n
    && if fs[0].m == 1 then |fs| == 1 else Chain(fs[0].m, fs[1..])
  }

  ghost function At(s: seq<Cpx>, i: int): Cpx {
    if 0 <= i < |s| then s[i] else ZERO
  }

  // x[off + step*j] * w^(step*j*k)
  ghost function DftTerm(x: seq<Cpx>, off: int, step: int, tw: seq<Cpx>, k: int): int -> Cpx
    requires |tw| > 0
  {
    (j: int) => Mul(At(x, off + step * j), W(tw, step * j * k))
  }

  // Bin k of the DFT of the len samples x[off], x[off+step], ...
  ghost function SubDft(x: seq<Cpx>, off: int, step: int, len: nat, tw: seq<Cpx>, k: int): Cpx
    requires |tw| > 0
  {
    Sum(DftTerm(x, off, step, tw, k), len)
  }

  // Bin k of the DFT of x.
  ghost function Dft(x: seq<Cpx>, tw: seq<Cpx>, k: int): Cpx
    requires |tw| > 0
  {
    SubDft(x, 0, 1, |x|, tw, k)
  }

  // s[base + k mod m + q*m] * w^(step*q*k)
  ghost function CombineTerm(s: seq<Cpx>, base: int, m: nat, step: int, tw: seq<Cpx>, k: int): int -> Cpx
    requires |tw| > 0 && m > 0
  {
    (q: int) => Mul(At(s, base + k % m + q * m), W(tw, step * q * k))
  }

  // Bin k of the block at base, whose p sub-blocks of length m are already transformed.
  ghost function Combine(s: seq<Cpx>, base: int, p: nat, m: nat, step: int, tw: seq<Cpx>, k: int): Cpx
    requires |tw| > 0 && m > 0
  {
    Sum(CombineTerm(s, base, m, step, tw, k), p)
  }

  // Bin k of the block at base after recurring into each sub-block and then combining them.
  ghost function DepthFirst(s: seq<Cpx>, base: int, fs: seq<Factor>, step: int, tw: seq<Cpx>, k: int): Cpx
    requires |tw| > 0
    decreases |fs|, 1
  {
    if fs == [] then At(s, base)
    else if fs[0].m == 0 then ZERO
    else Sum(DepthFirstTerm(s, base, fs, step, tw, k), fs[0].p)
  }

  ghost function DepthFirstTerm(s: seq<Cpx>, base: int, fs: seq<Factor>, step: int, tw: seq<Cpx>, k: int): int -> Cpx
    requires |tw| > 0 && fs != [] && fs[0].m > 0
    decreases |fs|, 0
  {
    (q: int) => Mul(DepthFirst(s, base + q * fs[0].m, fs[1..], step * fs[0].p, tw, k % fs[0].m), W(tw, step * q * k))
  }

  // The sample that position k of the block holds before the butterflies.
  ghost function ShuffleIndex(fs: seq<Factor>, off: int, step: int, k: int): int {
    if fs == [] || fs[0].m == 0 then off
    else ShuffleIndex(fs[1..], off + step * (k / fs[0].m), step * fs[0].p, k % fs[0].m)
  }

  ghost predicate Shuffled(s: seq<Cpx>, base: int, len: nat, x: seq<Cpx>, fs: seq<Factor>, off: int, step: int) {
    forall k :: 0 <= k < len ==> At(s, base + k) == At(x, ShuffleIndex(fs, off, step, k))
  }

  lemma Exponent(n: int, step: int, p: int, m: int, j: int, q: int, q1: int, u: int)
    requires n == step * p * m
    ensures step * (q + p * j) * (q1 * m + u) == step * p * j * u + step * q * (q1 * m + u) + (j * q1) * n
  {
    assert step * (q + p * j) * (q1 * m + u) == step * q * (q1 * m + u) + step * p * j * (q1 * m + u);
    assert step * p * j * (q1 * m + u) == step * p * j * u + step * p * j * (q1 * m);
    assert step * p * j * (q1 * m) == (j * q1) * (step * p * m);
  }

  lemma WCombine(tw: seq<Cpx>, inverse: bool, a: int, b: int, t: int, c: int)
    requires IsTwiddles(tw, inverse) && c == a + b + t * |tw|
    ensures Mul(W(tw, a), W(tw, b)) == W(tw, c)
  {
    assert |tw| > 0;
    hide *;
    assert W(tw, c) == W(tw, a + b) by { WSame(tw, a + b, c, t); }
    assert Mul(W(tw, a), W(tw, b)) == W(tw, a + b) by { WAdd(tw, inverse, a, b); }
  }

  lemma Rotate(tw: seq<Cpx>, inverse: bool, v: Cpx, a: int, b: int, t: int, c: int)
    requires IsTwiddles(tw, inverse) && c == a + b + t * |tw|
    ensures Mul(Mul(v, W(tw, a)), W(tw, b)) == Mul(v, W(tw, c))
  {
    WCombine(tw, inverse, a, b, t, c);
    MulAssoc(v, W(tw, a), W(tw, b));
  }

  lemma SubIndex(off: int, step: int, p: int, q: int, j: int)
    ensures off + step * q + step * p * j == off + step * (q + p * j)
  {
  }

  // One product of the two-level sum is one product of the flat sum.
  lemma TermProduct(x: seq<Cpx>, tw: seq<Cpx>, inverse: bool, off: int, step: int, p: int, m: int,
                    q: int, j: int, q1: int, u: int, k: int)
    requires IsTwiddles(tw, inverse) && step * p * m == |tw| && k == q1 * m + u
    ensures Mul(DftTerm(x, off + step * q, step * p, tw, u)(j), W(tw, step * q * k))
         == DftTerm(x, off, step, tw, k)(q + p * j)
  {
    SubIndex(off, step, p, q, j);
    Exponent(|tw|, step, p, m, j, q, q1, u);
    Rotate(tw, inverse, At(x, off + step * (q + p * j)), step * p * j * u, step * q * k, j * q1,
           step * (q + p * j) * k);
  }

  // A sub-DFT turned by its twiddle is every p-th term of the whole DFT sum.
  lemma TurnedSubDft(x: seq<Cpx>, tw: seq<Cpx>, inverse: bool, off: int, step: int, p: nat, m: nat,
                     q: int, q1: int, u: int, k: int)
    requires IsTwiddles(tw, inverse) && step * p * m == |tw| && k == q1 * m + u
    ensures Mul(SubDft(x, off + step * q, step * p, m, tw, u), W(tw, step * q * k))
         == SumEvery(DftTerm(x, off, step, tw, k), q, p, m)
  {
    var g := DftTerm(x, off, step, tw, k);
    var f := DftTerm(x, off + step * q, step * p, tw, u);
    var c := W(tw, step * q * k);
    var h := (j: int) => Mul(f(j), c);
    SumMul(c, f, h, m);
    forall j | 0 <= j < m ensures h(j) == g(q + p * j) {
      TermProduct(x, tw, inverse, off, step, p, m, q, j, q1, u, k);
    }
    SumEveryIsSum(g, q, p, h, m);
  }

  // The recursion turns a shuffled block into the DFT of the subsequence it came from.
  lemma {:induction false} DepthFirstIsDft(s: seq<Cpx>, base: int, len: nat, x: seq<Cpx>, fs: seq<Factor>,
                                           tw: seq<Cpx>, inverse: bool, off: int, step: int, k: int)
    requires (if fs == [] then len == 1 else Chain(len, fs)) && IsTwiddles(tw, inverse) && step * len == |tw|
    requires Shuffled(s, base, len, x, fs, off, step)
    requires 0 <= k < len
    ensures DepthFirst(s, base, fs, step, tw, k) == SubDft(x, off, step, len, tw, k)
    decreases |fs|, 1
  {
    if fs == [] {
      assert At(s, base + 0) == At(x, ShuffleIndex(fs, off, step, 0));
      SingleSample(x, tw, inverse, off, step);
    } else {
      var inner := DepthFirstTerm(s, base, fs, step, tw, k);
      var g := DftTerm(x, off, step, tw, k);
      forall q | 0 <= q < fs[0].p ensures inner(q) == SumEvery(g, q, fs[0].p, fs[0].m) {
        DepthFirstTermIsDft(s, base, len, x, fs, tw, inverse, off, step, k, q);
      }
      SumInterleave(g, inner, fs[0].p, fs[0].m);
    }
  }

  lemma {:induction false} DepthFirstTermIsDft(s: seq<Cpx>, base: int, len: nat, x: seq<Cpx>, fs: seq<Factor>,
                                               tw: seq<Cpx>, inverse: bool, off: int, step: int, k: int, q: int)
    requires Chain(len, fs) && IsTwiddles(tw, inverse) && step * len == |tw|
    requires Shuffled(s, base, len, x, fs, off, step)
    requires 0 <= k < len && 0 <= q < fs[0].p
    ensures DepthFirstTerm(s, base, fs, step, tw, k)(q)
         == SumEvery(DftTerm(x, off, step, tw, k), q, fs[0].p, fs[0].m)
    decreases |fs|, 0
  {
    var p, m := fs[0].p, fs[0].m;
    StepLength(step, p, m);
    FlatSplit(k, p, m);
    SubBlockShuffled(s, base, len, x, fs, off, step, q);
    DepthFirstIsDft(s, base + q * m, m, x, fs[1..], tw, inverse, off + step * q, step * p, k % m);
    TurnedSubDft(x, tw, inverse, off, step, p, m, q, k / m, k % m, k);
  }

  lemma StepLength(step: int, p: int, m: int)
    ensures step * p * m == step * (p * m)
  {
  }

  lemma SingleSample(x: seq<Cpx>, tw: seq<Cpx>, inverse: bool, off: int, step: int)
    requires IsTwiddles(tw, inverse)
    ensures SubDft(x, off, step, 1, tw, 0) == At(x, off)
  {
    var f := DftTerm(x, off, step, tw, 0);
    assert Sum(f, 1) == Add(Sum(f, 0), f(0));
  }

  lemma SubBlockShuffled(s: seq<Cpx>, base: int, len: nat, x: seq<Cpx>, fs: seq<Factor>, off: int, step: int, q: int)
    requires Chain(len, fs) && Shuffled(s, base, len, x, fs, off, step)
    requires 0 <= q < fs[0].p
    ensures Shuffled(s, base + q * fs[0].m, fs[0].m, x, fs[1..], off + step * q, step * fs[0].p)
  {
    var p, m := fs[0].p, fs[0].m;
    var base', rest, off', step' := base + q * m, fs[1..], off + step * q, step * p;
    forall k | 0 <= k < m ensures At(s, base' + k) == At(x, ShuffleIndex(rest, off', step', k)) {
      FlatIndex(q, k, p, m);
      DivModUnique(q * m + k, q, k, m);
      assert At(s, base + (q * m + k)) == At(x, ShuffleIndex(fs, off, step, q * m + k));
    }
  }
}
