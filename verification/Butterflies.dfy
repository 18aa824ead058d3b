/** The five in-place butterfly passes. Each of them replaces one block, whose sub-blocks are
    already transformed, by the same combined block, whatever its radix-specific shortcut. */
module Butterflies {
  import opened Arith
  import opened Columns
  import opened Complex
  import opened Twiddles
  import opened FftSpec

  const MAX_RADIX := 17

  // Every radix fits the scratch buffer of the generic pass.
  ghost predicate RadicesFit(fs: seq<Factor>) {
    forall i :: 0 <= i < |fs| ==> fs[i].p <= MAX_RADIX
  }

  ghost predicate Fits(len: nat, base: nat, p: nat, m: nat, step: nat, tw: seq<Cpx>) {
    p > 0 && m > 0 && base + p * m <= len && step * p * m == |tw| > 0
  }

  // Marks the bins at which a target is unfolded into its sum.
  ghost predicate Unfold(k: int) { true }

  // target(k) is bin k of the block at base once its sub-blocks are combined.
  ghost predicate IsTarget(target: int -> Cpx, was: seq<Cpx>, base: nat, p: nat, m: nat, step: nat, tw: seq<Cpx>)
    requires |tw| > 0 && m > 0
  {
    forall k {:trigger Unfold(k)} :: Unfold(k) ==> target(k) == Combine(was, base, p, m, step, tw, k)
  }

  lemma MakeTarget(was: seq<Cpx>, base: nat, p: nat, m: nat, step: nat, tw: seq<Cpx>) returns (target: int -> Cpx)
    requires |tw| > 0 && m > 0
    ensures IsTarget(target, was, base, p, m, step, tw)
  {
    target := (k: int) => Combine(was, base, p, m, step, tw, k);
  }

  // The whole block at base is combined, everything else is as it was.
  ghost predicate Combined(now: seq<Cpx>, was: seq<Cpx>, base: nat, p: nat, m: nat, step: nat, tw: seq<Cpx>)
    requires |tw| > 0 && m > 0
  {
    && |now| == |was|
    && forall i :: 0 <= i < |was| ==>
         now[i] == if base <= i < base + p * m then Combine(was, base, p, m, step, tw, i - base) else was[i]
  }

  lemma TargetReached(now: seq<Cpx>, was: seq<Cpx>, base: nat, p: nat, m: nat, step: nat, tw: seq<Cpx>,
                      target: int -> Cpx)
    requires |tw| > 0 && m > 0 && IsTarget(target, was, base, p, m, step, tw)
    requires Progress(now, was, base, p * m, m, target, m)
    ensures Combined(now, was, base, p, m, step, tw)
  {
    AllColumns(now, was, base, p * m, m, target);
    forall i | 0 <= i < |was|
      ensures now[i] == if base <= i < base + p * m then Combine(was, base, p, m, step, tw, i - base) else was[i]
    {
      assert Unfold(i - base);
    }
  }

  // ---------- radix-specific shortcuts, as equations on the combined values ----------

  // The sample of sub-block q in column u, turned by its twiddle.
  ghost function Turned(was: seq<Cpx>, base: nat, m: nat, step: nat, tw: seq<Cpx>, u: nat, q: nat): Cpx
    requires |tw| > 0
  {
    Mul(At(was, base + u + q * m), W(tw, step * q * u))
  }

  lemma ColumnExponent(n: int, step: int, p: int, m: int, q: int, q1: int, u: int, t: int, e: int)
    requires n == step * p * m && q * q1 == t * p + e
    ensures step * q * (u + q1 * m) == step * q * u + e * (step * m) + t * n
  {
    calc {
      step * q * (u + q1 * m);
      step * q * u + step * (q * q1) * m;
      step * q * u + step * (t * p + e) * m;
      step * q * u + e * (step * m) + t * (step * p * m);
    }
  }

  lemma ColumnTerm(was: seq<Cpx>, base: nat, p: nat, m: nat, step: nat, tw: seq<Cpx>, inverse: bool,
                   u: nat, q: nat, q1: nat, t: nat, e: nat)
    requires IsTwiddles(tw, inverse) && step * p * m == |tw| && u < m
    requires q * q1 == t * p + e
    ensures CombineTerm(was, base, m, step, tw, u + q1 * m)(q)
         == Mul(Turned(was, base, m, step, tw, u, q), W(tw, e * (step * m)))
  {
    DivModUnique(u + q1 * m, q1, u, m);
    ColumnExponent(|tw|, step, p, m, q, q1, u, t, e);
    Rotate(tw, inverse, At(was, base + u + q * m), step * q * u, e * (step * m), t, step * q * (u + q1 * m));
  }

  // Term q of bin u + q1*m: the turned sample times the (q*q1)-th power of the p-th root of unity h turns away.
  ghost function BinTerm(was: seq<Cpx>, base: nat, p: nat, m: nat, step: nat, tw: seq<Cpx>, u: nat, q1: nat): int -> Cpx
    requires |tw| > 0 && p > 0
  {
    (q: int) => if q < 0 then ZERO else Mul(Turned(was, base, m, step, tw, u, q), W(tw, (q * q1 % p) * (step * m)))
  }

  lemma BinTermsAgree(was: seq<Cpx>, base: nat, p: nat, m: nat, step: nat, tw: seq<Cpx>, inverse: bool,
                      u: nat, q: nat, q1: nat)
    requires IsTwiddles(tw, inverse) && step * p * m == |tw| && p > 0 && u < m
    ensures CombineTerm(was, base, m, step, tw, u + q1 * m)(q) == BinTerm(was, base, p, m, step, tw, u, q1)(q)
  {
    MulLe(0, q, q1);
    ColumnTerm(was, base, p, m, step, tw, inverse, u, q, q1, q * q1 / p, q * q1 % p);
  }

  lemma BinIsSum(was: seq<Cpx>, base: nat, p: nat, m: nat, step: nat, tw: seq<Cpx>, inverse: bool,
                 target: int -> Cpx, u: nat, q1: nat, k: nat)
    requires IsTwiddles(tw, inverse) && step * p * m == |tw| && p > 0 && u < m && k == u + q1 * m
    requires IsTarget(target, was, base, p, m, step, tw)
    ensures target(k) == Sum(BinTerm(was, base, p, m, step, tw, u, q1), p)
  {
    var f, g := CombineTerm(was, base, m, step, tw, k), BinTerm(was, base, p, m, step, tw, u, q1);
    assert target(k) == Sum(f, p) by { assert Unfold(k); }
    forall q | 0 <= q < p ensures f(q) == g(q) {
      BinTermsAgree(was, base, p, m, step, tw, inverse, u, q, q1);
    }
    SumCong(f, g, p);
  }

  // ---------- the generic pass ----------

  // One addition and at most one subtraction bring twidx to the next multiple of c modulo n.
  lemma TwiddleStep(n: int, c: int, j: int, q: int, t: int, s: int)
    requires 0 <= c < n && 0 <= t < n && t == (c * j) % n && q == j + 1
    requires s == if t + c >= n then t + c - n else t + c
    ensures 0 <= s < n && s == (c * q) % n
  {
    var d := c * j / n;
    assert c * q == c * j + c;
    MulDiff(d + 1, d, n);
    DivModUnique(c * q, if t + c >= n then d + 1 else d, s, n);
  }

  // Every first product step*k of a block of len bins indexes a table of n twiddles.
  ghost predicate TableCovers(step: nat, len: nat, n: nat) {
    forall k: nat :: k < len ==> step * k < n
  }

  lemma TableIndex(step: nat, len: nat, n: nat, k: nat)
    requires TableCovers(step, len, n) && k < len
    ensures 0 <= step * k < n
  {
  }

  lemma FitsTable(step: nat, p: nat, m: nat, n: nat)
    requires n == step * p * m > 0
    ensures TableCovers(step, p * m, n)
  {
    assert n == step * (p * m);
    forall k: nat | k < p * m ensures step * k < n {
      if step > 0 { MulLe(k + 1, p * m, step); }
    }
  }

  lemma Swap(a: int, b: int, c: int)
    ensures a * b * c == a * c * b
  {
  }

  // The samples of column u, in sub-block order.
  ghost predicate Saved(scratch: seq<Cpx>, was: seq<Cpx>, base: nat, m: nat, p: nat, u: nat) {
    p <= |scratch| && forall q :: 0 <= q < p ==> scratch[q] == At(was, base + u + q * m)
  }

  // twidx after q additions of c, each followed by at most one subtraction of n.
  ghost function Wrapped(n: int, c: int, q: nat): (t: int)
    requires 0 <= c < n
    ensures 0 <= t < n
  {
    if q == 0 then 0
    else
      var s := Wrapped(n, c, q - 1) + c;
      if s >= n then s - n else s
  }

  lemma {:induction false} WrappedIsRemainder(n: int, c: int, q: nat)
    requires 0 <= c < n
    ensures Wrapped(n, c, q) == (c * q) % n
  {
    if q > 0 {
      WrappedIsRemainder(n, c, q - 1);
      TwiddleStep(n, c, q - 1, q, Wrapped(n, c, q - 1), Wrapped(n, c, q));
    }
  }

  // What the inner loop of kf_bfly_generic holds after q terms: a running sum over the saved column.
  ghost function Running(scratch: seq<Cpx>, tw: seq<Cpx>, c: nat, q: nat): Cpx
    requires 0 < q <= |scratch| && c < |tw|
  {
    if q == 1 then scratch[0]
    else Add(Running(scratch, tw, c, q - 1), Mul(scratch[q - 1], tw[Wrapped(|tw|, c, q - 1)]))
  }

  lemma {:induction false} RunningIsSum(scratch: seq<Cpx>, tw: seq<Cpx>, c: nat, q: nat, f: int -> Cpx)
    requires 0 < q <= |scratch| && c < |tw|
    requires f(0) == scratch[0]
    requires forall j :: 0 < j < q ==> f(j) == Mul(scratch[j], tw[Wrapped(|tw|, c, j)])
    ensures Running(scratch, tw, c, q) == Sum(f, q)
  {
    assert Sum(f, q) == Add(Sum(f, q - 1), f(q - 1));
    if q > 1 { RunningIsSum(scratch, tw, c, q - 1, f); }
  }

  // Term q of the defining sum is the saved sample times the twiddle the loop reaches.
  lemma LoopTerm(scratch: seq<Cpx>, was: seq<Cpx>, base: nat, p: nat, m: nat, step: nat,
                 tw: seq<Cpx>, u: nat, k: nat, c: nat, q: nat)
    requires q < p && m > 0 && c < |tw| && k % m == u && c == step * k
    requires Saved(scratch, was, base, m, p, u)
    ensures CombineTerm(was, base, m, step, tw, k)(q) == Mul(scratch[q], tw[Wrapped(|tw|, c, q)])
  {
    Swap(step, k, q);
    WrappedIsRemainder(|tw|, c, q);
  }

  lemma LoopIsCombine(scratch: seq<Cpx>, was: seq<Cpx>, base: nat, p: nat, m: nat, step: nat,
                      tw: seq<Cpx>, u: nat, k: nat, c: nat)
    requires p > 0 && m > 0 && c < |tw| && tw[0] == ONE && k % m == u && c == step * k
    requires Saved(scratch, was, base, m, p, u)
    ensures Running(scratch, tw, c, p) == Combine(was, base, p, m, step, tw, k)
  {
    var f := CombineTerm(was, base, m, step, tw, k);
    forall q: nat | q < p ensures f(q) == Mul(scratch[q], tw[Wrapped(|tw|, c, q)]) {
      LoopTerm(scratch, was, base, p, m, step, tw, u, k, c, q);
    }
    RunningIsSum(scratch, tw, c, p, f);
  }

  // The inner loop of kf_bfly_generic: one output bin from the p saved samples of its column.
  method GenericBin(a: array<Cpx>, base: nat, step: nat, tw: seq<Cpx>, m: nat, p: nat, k: nat,
                    scratchbuf: array<Cpx>, ghost was: seq<Cpx>, ghost u: nat, ghost target: int -> Cpx)
    requires |tw| > 0 && m > 0 && p > 0 && tw[0] == ONE && k % m == u
    requires IsTarget(target, was, base, p, m, step, tw)
    requires base + k < a.Length && step * k < |tw|
    requires a != scratchbuf && Saved(scratchbuf[..], was, base, m, p, u)
    modifies a
    ensures a[..] == old(a[..])[base + k := target(k)]
  {
    var c := step * k;
    ghost var scratch := scratchbuf[..];
    var twidx := 0;
    a[base + k] := scratchbuf[0];
    for q := 1 to p
      invariant twidx == Wrapped(|tw|, c, q - 1)
      invariant scratchbuf[..] == scratch
      invariant a[..] == old(a[..])[base + k := Running(scratch, tw, c, q)]
    {
      twidx := twidx + c;
      if twidx >= |tw| {
        twidx := twidx - |tw|;
      }
      a[base + k] := Add(a[base + k], Mul(scratchbuf[q], tw[twidx]));
    }
    LoopIsCombine(scratch, was, base, p, m, step, tw, u, k, c);
    assert Unfold(k);
  }

  // The first inner loop of kf_bfly_generic copies the column.
  method SaveColumn(a: array<Cpx>, base: nat, m: nat, p: nat, u: nat, scratchbuf: array<Cpx>,
                    ghost was: seq<Cpx>, ghost target: int -> Cpx)
    requires u < m && base + p * m <= a.Length
    requires a != scratchbuf && p <= scratchbuf.Length
    requires Progress(a[..], was, base, p * m, m, target, u)
    modifies scratchbuf
    ensures Saved(scratchbuf[..], was, base, m, p, u)
  {
    var k := u;
    for q1 := 0 to p
      invariant k == u + q1 * m
      invariant forall q :: 0 <= q < q1 ==> scratchbuf[q] == At(was, base + u + q * m)
    {
      Untouched(a[..], was, base, p, m, target, u, q1);
      scratchbuf[q1] := a[base + k];
      k := k + m;
    }
  }

  // One pass of the outer loop of kf_bfly_generic.
  method GenericColumn(a: array<Cpx>, base: nat, step: nat, tw: seq<Cpx>, m: nat, p: nat, u: nat,
                       scratchbuf: array<Cpx>, ghost was: seq<Cpx>, ghost target: int -> Cpx)
    requires p > 0 && u < m && base + p * m <= a.Length && |tw| > 0 && tw[0] == ONE
    requires TableCovers(step, p * m, |tw|)
    requires a != scratchbuf && p <= scratchbuf.Length
    requires IsTarget(target, was, base, p, m, step, tw) && Progress(a[..], was, base, p * m, m, target, u)
    modifies a, scratchbuf
    ensures Progress(a[..], was, base, p * m, m, target, u + 1)
  {
    ghost var before := a[..];
    SaveColumn(a, base, m, p, u, scratchbuf, was, target);
    ghost var scratch := scratchbuf[..];
    var k := u;
    for q1 := 0 to p
      invariant k == u + q1 * m && |a[..]| == |was|
      invariant scratchbuf[..] == scratch
      invariant OnlyColumn(a[..], before, base, p * m, m, u)
      invariant forall q: nat :: q < q1 ==> BinDone(a[..], base, m, target, u, q)
    {
      ghost var now := a[..];
      ColumnIndex(base, p, m, u, q1);
      TableIndex(step, p * m, |tw|, k);
      GenericBin(a, base, step, tw, m, p, k, scratchbuf, was, u, target);
      BinStored(now, a[..], before, base, p, m, target, u, q1);
      k := k + m;
    }
    ColumnDone(a[..], before, was, base, p, m, target, u);
  }

  method BflyGeneric(a: array<Cpx>, base: nat, step: nat, tw: seq<Cpx>, ghost inverse: bool, m: nat, p: nat)
                     returns (ok: bool)
    requires IsTwiddles(tw, inverse) && Fits(a.Length, base, p, m, step, tw)
    modifies a
    ensures ok == (p <= MAX_RADIX)
    ensures ok ==> Combined(a[..], old(a[..]), base, p, m, step, tw)
  {
    if p > MAX_RADIX {
      return false;
    }
    var scratchbuf := new Cpx[MAX_RADIX];
    ghost var was := a[..];
    ghost var target := MakeTarget(was, base, p, m, step, tw);
    FitsTable(step, p, m, |tw|);
    NoColumn(was, base, p * m, m, target);
    for u := 0 to m
      invariant |a[..]| == |was| && Progress(a[..], was, base, p * m, m, target, u)
    {
      GenericColumn(a, base, step, tw, m, p, u, scratchbuf, was, target);
    }
    TargetReached(a[..], was, base, p, m, step, tw, target);
    return true;
  }
}
