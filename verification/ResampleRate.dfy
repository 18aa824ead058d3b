/** Setting the rate: the ratio in lowest terms, and the phase carried over to it. */
module ResampleRate {
  import opened Arith

  ghost predicate Common(g: nat, n: nat, d: nat) { g >= 2 && n % g == 0 && d % g == 0 }

  ghost predicate LowestTerms(n: nat, d: nat) { forall g: nat :: !Common(g, n, d) }

  lemma Divided(n: nat, f: nat, c: nat)
    requires f >= 2 && n > 0 && n % f == 0
    ensures n / f > 0 && (c * f) * (n / f) == c * n && n == f * (n / f)
  {
    var q := n / f;
    assert n == f * q;
    assert (c * f) * q == c * (f * q);
    if q <= 0 { MulLe(q, 0, f); }
  }

  // A divisor of the quotient divides the number.
  lemma DivisorOfQuotient(g: nat, n: nat, f: nat, q: nat)
    requires g >= 2 && n == f * q && q % g == 0
    ensures n % g == 0
  {
    var k := q / g;
    assert q == g * k;
    assert n == (f * k) * g;
    DivModUnique(n, f * k, 0, g);
  }

  lemma DivisorBound(g: nat, n: nat)
    requires g >= 2 && n > 0 && n % g == 0
    ensures g <= n
  {
    if n < g { DivModUnique(n, 0, n, g); }
  }

  // The loop of speex_resampler_set_rate_frac that tries every factor.
  method Reduce(ratioNum: nat, ratioDen: nat) returns (num: nat, den: nat, ghost c: nat)
    requires ratioNum > 0 && ratioDen > 0
    ensures num > 0 && den > 0 && LowestTerms(num, den)
    ensures ratioNum == c * num && ratioDen == c * den
  {
    num, den, c := ratioNum, ratioDen, 1;
    var fact: nat := 2;
    while fact <= (if num < den then num else den)
      invariant num > 0 && den > 0 && fact >= 2 && ratioNum == c * num && ratioDen == c * den
      invariant forall g: nat :: g < fact ==> !Common(g, num, den)
      decreases num + den - fact
    {
      ghost var before := num + den;
      while num % fact == 0 && den % fact == 0
        invariant num > 0 && den > 0 && ratioNum == c * num && ratioDen == c * den && num + den <= before
        invariant forall g: nat :: g < fact ==> !Common(g, num, den)
        decreases num
      {
        Divided(num, fact, c);
        Divided(den, fact, c);
        StillNoCommon(num, den, fact);
        SmallerQuotient(num, fact);
        SmallerQuotient(den, fact);
        num, den, c := num / fact, den / fact, c * fact;
      }
      fact := fact + 1;
    }
    NoneLeft(num, den, fact);
  }

  lemma SmallerQuotient(n: nat, f: nat)
    requires f >= 2 && n > 0
    ensures n / f < n
  {
    var q := n / f;
    if q >= n { MulLe(n, q, f); MulLe(2, f, n); }
  }

  lemma StillNoCommon(n: nat, d: nat, f: nat)
    requires f >= 2 && n > 0 && d > 0 && n % f == 0 && d % f == 0
    requires forall g: nat :: g < f ==> !Common(g, n, d)
    ensures n / f >= 0 && d / f >= 0 && forall g: nat :: g < f ==> !Common(g, n / f, d / f)
  {
    Divided(n, f, 1);
    Divided(d, f, 1);
    forall g: nat | g < f && Common(g, n / f, d / f) ensures false {
      DivisorOfQuotient(g, n, f, n / f);
      DivisorOfQuotient(g, d, f, d / f);
      assert Common(g, n, d);
    }
  }

  lemma NoneLeft(n: nat, d: nat, fact: nat)
    requires n > 0 && d > 0 && fact > (if n < d then n else d)
    requires forall g: nat :: g < fact ==> !Common(g, n, d)
    ensures LowestTerms(n, d)
  {
    forall g: nat | Common(g, n, d) ensures false {
      DivisorBound(g, n);
      DivisorBound(g, d);
    }
  }

  // The phase in the new denominator. The safety net of the source is never needed while the
  // product fits its word.
  function Rescale(frac: nat, den: nat, oldDen: nat): int
    requires oldDen > 0
  {
    var r := frac * den / oldDen;
    if r >= den then den - 1 else r
  }

  lemma RescaleInRange(frac: nat, den: nat, oldDen: nat)
    requires frac < oldDen && den > 0
    ensures 0 <= Rescale(frac, den, oldDen) < den
    ensures Rescale(frac, den, oldDen) == frac * den / oldDen
    ensures Rescale(frac, den, oldDen) * oldDen <= frac * den < (Rescale(frac, den, oldDen) + 1) * oldDen
  {
    var p := frac * den;
    var q, r := p / oldDen, p % oldDen;
    assert p == q * oldDen + r;
    MulLe(0, frac, den);
    MulLe(frac + 1, oldDen, den);
    if q >= den { MulLe(den, q, oldDen); }
    if q < 0 { MulLe(q, -1, oldDen); }
    MulDiff(q + 1, q, oldDen);
  }
}
