/** kf_factor: the radices of a transform length, powers of four first, then two, then odd factors. */
module KissFactor {
  import opened Arith
  import opened FftSpec

  // p1*m1 == n, p2*m2 == m1, ..., and the last remaining length is r.
  ghost predicate ChainTo(n: nat, fs: seq<Factor>, r: nat) {
    if fs == [] then n == r
    else fs[0].p > 0 && fs[0].m > 0 && fs[0].p * fs[0].m == n && ChainTo(fs[0].m, fs[1..], r)
  }

  lemma {:induction false} ChainAppend(n: nat, fs: seq<Factor>, p: nat, m: nat)
    requires p > 0 && m > 0 && ChainTo(n, fs, p * m)
    ensures ChainTo(n, fs + [Factor(p, m)], m)
  {
    var gs := fs + [Factor(p, m)];
    if fs == [] {
      assert gs[1..] == [];
    } else {
      ChainAppend(fs[0].m, fs[1..], p, m);
      assert gs[1..] == fs[1..] + [Factor(p, m)];
    }
  }

  // A list whose remaining lengths reach 1 at its last entry only is a complete factorisation.
  lemma {:induction false} ChainComplete(n: nat, fs: seq<Factor>)
    requires fs != [] && ChainTo(n, fs, 1)
    requires forall i :: 0 <= i < |fs| - 1 ==> fs[i].m > 1
    ensures Chain(n, fs)
  {
    if fs[0].m == 1 {
      assert |fs| == 1;
    } else {
      assert fs[1..] != [];
      forall i | 0 <= i < |fs[1..]| - 1 ensures fs[1..][i].m > 1 { assert fs[1..][i] == fs[i + 1]; }
      ChainComplete(fs[0].m, fs[1..]);
    }
  }

  ghost predicate NoDivisorBelow(n: nat, bound: int) {
    forall d :: 2 <= d < bound && d <= n ==> n % d != 0
  }

  // A radix is 4, or it has no proper divisor up to the largest trial radix.
  ghost predicate Irreducible(p: nat) {
    p == 4 || forall d :: 2 <= d < p && d <= MAX_TRIAL ==> p % d != 0
  }

  const MAX_TRIAL := 32000

  function Power2(e: nat): nat { if e == 0 then 1 else 2 * Power2(e - 1) }

  lemma DivisorOfDivisor(n: nat, p: nat, d: nat)
    requires p > 0 && d > 0 && n % p == 0 && p % d == 0
    ensures n % d == 0
  {
    assert n == (n / p) * p && p == (p / d) * d;
    assert n == ((n / p) * (p / d)) * d;
    DivModUnique(n, (n / p) * (p / d), 0, d);
  }

  lemma QuotientDivisor(n: nat, p: nat, d: nat)
    requires p > 0 && d > 0 && n % p == 0 && (n / p) % d == 0
    ensures n % d == 0
  {
    assert n == (n / p) * p && n / p == (n / p / d) * d;
    assert n == ((n / p / d) * p) * d;
    DivModUnique(n, (n / p / d) * p, 0, d);
  }

  // If nothing below p divides n and p*p exceeds n, nothing below n does.
  lemma TrialDivisionEnds(n: nat, p: nat)
    requires n > 1 && p > 1 && NoDivisorBelow(n, p) && p * p > n
    ensures NoDivisorBelow(n, n)
  {
    forall d | 2 <= d < n ensures n % d != 0 {
      if n % d == 0 && d >= p {
        var e := n / d;
        assert n == e * d;
        if e >= p { MulLe(p, e, d); MulLe(p, d, p); }
        assert e >= 2 by { if e <= 1 { MulLe(e, 1, d); } }
        DivModUnique(n, d, 0, e);
      }
    }
  }

  // Nothing below the next trial radix divides n once p does not divide it.
  lemma TrialAdvances(n: nat, p: nat, next: nat)
    requires n > 1 && p > 0 && n % p != 0
    requires p == 4 ==> next == 2
    requires p == 2 ==> next == 3 && NoDivisorBelow(n, 2)
    requires p != 4 && p != 2 ==> p % 2 == 1 && p >= 3 && next == p + 2 && NoDivisorBelow(n, p)
    ensures NoDivisorBelow(n, next)
  {
    forall d | 2 <= d < next && d <= n ensures n % d != 0 {
      if p >= 3 && p != 4 && d == p + 1 && n % d == 0 {
        DivisorOfDivisor(n, d, 2);
      }
    }
  }

  // What trial division knows when radix p is tried on the remaining length n.
  ghost predicate Trial(n: nat, p: nat) {
    p == 4 || p == 2 || (p % 2 == 1 && p >= 3 && NoDivisorBelow(n, p)) || (p == n && Irreducible(n))
  }

  function NextTrial(p: nat): nat {
    if p == 4 then 2 else if p == 2 then 3 else p + 2
  }

  lemma TrialFails(n: nat, p: nat)
    requires n > 0 && p > 0 && Trial(n, p) && n % p != 0
    ensures NextTrial(p) > 1 && Trial(n, NextTrial(p)) && NoDivisorBelow(n, NextTrial(p))
    ensures p != 4 ==> NextTrial(p) > p
  {
    if p == n { DivModUnique(n, 1, 0, n); }
    if n > 1 { TrialAdvances(n, p, NextTrial(p)); }
  }

  lemma TrialJumps(n: nat, p: nat)
    requires n > 0 && p > 1 && NoDivisorBelow(n, p) && (p > MAX_TRIAL || p * p > n)
    ensures Trial(n, n) && n % n == 0
  {
    DivModUnique(n, 1, 0, n);
    if n > 1 && p * p > n { TrialDivisionEnds(n, p); }
  }

  lemma TrialGoesOn(n: nat, p: nat)
    requires p > 1 && p * p <= n
    ensures p < n
  {
    MulLe(2, p, p);
  }

  lemma RadixFound(n: nat, p: nat)
    requires n > 0 && p > 0 && n % p == 0 && Trial(n, p)
    ensures Irreducible(p)
  {
    if p != 4 && p != 2 && p != n {
      forall d | 2 <= d < p && d <= MAX_TRIAL ensures p % d != 0 {
        if p % d == 0 { DivisorOfDivisor(n, p, d); DivisorSmall(n, p); }
      }
    }
  }

  lemma DivisorSmall(n: nat, p: nat)
    requires n > 0 && p > 0 && n % p == 0
    ensures 1 <= n / p <= n && p <= n && p * (n / p) == n
  {
    assert n == (n / p) * p;
    if n / p >= 1 { MulLe(1, n / p, p); MulLe(1, p, n / p); }
  }

  // The inner loop of kf_factor: the first radix that divides the remaining length.
  method NextRadix(n: nat, p0: nat) returns (p: nat)
    requires n > 0 && p0 > 0 && Trial(n, p0)
    requires n > 1 ==> p0 > 1
    ensures p > 0 && n % p == 0 && Trial(n, p) && (n > 1 ==> p > 1)
  {
    p := p0;
    while n % p != 0
      invariant p > 0 && Trial(n, p) && (n > 1 ==> p > 1)
      decreases if n % p == 0 then 0 else if p == 4 then n + 3 else if p < n then n - p + 1 else 1
    {
      TrialFails(n, p);
      p := NextTrial(p);
      if p > MAX_TRIAL || p * p > n {
        TrialJumps(n, p);
        p := n;
      } else {
        TrialGoesOn(n, p);
      }
    }
  }

  lemma TrialDivides(n: nat, p: nat)
    requires n > 0 && p > 0 && n % p == 0 && Trial(n, p)
    ensures n / p > 1 ==> Trial(n / p, p)
  {
    DivisorSmall(n, p);
    var r := n / p;
    if p == n { DivModUnique(n, 1, 0, n); }
    if p != 4 && p != 2 && p != n {
      forall d | 2 <= d < p && d <= r ensures r % d != 0 {
        if r % d == 0 { QuotientDivisor(n, p, d); }
      }
    }
  }

  // The list built so far: its entries multiply up to n over the remaining length r.
  ghost predicate Partial(n: nat, fs: seq<Factor>, r: nat) {
    && r > 0 && n > 0 && n % r == 0 && ChainTo(n, fs, r)
    && (n > 1 ==> Power2(|fs|) * r <= n)
    && forall i :: 0 <= i < |fs| ==> GoodRadix(n, fs[i].p)
  }

  ghost predicate GoodRadix(n: nat, p: nat) {
    p > 0 && n % p == 0 && Irreducible(p)
  }

  lemma PartialStep(n: nat, fs: seq<Factor>, r: nat, p: nat)
    requires Partial(n, fs, r) && p > 0 && r % p == 0 && Irreducible(p) && (n > 1 ==> p > 1)
    ensures Partial(n, fs + [Factor(p, r / p)], r / p)
  {
    var m := r / p;
    DivisorSmall(r, p);
    ChainAppend(n, fs, p, m);
    DivisorOfDivisor(n, r, p);
    DivModUnique(r, p, 0, m);
    DivisorOfDivisor(n, r, m);
    if n > 1 { PowerStep(Power2(|fs|), p, m, n); }
  }

  lemma PowerStep(e: nat, p: nat, m: nat, n: nat)
    requires p > 1 && e * (p * m) <= n
    ensures 2 * e * m <= n
  {
    MulLe(2, p, m);
    MulLe(2 * m, p * m, e);
    assert (2 * m) * e == 2 * e * m && (p * m) * e == e * (p * m);
  }

  // kf_factor: the factor list of n, whose radices cannot be split by any trial radix.
  method KfFactor(n: nat) returns (facbuf: seq<Factor>)
    requires n > 0
    ensures Chain(n, facbuf)
    ensures forall i :: 0 <= i < |facbuf| ==> GoodRadix(n, facbuf[i].p)
    ensures n > 1 ==> Power2(|facbuf|) <= n
  {
    var p, r := 4, n;
    facbuf := [];
    DivModUnique(n, 1, 0, n);
    while true
      invariant p > 0 && Trial(r, p) && (n > 1 ==> r > 1 && p > 1) && Partial(n, facbuf, r)
      invariant forall i :: 0 <= i < |facbuf| ==> facbuf[i].m > 1
      decreases r
    {
      p := NextRadix(r, p);
      RadixFound(r, p);
      TrialDivides(r, p);
      DivisorSmall(r, p);
      PartialStep(n, facbuf, r, p);
      SmallerLength(r, p);
      r := r / p;
      facbuf := facbuf + [Factor(p, r)];
      if r <= 1 { break; }
    }
    ChainComplete(n, facbuf);
  }

  lemma SmallerLength(r: nat, p: nat)
    requires r > 0 && p > 0 && r % p == 0
    ensures p > 1 ==> r / p < r
  {
    DivisorSmall(r, p);
    if p > 1 && r / p >= r { MulLe(2, p, r / p); }
  }
}
