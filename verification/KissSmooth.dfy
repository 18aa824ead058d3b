/** Which transform lengths the generic butterfly can serve: exactly those without a divisor
    above 17 that is free of the divisors 2 to 17. */
module KissSmooth {
  import opened Arith
  import opened FftSpec
  import opened Butterflies
  import opened KissFactor

  // d exceeds the scratch buffer and cannot be split by any radix that fits in it.
  ghost predicate Rough(d: nat) {
    d > MAX_RADIX && forall e :: 2 <= e <= MAX_RADIX ==> d % e != 0
  }

  ghost predicate Smooth(n: nat) {
    forall d :: 0 < d && n % d == 0 ==> !Rough(d)
  }

  // Multiples of a rough number are not smooth; 19 is the first one.
  lemma RoughMultiples(d: nat, k: nat)
    requires Rough(d)
    ensures !Smooth(k * d)
  {
    DivModUnique(k * d, k, 0, d);
  }

  lemma NineteenIsRough(n: nat)
    ensures Rough(19) && !Smooth(19) && (0 < n < 19 ==> Smooth(n))
  {
    RoughMultiples(19, 1);
    if 0 < n < 19 {
      forall d | 0 < d && n % d == 0 ensures !Rough(d) {
        if d == 18 { assert 18 % 2 == 0; }
      }
    }
  }

  lemma {:induction false} Bezout(d: nat, p: nat) returns (g: nat, a: int, b: int)
    requires d > 0 && p > 0
    ensures 0 < g <= p && d % g == 0 && p % g == 0 && a * d + b * p == g
    decreases p
  {
    var r := d % p;
    if r == 0 {
      g, a, b := p, 0, 1;
      DivModUnique(p, 1, 0, p);
    } else {
      var a', b';
      g, a', b' := Bezout(p, r);
      a, b := b', a' - b' * (d / p);
      CombinedDivisor(d, d / p, p, r, g);
      CombinedBezout(d, d / p, p, r, a', b', g);
    }
  }

  lemma CombinedDivisor(d: nat, q: nat, p: nat, r: nat, g: nat)
    requires g > 0 && d == q * p + r && p % g == 0 && r % g == 0
    ensures d % g == 0
  {
    var x, y := p / g, r / g;
    assert p == x * g && r == y * g;
    assert d == (q * x + y) * g;
    DivModUnique(d, q * x + y, 0, g);
  }

  lemma CombinedBezout(d: nat, q: nat, p: nat, r: nat, a: int, b: int, g: int)
    requires d == q * p + r && a * p + b * r == g
    ensures b * d + (a - b * q) * p == g
  {
    assert b * d == b * (q * p) + b * r;
    assert (a - b * q) * p == a * p - b * (q * p);
  }

  // A rough divisor of p*m, for p within the scratch buffer, divides m.
  lemma RoughDivides(d: nat, p: nat, m: nat)
    requires Rough(d) && 0 < p <= MAX_RADIX && (p * m) % d == 0
    ensures m % d == 0
  {
    var g, a, b := Bezout(d, p);
    assert g == 1;
    var k := p * m / d;
    assert p * m == k * d;
    calc {
      m;
      (a * d + b * p) * m;
      a * m * d + b * (p * m);
      a * m * d + b * (k * d);
      (a * m + b * k) * d;
    }
    DivModUnique(m, a * m + b * k, 0, d);
  }

  lemma {:induction false} ChainSmooth(n: nat, fs: seq<Factor>, d: nat)
    requires Chain(n, fs) && RadicesFit(fs) && Rough(d) && n % d == 0
    ensures false
    decreases |fs|
  {
    RoughDivides(d, fs[0].p, fs[0].m);
    if fs[0].m > 1 {
      assert forall i :: 0 < i < |fs| ==> fs[i] == fs[1..][i - 1];
      ChainSmooth(fs[0].m, fs[1..], d);
    }
  }

  // The radices of kf_factor fit the scratch buffer if and only if n has no rough divisor.
  lemma FitsIffSmooth(n: nat, fs: seq<Factor>)
    requires Chain(n, fs)
    requires forall i :: 0 <= i < |fs| ==> GoodRadix(n, fs[i].p)
    ensures RadicesFit(fs) <==> Smooth(n)
  {
    if RadicesFit(fs) {
      forall d | 0 < d && n % d == 0 ensures !Rough(d) {
        if Rough(d) { ChainSmooth(n, fs, d); }
      }
    } else {
      var i :| 0 <= i < |fs| && fs[i].p > MAX_RADIX;
      assert GoodRadix(n, fs[i].p);
      assert Rough(fs[i].p);
    }
  }
}
