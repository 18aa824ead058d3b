/** kiss_fftri2: the inverse real transform, which undoes kiss_fftr2 up to the factor 2n. */
module KissFftri {
  import opened Arith
  import opened Complex
  import opened Twiddles
  import opened FftSpec
  import opened Butterflies
  import opened KissSmooth
  import opened KissFftMain
  import opened RealDft
  import opened DftInverse
  import opened KissFftr

  // The table of the opposite direction.
  function Conjugates(tw: seq<Cpx>): (c: seq<Cpx>)
    ensures |c| == |tw|
  {
    seq(|tw|, j requires 0 <= j < |tw| => Conj(tw[j]))
  }

  lemma ConjugatesAre(tw: seq<Cpx>, inverse: bool)
    requires IsTwiddles(tw, inverse)
    ensures IsTwiddles(Conjugates(tw), !inverse) && IsConjugateTable(tw, Conjugates(tw))
  {
    var c, n := Conjugates(tw), |tw|;
    forall a, b | 0 <= a < n && 0 <= b < n ensures Mul(c[a], c[b]) == c[(a + b) % n] {
      ConjMul(tw[a], tw[b]);
      assert Mul(tw[a], tw[b]) == tw[(a + b) % n];
    }
    forall a | 0 < a < n ensures c[a] != ONE && Conj(c[a]) == c[n - a] {
      assert tw[a] != ONE && Conj(tw[a]) == tw[n - a];
    }
  }

  // What kiss_fftri2 makes of bin k and the conjugate of bin n-k.
  function InversePair(fk: Cpx, fnkc: Cpx, s: Cpx): (Cpx, Cpx) {
    var fek := Add(fk, fnkc);
    var tmp := Sub(fk, fnkc);
    var fok := Mul(tmp, s);
    (Add(fek, fok), Conj(Sub(fek, fok)))
  }

  lemma InversePairIs(e: Cpx, o: Cpx, w: Cpx)
    requires Mul(w, Conj(w)) == ONE
    ensures InversePair(Add(e, Mul(o, w)), Sub(e, Mul(o, w)), Mul(Conj(w), I))
         == (Times(2, Add(e, Mul(o, I))), Times(2, Add(Conj(e), Mul(Conj(o), I))))
  {
    var ow, s := Mul(o, w), Mul(Conj(w), I);
    var fek, tmp := Add(Add(e, ow), Sub(e, ow)), Sub(Add(e, ow), Sub(e, ow));
    assert fek == Times(2, e) && tmp == Times(2, ow);
    assert Mul(ow, s) == Mul(o, I) by {
      MulAssoc(o, w, s);
      MulAssoc(w, Conj(w), I);
    }
    TwiceMul(tmp, ow, s);
    assert Mul(tmp, s) == Cpx(-2.0 * o.i, 2.0 * o.r);
  }

  lemma TwiceMul(v: Cpx, z: Cpx, w: Cpx)
    requires v == Times(2, z)
    ensures Mul(v, w) == Times(2, Mul(z, w))
  {
    Twice(v.r, z.r, w.r);
    Twice(v.i, z.i, w.i);
    Twice(v.r, z.r, w.i);
    Twice(v.i, z.i, w.r);
  }

  // The half-length spectrum that kiss_fftri2 rebuilds, at position j.
  function UnpackedAt(freq: seq<real>, n: nat, super: seq<Cpx>, j: nat): Cpx
    requires |freq| == 2 * n && |super| == n && j < n
  {
    if j == 0 then Cpx(freq[0] + freq[2 * n - 1], freq[0] - freq[2 * n - 1])
    else if 2 * j < n then UnpackedPair(freq, n, super, j).0
    else UnpackedPair(freq, n, super, n - j).1
  }

  function UnpackedPair(freq: seq<real>, n: nat, super: seq<Cpx>, k: nat): (Cpx, Cpx)
    requires |freq| == 2 * n && |super| == n && 0 < k < n
  {
    InversePair(Cpx(freq[2 * k - 1], freq[2 * k]), Cpx(freq[2 * (n - k) - 1], -freq[2 * (n - k)]), super[k])
  }

  // From the packed spectrum of t it is twice the half-length spectrum of t.
  lemma UnpackedIsTwice(freq: seq<real>, t: seq<Cpx>, z: seq<Cpx>, st: RealConfig, tw2: seq<Cpx>, j: nat)
    requires ValidReal(st, tw2) && st.substate.inverse && |t| == st.substate.nfft && j < |t|
    requires IsPacked(freq, t, Conjugates(tw2)) && IsDft(z, t, Conjugates(st.substate.twiddles))
    ensures UnpackedAt(freq, |t|, st.superTwiddles, j) == Times(2, z[j])
  {
    var n := |t|;
    if j == 0 {
      UnpackedZero(freq, t, z, st, tw2);
    } else {
      UnpackedLater(freq, t, z, st, tw2, j);
    }
  }

  lemma UnpackedLater(freq: seq<real>, t: seq<Cpx>, z: seq<Cpx>, st: RealConfig, tw2: seq<Cpx>, j: nat)
    requires ValidReal(st, tw2) && st.substate.inverse && |t| == st.substate.nfft && 0 < j < |t|
    requires IsPacked(freq, t, Conjugates(tw2)) && IsDft(z, t, Conjugates(st.substate.twiddles))
    ensures UnpackedAt(freq, |t|, st.superTwiddles, j) == Times(2, z[j])
  {
    var n := |t|;
    var k := if 2 * j < n then j else n - j;
    UnpackedPairIsTwice(freq, t, z, st, tw2, k);
    UnpackedFromPair(freq, n, st.superTwiddles, j, k, Times(2, z[k]), Times(2, z[n - k]));
  }

  lemma UnpackedFromPair(freq: seq<real>, n: nat, super: seq<Cpx>, j: nat, k: nat, lo: Cpx, hi: Cpx)
    requires |freq| == 2 * n && |super| == n && 0 < j < n && k == if 2 * j < n then j else n - j
    requires UnpackedPair(freq, n, super, k) == (lo, hi)
    ensures UnpackedAt(freq, n, super, j) == if 2 * j < n then lo else hi
  {
  }

  lemma UnpackedZero(freq: seq<real>, t: seq<Cpx>, z: seq<Cpx>, st: RealConfig, tw2: seq<Cpx>)
    requires ValidReal(st, tw2) && st.substate.inverse && |t| == st.substate.nfft
    requires IsPacked(freq, t, Conjugates(tw2)) && IsDft(z, t, Conjugates(st.substate.twiddles))
    ensures UnpackedAt(freq, |t|, st.superTwiddles, 0) == Times(2, z[0])
  {
    var c, c2 := Conjugates(st.substate.twiddles), Conjugates(tw2);
    ConjugatesAre(tw2, true);
    HalfConjugates(st.substate.twiddles, tw2);
    PackedEdges(freq, t, z, c, c2);
    assert freq[0] == z[0].r + z[0].i && freq[2 * |t| - 1] == z[0].r - z[0].i;
  }

  lemma PackedEdges(freq: seq<real>, t: seq<Cpx>, z: seq<Cpx>, c: seq<Cpx>, c2: seq<Cpx>)
    requires IsTwiddles(c2, false) && |c| == |t| > 0 && IsHalfTable(c, c2)
    requires IsPacked(freq, t, c2) && IsDft(z, t, c)
    ensures freq[0] == z[0].r + z[0].i && freq[2 * |t| - 1] == z[0].r - z[0].i
  {
    assert Unfold(0) && Unfold(|t|);
    EdgeBins(t, c, c2, false);
    assert z[0] == Dft(t, c, 0);
  }

  lemma PackedPair(freq: seq<real>, t: seq<Cpx>, c2: seq<Cpx>, k: nat)
    requires |c2| > 0 && IsPacked(freq, t, c2) && 0 < k < |t|
    ensures 0 < 2 * k < |freq| && 0 < 2 * (|t| - k) < |freq|
    ensures Cpx(freq[2 * k - 1], freq[2 * k]) == Bin(t, c2, k)
    ensures Cpx(freq[2 * (|t| - k) - 1], -freq[2 * (|t| - k)]) == Conj(Bin(t, c2, |t| - k))
  {
    assert Unfold(k) && Unfold(|t| - k);
  }

  lemma SuperTwiddle(st: RealConfig, tw2: seq<Cpx>, k: nat)
    requires ValidReal(st, tw2) && st.substate.inverse && k < st.substate.nfft
    ensures st.superTwiddles[k] == Mul(Conj(Conjugates(tw2)[k]), I)
  {
    assert Conj(Conj(tw2[k])) == tw2[k];
  }

  lemma HalfConjugates(tw: seq<Cpx>, tw2: seq<Cpx>)
    requires IsHalfTable(tw, tw2)
    ensures IsHalfTable(Conjugates(tw), Conjugates(tw2))
  {
  }

  lemma UnpackedPairIsTwice(freq: seq<real>, t: seq<Cpx>, z: seq<Cpx>, st: RealConfig, tw2: seq<Cpx>, k: nat)
    requires ValidReal(st, tw2) && st.substate.inverse && |t| == st.substate.nfft && 0 < k < |t|
    requires IsPacked(freq, t, Conjugates(tw2)) && IsDft(z, t, Conjugates(st.substate.twiddles))
    ensures UnpackedPair(freq, |t|, st.superTwiddles, k) == (Times(2, z[k]), Times(2, z[|t| - k]))
  {
    var c, c2 := Conjugates(st.substate.twiddles), Conjugates(tw2);
    ConjugatesAre(tw2, true);
    HalfConjugates(st.substate.twiddles, tw2);
    PackedPair(freq, t, c2, k);
    SuperTwiddle(st, tw2, k);
    UnitModulus(c2, false, k);
    RebuiltPair(freq, t, c, c2, st.superTwiddles, k);
    assert z[k] == Dft(t, c, k) && z[|t| - k] == Dft(t, c, |t| - k);
  }

  lemma RebuiltPair(freq: seq<real>, t: seq<Cpx>, c: seq<Cpx>, c2: seq<Cpx>, super: seq<Cpx>, k: nat)
    requires IsTwiddles(c2, false) && |c| == |t| == |super| && IsHalfTable(c, c2) && 0 < k < |t| && |freq| == 2 * |t|
    requires Cpx(freq[2 * k - 1], freq[2 * k]) == Bin(t, c2, k)
    requires Cpx(freq[2 * (|t| - k) - 1], -freq[2 * (|t| - k)]) == Conj(Bin(t, c2, |t| - k))
    requires super[k] == Mul(Conj(c2[k]), I) && Mul(c2[k], Conj(c2[k])) == ONE
    ensures UnpackedPair(freq, |t|, super, k) == (Times(2, Dft(t, c, k)), Times(2, Dft(t, c, |t| - k)))
  {
    BinsFromParts(t, c, c2, false, k);
    var e, o, w := Part(t, 0, c2, k), Part(t, 1, c2, k), c2[k];
    InversePairIs(e, o, w);
    assert Conj(Conj(Sub(e, Mul(o, w)))) == Sub(e, Mul(o, w));
  }

  lemma UnitModulus(tw: seq<Cpx>, inverse: bool, k: nat)
    requires IsTwiddles(tw, inverse) && k < |tw|
    ensures Mul(tw[k], Conj(tw[k])) == ONE
  {
    WDirect(tw, k);
    WConj(tw, inverse, k);
    WCombine(tw, inverse, k, 0 - k, 0, 0);
    WFull(tw, inverse);
  }

  // Rebuilding, then the inverse half-length transform, gives 2n times the samples.
  lemma InverseOfPacked(freq: seq<real>, t: seq<Cpx>, buf: seq<Cpx>, out: seq<Cpx>, st: RealConfig, tw2: seq<Cpx>)
    requires ValidReal(st, tw2) && st.substate.inverse && |t| == |buf| == st.substate.nfft
    requires IsPacked(freq, t, Conjugates(tw2))
    requires forall j: nat :: j < |t| ==> buf[j] == UnpackedAt(freq, |t|, st.superTwiddles, j)
    requires IsDft(out, buf, st.substate.twiddles)
    ensures out == Scaled(2 * |t|, t)
  {
    var n, tw, c := |t|, st.substate.twiddles, Conjugates(st.substate.twiddles);
    ConjugatesAre(tw, true);
    var z := seq(n, k => Dft(t, c, k));
    assert IsDft(z, t, c);
    forall j: nat | j < n ensures buf[j] == Times(2, z[j]) { UnpackedIsTwice(freq, t, z, st, tw2, j); }
    forall j | 0 <= j < n ensures out[j] == Times(2 * n, t[j]) {
      DftOfTwice(buf, z, tw, j);
      DftInverts(t, z, c, tw, false, j);
      TimesTimes(n, t[j]);
    }
  }

  ghost function Scaled(n: nat, t: seq<Cpx>): (u: seq<Cpx>)
    ensures |u| == |t|
  {
    seq(|t|, j requires 0 <= j < |t| => Times(n, t[j]))
  }

  lemma TimesTimes(n: nat, a: Cpx)
    ensures Times(2, Times(n, a)) == Times(2 * n, a)
  {
  }

  lemma DftOfTwice(buf: seq<Cpx>, z: seq<Cpx>, tw: seq<Cpx>, j: int)
    requires |tw| > 0 && |buf| == |z| && forall k: nat :: k < |z| ==> buf[k] == Times(2, z[k])
    ensures Dft(buf, tw, j) == Times(2, Dft(z, tw, j))
  {
    var f, g, two := DftTerm(z, 0, 1, tw, j), DftTerm(buf, 0, 1, tw, j), Cpx(2.0, 0.0);
    forall k | 0 <= k < |z| ensures g(k) == Mul(f(k), two) {
      TwiceTerm(buf, z, tw, j, k);
    }
    SumMul(two, f, g, |z|);
  }

  lemma TwiceTerm(buf: seq<Cpx>, z: seq<Cpx>, tw: seq<Cpx>, j: int, k: nat)
    requires |tw| > 0 && k < |buf| == |z| && buf[k] == Times(2, z[k])
    ensures DftTerm(buf, 0, 1, tw, j)(k) == Mul(DftTerm(z, 0, 1, tw, j)(k), Cpx(2.0, 0.0))
  {
    PlainTerm(buf, tw, j, k);
    PlainTerm(z, tw, j, k);
    TwiceMul(buf[k], z[k], W(tw, k * j));
  }

  // kiss_fftri2; timedata is the array of 2n samples viewed as n pairs, as the source casts it.
  // A false result is speex_fatal, which ends the process.
  method Fftri2(st: RealConfig, freqdata: array<real>, tmpbuf: array<Cpx>, timedata: array<Cpx>, ghost tw2: seq<Cpx>)
                returns (ok: bool)
    requires ValidReal(st, tw2) && timedata != tmpbuf
    requires timedata.Length == tmpbuf.Length == st.substate.nfft && freqdata.Length == 2 * st.substate.nfft
    modifies tmpbuf, timedata
    ensures ok == (st.substate.inverse && Smooth(st.substate.nfft))
    ensures ok ==> forall t: seq<Cpx> :: |t| == st.substate.nfft && IsPacked(freqdata[..], t, Conjugates(tw2)) ==>
              timedata[..] == Scaled(2 * st.substate.nfft, t)
  {
    if !st.substate.inverse {
      return false;
    }
    UnpackBins(st, freqdata, tmpbuf);
    ghost var buf := tmpbuf[..];
    ok := Transform(st.substate, tmpbuf, timedata);
    if ok {
      forall t: seq<Cpx> | |t| == st.substate.nfft && IsPacked(freqdata[..], t, Conjugates(tw2))
        ensures timedata[..] == Scaled(2 * st.substate.nfft, t)
      {
        InverseOfPacked(freqdata[..], t, buf, timedata[..], st, tw2);
      }
    }
  }

  // Its loop, two mirrored positions per step; position n/2 is written twice.
  method UnpackBins(st: RealConfig, freqdata: array<real>, tmpbuf: array<Cpx>)
    requires 0 < tmpbuf.Length == st.substate.nfft == |st.superTwiddles| && freqdata.Length == 2 * tmpbuf.Length
    modifies tmpbuf
    ensures forall j: nat :: j < tmpbuf.Length ==>
              tmpbuf[j] == UnpackedAt(freqdata[..], tmpbuf.Length, st.superTwiddles, j)
  {
    var ncfft := st.substate.nfft;
    ghost var freq, super := freqdata[..], st.superTwiddles;
    tmpbuf[0] := Cpx(freqdata[0] + freqdata[2 * ncfft - 1], freqdata[0] - freqdata[2 * ncfft - 1]);
    for k := 1 to ncfft / 2 + 1
      invariant UnpackedUpTo(tmpbuf[..], freq, ncfft, super, k)
    {
      ghost var before := tmpbuf[..];
      var fk := Cpx(freqdata[2 * k - 1], freqdata[2 * k]);
      var fnkc := Cpx(freqdata[2 * (ncfft - k) - 1], -freqdata[2 * (ncfft - k)]);
      var (lo, hi) := InversePair(fk, fnkc, st.superTwiddles[k]);
      tmpbuf[k] := lo;
      tmpbuf[ncfft - k] := hi;
      UnpackedStep(before, tmpbuf[..], freq, ncfft, super, k, lo, hi);
    }
  }

  ghost predicate UnpackedUpTo(buf: seq<Cpx>, freq: seq<real>, n: nat, super: seq<Cpx>, k: nat) {
    && |freq| == 2 * n > 0 && |super| == |buf| == n && buf[0] == UnpackedAt(freq, n, super, 0)
    && (forall j :: 1 <= j < k && 2 * j < n ==> buf[j] == UnpackedAt(freq, n, super, j))
    && (forall j :: n - k < j < n && 1 <= j && 2 * j >= n ==> buf[j] == UnpackedAt(freq, n, super, j))
  }

  lemma UnpackedStep(before: seq<Cpx>, after: seq<Cpx>, freq: seq<real>, n: nat, super: seq<Cpx>, k: nat, lo: Cpx,
                     hi: Cpx)
    requires 1 <= k <= n / 2 && UnpackedUpTo(before, freq, n, super, k)
    requires (lo, hi) == UnpackedPair(freq, n, super, k) && after == before[k := lo][n - k := hi]
    ensures UnpackedUpTo(after, freq, n, super, k + 1)
  {
  }

  // kiss_fftri2 after kiss_fftr2 multiplies every sample by the even length 2n.
  method RoundTrip(fwd: RealConfig, inv: RealConfig, timedata: array<Cpx>, tmpbuf: array<Cpx>, freqdata: array<real>,
                   ghost tw2: seq<Cpx>) returns (ok: bool)
    requires ValidReal(fwd, tw2) && ValidReal(inv, Conjugates(tw2)) && timedata != tmpbuf
    requires !fwd.substate.inverse && inv.substate.inverse && fwd.substate.nfft == inv.substate.nfft
    requires timedata.Length == tmpbuf.Length == fwd.substate.nfft && freqdata.Length == 2 * fwd.substate.nfft
    modifies tmpbuf, freqdata, timedata
    ensures ok == Smooth(fwd.substate.nfft)
    ensures ok ==> IsPacked(freqdata[..], old(timedata[..]), tw2)
    ensures ok ==> timedata[..] == Scaled(2 * timedata.Length, old(timedata[..]))
  {
    ok := Fftr2(fwd, timedata, tmpbuf, freqdata, tw2);
    if ok {
      DoubleConjugate(tw2);
      ok := Fftri2(inv, freqdata, tmpbuf, timedata, Conjugates(tw2));
    }
  }

  lemma DoubleConjugate(tw: seq<Cpx>)
    ensures Conjugates(Conjugates(tw)) == tw
  {
  }
}
