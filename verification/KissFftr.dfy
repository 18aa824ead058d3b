/** kiss_fftr.c: the real transform through a complex transform of half the length. */
module KissFftr {
  import opened Arith
  import opened Complex
  import opened Twiddles
  import opened FftSpec
  import opened Butterflies
  import opened KissSmooth
  import opened KissFftMain
  import opened RealDft
  import opened DftInverse

  datatype RealConfig = RealConfig(substate: Config, superTwiddles: seq<Cpx>)

  // kiss_fftr_alloc: the complex configuration takes every other power of the 2n-th root, and the
  // super-twiddles are its first n powers turned by a quarter.
  ghost predicate ValidReal(st: RealConfig, tw2: seq<Cpx>) {
    && Valid(st.substate)
    && IsTwiddles(tw2, st.substate.inverse) && IsHalfTable(st.substate.twiddles, tw2)
    && |st.superTwiddles| == st.substate.nfft
    && forall k {:trigger st.superTwiddles[k]} :: 0 <= k < st.substate.nfft ==>
         st.superTwiddles[k] == Mul(tw2[k], if st.substate.inverse then I else Neg(I))
  }

  // Bin k of the DFT of the real samples stored pairwise in t.
  ghost function Bin(t: seq<Cpx>, tw2: seq<Cpx>, k: int): Cpx
    requires |tw2| > 0
  {
    Dft(Unpair(t), tw2, k)
  }

  // The packed half-complex form of a spectrum: DC, then real and imaginary parts, then the Nyquist bin.
  ghost predicate IsPackedForm(freq: seq<real>, n: nat, spectrum: int -> Cpx) {
    && |freq| == 2 * n > 0
    && freq[0] == spectrum(0).r && freq[2 * n - 1] == spectrum(n).r
    && forall k :: 1 <= k < n ==> HasBin(freq, spectrum, k)
  }

  ghost predicate HasBin(freq: seq<real>, spectrum: int -> Cpx, k: int) {
    1 <= k && 2 * k < |freq| && freq[2 * k - 1] == spectrum(k).r && freq[2 * k] == spectrum(k).i
  }

  ghost predicate IsSpectrum(spectrum: int -> Cpx, t: seq<Cpx>, tw2: seq<Cpx>)
    requires |tw2| > 0
  {
    forall k {:trigger Unfold(k)} :: Unfold(k) ==> spectrum(k) == Bin(t, tw2, k)
  }

  // freq is the packed spectrum of the real samples stored pairwise in t.
  ghost predicate IsPacked(freq: seq<real>, t: seq<Cpx>, tw2: seq<Cpx>)
    requires |tw2| > 0
  {
    && |freq| == 2 * |t| > 0
    && forall k {:trigger Unfold(k)} :: 0 <= k <= |t| && Unfold(k) ==> PacksBin(freq, k, Bin(t, tw2, k))
  }

  ghost predicate PacksBin(freq: seq<real>, k: nat, bin: Cpx)
    requires 2 * k <= |freq| && |freq| > 0
  {
    if k == 0 then freq[0] == bin.r
    else if 2 * k == |freq| then freq[2 * k - 1] == bin.r
    else freq[2 * k - 1] == bin.r && freq[2 * k] == bin.i
  }

  // The sum of all samples, and their sum with changing signs.
  ghost function Plain(t: seq<Cpx>, n: nat): real
    requires n <= |t|
  {
    if n == 0 then 0.0 else Plain(t, n - 1) + t[n - 1].r + t[n - 1].i
  }

  // What stands where: the first entry is the sum of the samples, entries 2k-1 and 2k are the real and
  // the imaginary part of bin k, and the last entry is the real part of the bin in the middle.
  lemma PackedEntries(freq: seq<real>, t: seq<Cpx>, tw2: seq<Cpx>, inverse: bool)
    requires IsTwiddles(tw2, inverse) && |tw2| == 2 * |t| && IsPacked(freq, t, tw2)
    ensures freq[0] == Plain(t, |t|)
    ensures forall k :: 1 <= k < |t| ==>
      freq[2 * k - 1] == Dft(Unpair(t), tw2, k).r && freq[2 * k] == Dft(Unpair(t), tw2, k).i
    ensures freq[2 * |t| - 1] == Dft(Unpair(t), tw2, |t|).r
  {
    hide IsTwiddles, Dft;
    NotEmpty(tw2, inverse);
    DcIsPlain(t, tw2, inverse);
    BinIsPacked(freq, t, tw2, 0);
    BinIsPacked(freq, t, tw2, |t|);
    forall k | 1 <= k < |t|
      ensures freq[2 * k - 1] == Dft(Unpair(t), tw2, k).r && freq[2 * k] == Dft(Unpair(t), tw2, k).i
    {
      BinIsPacked(freq, t, tw2, k);
    }
  }

  lemma BinIsPacked(freq: seq<real>, t: seq<Cpx>, tw2: seq<Cpx>, k: nat)
    requires |tw2| > 0 && IsPacked(freq, t, tw2) && k <= |t|
    ensures |freq| == 2 * |t| > 0 && PacksBin(freq, k, Dft(Unpair(t), tw2, k))
  {
    hide Dft, PacksBin;
    assert Unfold(k);
  }

  lemma DcIsPlain(t: seq<Cpx>, tw2: seq<Cpx>, inverse: bool)
    requires IsTwiddles(tw2, inverse) && |tw2| == 2 * |t| > 0
    ensures Dft(Unpair(t), tw2, 0).r == Plain(t, |t|)
  {
    hide IsTwiddles;
    var f := DftTerm(Unpair(t), 0, 1, tw2, 0);
    forall j: nat | j < 2 * |t| ensures f(j).r == RealAt(t, j) {
      DcTerm(t, tw2, inverse, j);
    }
    PlainSum(f, t, |t|);
  }

  function RealAt(t: seq<Cpx>, j: nat): real
    requires j < 2 * |t|
  {
    if j % 2 == 0 then t[j / 2].r else t[j / 2].i
  }

  lemma {:induction false} PlainSum(f: int -> Cpx, t: seq<Cpx>, n: nat)
    requires n <= |t| && forall j: nat :: j < 2 * |t| ==> f(j).r == RealAt(t, j)
    ensures Sum(f, 2 * n).r == Plain(t, n)
  {
    if n > 0 {
      PlainSum(f, t, n - 1);
      SumTwo(f, 2 * n - 2);
      assert f(2 * n - 2).r == RealAt(t, 2 * n - 2) && f(2 * n - 1).r == RealAt(t, 2 * n - 1);
    }
  }

  lemma SumTwo(f: int -> Cpx, n: nat)
    ensures Sum(f, n + 2).r == Sum(f, n).r + f(n).r + f(n + 1).r
  {
    assert Sum(f, n + 1) == Add(Sum(f, n), f(n));
  }

  // The factor of every sample in bin 0 is one.
  lemma DcTerm(t: seq<Cpx>, tw2: seq<Cpx>, inverse: bool, j: nat)
    requires IsTwiddles(tw2, inverse) && |tw2| == 2 * |t| && j < 2 * |t|
    ensures DftTerm(Unpair(t), 0, 1, tw2, 0)(j).r == RealAt(t, j)
  {
    WFull(tw2, inverse);
    hide IsTwiddles, W;
    assert 1 * j * 0 == 0 && 0 + 1 * j == j;
  }

  lemma MakeSpectrum(t: seq<Cpx>, tw2: seq<Cpx>) returns (spectrum: int -> Cpx)
    requires |tw2| > 0
    ensures IsSpectrum(spectrum, t, tw2)
  {
    spectrum := (k: int) => Bin(t, tw2, k);
  }

  lemma FormIsPacked(freq: seq<real>, t: seq<Cpx>, tw2: seq<Cpx>, spectrum: int -> Cpx)
    requires |tw2| > 0 && IsPackedForm(freq, |t|, spectrum) && IsSpectrum(spectrum, t, tw2)
    ensures IsPacked(freq, t, tw2)
  {
    forall k | 0 <= k <= |t| ensures PacksBin(freq, k, Bin(t, tw2, k)) {
      assert Unfold(k);
      if 1 <= k < |t| { assert HasBin(freq, spectrum, k); }
    }
  }

  // The parts at bin 0 are real.
  lemma PartReal(t: seq<Cpx>, off: nat, tw2: seq<Cpx>, inverse: bool)
    requires IsTwiddles(tw2, inverse) && |tw2| == 2 * |t|
    ensures Part(t, off, tw2, 0).i == 0.0
  {
    var f := DftTerm(Unpair(t), off, 2, tw2, 0);
    forall j | 0 <= j < |t| ensures f(j) == Conj(f(j)) {
      assert 2 * j * 0 == 0;
      WFull(tw2, inverse);
    }
    SumConj(f, f, |t|);
  }

  lemma EdgeBins(t: seq<Cpx>, tw: seq<Cpx>, tw2: seq<Cpx>, inverse: bool)
    requires IsTwiddles(tw2, inverse) && |tw| == |t| > 0 && IsHalfTable(tw, tw2)
    ensures Bin(t, tw2, 0).r == Dft(t, tw, 0).r + Dft(t, tw, 0).i
    ensures Bin(t, tw2, |t|).r == Dft(t, tw, 0).r - Dft(t, tw, 0).i
  {
    PairedDft(t, tw, tw2, 0);
    LongDft(t, tw2, inverse, 0, 0, 0);
    LongDft(t, tw2, inverse, 1, 0, |t|);
    WFull(tw2, inverse);
    WHalf(tw2, inverse, |t|);
    PartReal(t, 0, tw2, inverse);
    PartReal(t, 1, tw2, inverse);
  }

  // Bins k and n-k of the half-length transform and of the long one, from the same two parts.
  lemma BinsFromParts(t: seq<Cpx>, tw: seq<Cpx>, tw2: seq<Cpx>, inverse: bool, k: nat)
    requires IsTwiddles(tw2, inverse) && |tw| == |t| && IsHalfTable(tw, tw2) && 0 < k < |t|
    ensures var e, o, w := Part(t, 0, tw2, k), Part(t, 1, tw2, k), tw2[k];
            && Dft(t, tw, k) == Add(e, Mul(o, I))
            && Dft(t, tw, |t| - k) == Add(Conj(e), Mul(Conj(o), I))
            && Bin(t, tw2, k) == Add(e, Mul(o, w))
            && Bin(t, tw2, |t| - k) == Conj(Sub(e, Mul(o, w)))
  {
    var n := |t|;
    PairedDft(t, tw, tw2, k);
    PairedDft(t, tw, tw2, n - k);
    LongDft(t, tw2, inverse, 0, k, k);
    LongDft(t, tw2, inverse, 0, n - k, n - k);
    PartSymmetric(t, 0, tw2, inverse, k);
    PartSymmetric(t, 1, tw2, inverse, k);
    MirrorTwiddle(tw2, inverse, n, k);
    MirrorBin(Part(t, 0, tw2, k), Part(t, 1, tw2, k), tw2[k]);
  }

  lemma MirrorTwiddle(tw2: seq<Cpx>, inverse: bool, n: nat, k: nat)
    requires IsTwiddles(tw2, inverse) && |tw2| == 2 * n && 0 < k < n
    ensures W(tw2, k) == tw2[k] && W(tw2, n - k) == Neg(Conj(tw2[k]))
  {
    WDirect(tw2, k);
    WConj(tw2, inverse, k);
    HalfTurn(tw2, inverse, n, 0 - k, n - k);
  }

  lemma HalfTurn(tw2: seq<Cpx>, inverse: bool, n: nat, a: int, c: int)
    requires IsTwiddles(tw2, inverse) && |tw2| == 2 * n && c == n + a
    ensures W(tw2, c) == Neg(W(tw2, a))
  {
    assert |tw2| > 0;
    hide *;
    assert W(tw2, n) == Neg(ONE) by { WHalf(tw2, inverse, n); }
    assert Mul(W(tw2, n), W(tw2, a)) == W(tw2, c) by { WCombine(tw2, inverse, n, a, 0, c); }
    MinusOneTimes(W(tw2, a));
  }

  lemma MinusOneTimes(x: Cpx)
    ensures Mul(Neg(ONE), x) == Neg(x)
  {
  }

  lemma MirrorBin(e: Cpx, o: Cpx, w: Cpx)
    ensures Add(Conj(e), Mul(Conj(o), Neg(Conj(w)))) == Conj(Sub(e, Mul(o, w)))
  {
  }

  lemma Twice(z: real, x: real, c: real)
    requires z == 2.0 * x
    ensures z * c == 2.0 * (x * c)
  {
  }

  // What kiss_fftr2 computes for bins k and n-k from the half-length bins p and q at k and n-k.
  function ForwardPair(p: Cpx, q: Cpx, s: Cpx): (Cpx, Cpx) {
    var f2kr, f2ki := p.r - q.r, p.i + q.i;
    var f1kr, f1ki := p.r + q.r, p.i - q.i;
    var twr, twi := f2kr * s.r - f2ki * s.i, f2ki * s.r + f2kr * s.i;
    (Cpx(0.5 * (f1kr + twr), 0.5 * (f1ki + twi)), Cpx(0.5 * (f1kr - twr), 0.5 * (twi - f1ki)))
  }

  lemma ForwardPairIs(e: Cpx, o: Cpx, w: Cpx)
    ensures ForwardPair(Add(e, Mul(o, I)), Add(Conj(e), Mul(Conj(o), I)), Mul(w, Neg(I)))
         == (Add(e, Mul(o, w)), Conj(Sub(e, Mul(o, w))))
  {
    var p, q, s, ow := Add(e, Mul(o, I)), Add(Conj(e), Mul(Conj(o), I)), Mul(w, Neg(I)), Mul(o, w);
    assert p == Cpx(e.r - o.i, e.i + o.r) && q == Cpx(e.r + o.i, o.r - e.i) && s == Cpx(w.i, -w.r);
    var twr, twi := (p.r - q.r) * s.r - (p.i + q.i) * s.i, (p.i + q.i) * s.r + (p.r - q.r) * s.i;
    NegatedProducts(p.r - q.r, p.i + q.i, s.r, s.i, o, w);
    assert twr == 2.0 * ow.r && twi == 2.0 * ow.i;
    assert ForwardPair(p, q, s).0 == Cpx(0.5 * (p.r + q.r + twr), 0.5 * (p.i - q.i + twi));
    assert ForwardPair(p, q, s).1 == Cpx(0.5 * (p.r + q.r - twr), 0.5 * (twi - (p.i - q.i)));
  }

  lemma NegatedProducts(fr: real, fi: real, sr: real, si: real, o: Cpx, w: Cpx)
    requires sr == w.i && si == -w.r && fr == -2.0 * o.i && fi == 2.0 * o.r
    ensures fr * sr - fi * si == 2.0 * Mul(o, w).r && fi * sr + fr * si == 2.0 * Mul(o, w).i
  {
  }

  // kiss_fftr2; timedata is the array of 2n samples viewed as n pairs, as the source casts it.
  // A false result is speex_fatal, which ends the process.
  method Fftr2(st: RealConfig, timedata: array<Cpx>, tmpbuf: array<Cpx>, freqdata: array<real>, ghost tw2: seq<Cpx>)
               returns (ok: bool)
    requires ValidReal(st, tw2) && timedata != tmpbuf
    requires timedata.Length == tmpbuf.Length == st.substate.nfft && freqdata.Length == 2 * st.substate.nfft
    modifies tmpbuf, freqdata
    ensures ok == (!st.substate.inverse && Smooth(st.substate.nfft))
    ensures ok ==> IsPacked(freqdata[..], timedata[..], tw2)
  {
    if st.substate.inverse {
      return false;
    }
    var ncfft := st.substate.nfft;
    ok := Transform(st.substate, timedata, tmpbuf);
    if !ok {
      return;
    }
    ghost var t, z := timedata[..], tmpbuf[..];
    ghost var spectrum := MakeSpectrum(t, tw2);
    var tdc := tmpbuf[0];
    freqdata[0] := tdc.r + tdc.i;
    freqdata[2 * ncfft - 1] := tdc.r - tdc.i;
    EdgeSpectrum(t, z, st, tw2, spectrum);
    PackBins(st, tmpbuf, freqdata, tw2, t, spectrum);
    FormIsPacked(freqdata[..], t, tw2, spectrum);
  }

  // Its loop, two mirrored bins per step.
  method PackBins(st: RealConfig, tmpbuf: array<Cpx>, freqdata: array<real>,
                  ghost tw2: seq<Cpx>, ghost t: seq<Cpx>, ghost spectrum: int -> Cpx)
    requires ValidReal(st, tw2) && !st.substate.inverse && |t| == tmpbuf.Length == st.substate.nfft
    requires freqdata.Length == 2 * tmpbuf.Length
    requires IsDft(tmpbuf[..], t, st.substate.twiddles) && IsSpectrum(spectrum, t, tw2)
    requires freqdata[0] == spectrum(0).r && freqdata[2 * |t| - 1] == spectrum(|t|).r
    modifies freqdata
    ensures IsPackedForm(freqdata[..], |t|, spectrum)
  {
    var ncfft := st.substate.nfft;
    ghost var z := tmpbuf[..];
    var k := 1;
    while k <= ncfft / 2
      invariant 1 <= k <= ncfft / 2 + 1 && tmpbuf[..] == z
      invariant freqdata[0] == spectrum(0).r && freqdata[2 * ncfft - 1] == spectrum(ncfft).r
      invariant PackedUpTo(freqdata[..], ncfft, spectrum, k)
    {
      ghost var before := freqdata[..];
      var (lo, hi) := ForwardPair(tmpbuf[k], tmpbuf[ncfft - k], st.superTwiddles[k]);
      ForwardBins(t, z, st, tw2, spectrum, k);
      freqdata[2 * k - 1] := lo.r;
      freqdata[2 * k] := lo.i;
      freqdata[2 * (ncfft - k) - 1] := hi.r;
      freqdata[2 * (ncfft - k)] := hi.i;
      PackedStep(before, freqdata[..], ncfft, spectrum, k);
      k := k + 1;
    }
  }

  // Bins 1 to k-1 and their mirror images are packed.
  ghost predicate PackedUpTo(freq: seq<real>, n: nat, spectrum: int -> Cpx, k: nat) {
    && |freq| == 2 * n
    && (forall j :: 1 <= j < k && j < n ==> HasBin(freq, spectrum, j))
    && (forall j :: n - k < j < n && 1 <= j ==> HasBin(freq, spectrum, j))
  }

  lemma PackedStep(before: seq<real>, after: seq<real>, n: nat, spectrum: int -> Cpx, k: nat)
    requires 1 <= k <= n / 2 && PackedUpTo(before, n, spectrum, k)
    requires var lo, hi := spectrum(k), spectrum(n - k);
             after == before[2 * k - 1 := lo.r][2 * k := lo.i][2 * (n - k) - 1 := hi.r][2 * (n - k) := hi.i]
    ensures PackedUpTo(after, n, spectrum, k + 1)
  {
    forall j | 1 <= j < n && (j < k + 1 || n - (k + 1) < j) ensures HasBin(after, spectrum, j) {
      if j != k && j != n - k { assert HasBin(before, spectrum, j); }
    }
  }

  lemma EdgeSpectrum(t: seq<Cpx>, z: seq<Cpx>, st: RealConfig, tw2: seq<Cpx>, spectrum: int -> Cpx)
    requires ValidReal(st, tw2) && |t| == st.substate.nfft
    requires IsDft(z, t, st.substate.twiddles) && IsSpectrum(spectrum, t, tw2)
    ensures spectrum(0).r == z[0].r + z[0].i && spectrum(|t|).r == z[0].r - z[0].i
  {
    EdgeBins(t, st.substate.twiddles, tw2, st.substate.inverse);
    assert Unfold(0) && Unfold(|t|);
  }

  lemma ForwardBins(t: seq<Cpx>, z: seq<Cpx>, st: RealConfig, tw2: seq<Cpx>, spectrum: int -> Cpx, k: nat)
    requires ValidReal(st, tw2) && !st.substate.inverse && |t| == st.substate.nfft
    requires IsDft(z, t, st.substate.twiddles) && 0 < k < |t| && IsSpectrum(spectrum, t, tw2)
    ensures ForwardPair(z[k], z[|t| - k], st.superTwiddles[k]) == (spectrum(k), spectrum(|t| - k))
  {
    assert Unfold(k) && Unfold(|t| - k);
    BinsFromParts(t, st.substate.twiddles, tw2, false, k);
    ForwardPairIs(Part(t, 0, tw2, k), Part(t, 1, tw2, k), tw2[k]);
  }
}
