/** The complete transform of kiss_fft.c: configuration, shuffle and stages, equal to the DFT sum. */
module KissFftMain {
  import opened Arith
  import opened Complex
  import opened Twiddles
  import opened FftSpec
  import opened Butterflies
  import opened KissFft
  import opened KissFactor
  import opened KissSmooth
  import opened KissShuffle

  datatype Config = Config(nfft: nat, inverse: bool, factors: seq<Factor>, twiddles: seq<Cpx>)

  ghost predicate Valid(st: Config) {
    && |st.twiddles| == st.nfft && IsTwiddles(st.twiddles, st.inverse)
    && Chain(st.nfft, st.factors)
    && (RadicesFit(st.factors) <==> Smooth(st.nfft))
  }

  // kiss_fft_alloc, the values of cos and sin being given as the table.
  method Alloc(nfft: nat, inverse: bool, twiddles: seq<Cpx>) returns (st: Config)
    requires nfft > 0 && |twiddles| == nfft && IsTwiddles(twiddles, inverse)
    ensures Valid(st) && st.nfft == nfft && st.inverse == inverse && st.twiddles == twiddles
    ensures nfft > 1 ==> Power2(|st.factors|) <= nfft
  {
    var factors := KfFactor(nfft);
    FitsIffSmooth(nfft, factors);
    st := Config(nfft, inverse, factors, twiddles);
  }

  // The nfft input samples that a transform with this stride reads.
  ghost function Strided(f: seq<Cpx>, n: nat, in_stride: nat): (x: seq<Cpx>)
    ensures |x| == n
  {
    seq(n, i => At(f, i * in_stride))
  }

  // out is the DFT of x.
  ghost predicate IsDft(out: seq<Cpx>, x: seq<Cpx>, tw: seq<Cpx>)
    requires |tw| > 0
  {
    |out| == |x| && forall k :: 0 <= k < |x| ==> out[k] == Dft(x, tw, k)
  }

  lemma StridedInput(f: seq<Cpx>, n: nat, in_stride: nat)
    requires n > 0 && (n - 1) * in_stride < |f|
    ensures IsInput(Strided(f, n, in_stride), f, in_stride)
  {
    var x := Strided(f, n, in_stride);
    forall i: nat | i < n ensures Sample(x, f, in_stride, i) {
      MulLe(i, n - 1, in_stride);
      MulLe(0, i, in_stride);
    }
  }

  lemma ShuffledThenTransformed(out: seq<Cpx>, mid: seq<Cpx>, x: seq<Cpx>, st: Config)
    requires Valid(st) && |x| == |out| == |mid| == st.nfft
    requires Shuffled(mid, 0, st.nfft, x, st.factors, 0, 1)
    requires Transformed(out, mid, st.nfft, st.factors, 1, st.twiddles)
    ensures IsDft(out, x, st.twiddles)
  {
    forall k | 0 <= k < |x| ensures out[k] == Dft(x, st.twiddles, k) {
      DivModUnique(k, 0, k, st.nfft);
      assert out[k] == DepthFirst(mid, 0, st.factors, 1, st.twiddles, k);
      DepthFirstIsDft(mid, 0, st.nfft, x, st.factors, st.twiddles, st.inverse, 0, 1, k);
    }
  }

  // kiss_fft_stride. A false result is speex_fatal, which ends the process: the transform is in place,
  // or its length has a radix that overflows the scratch buffer of the generic butterfly.
  method KissFftStride(st: Config, fin: array<Cpx>, fout: array<Cpx>, in_stride: nat) returns (ok: bool)
    requires Valid(st) && fout.Length == st.nfft && (st.nfft - 1) * in_stride < fin.Length
    modifies fout
    ensures ok == (fin != fout && Smooth(st.nfft))
    ensures ok ==> IsDft(fout[..], Strided(fin[..], st.nfft, in_stride), st.twiddles)
  {
    if fin == fout {
      return false;
    }
    ghost var x := Strided(fin[..], st.nfft, in_stride);
    StridedInput(fin[..], st.nfft, in_stride);
    KfShuffle(fout, 0, fin, 0, 1, in_stride, st.factors, st.nfft, x, 0);
    ghost var mid := fout[..];
    ok := KfWork(fout, 1, st.factors, st.twiddles, st.inverse, 1, 1);
    if ok {
      ShuffledThenTransformed(fout[..], mid, x, st);
    }
  }

  // kiss_fft.
  method Transform(st: Config, fin: array<Cpx>, fout: array<Cpx>) returns (ok: bool)
    requires Valid(st) && fin.Length == fout.Length == st.nfft
    modifies fout
    ensures ok == (fin != fout && Smooth(st.nfft))
    ensures ok ==> IsDft(fout[..], fin[..], st.twiddles)
  {
    ok := KissFftStride(st, fin, fout, 1);
    assert fin != fout ==> Strided(fin[..], st.nfft, 1) == fin[..];
  }

  // kiss_fft_alloc and kiss_fft for the whole of x.
  method Fft(x: seq<Cpx>, inverse: bool, twiddles: seq<Cpx>) returns (ok: bool, y: seq<Cpx>)
    requires 0 < |x| == |twiddles| && IsTwiddles(twiddles, inverse)
    ensures ok == Smooth(|x|)
    ensures ok ==> IsDft(y, x, twiddles)
    ensures |x| == 19 ==> !ok
  {
    var st := Alloc(|x|, inverse, twiddles);
    var fin, fout := new Cpx[|x|](i requires 0 <= i < |x| => x[i]), new Cpx[|x|](_ => Cpx(0.0, 0.0));
    WholeInput(fin[..], x);
    ok := KissFftStride(st, fin, fout, 1);
    y := fout[..];
    NineteenIsRough(|x|);
  }

  lemma WholeInput(f: seq<Cpx>, x: seq<Cpx>)
    requires |f| == |x| && forall i :: 0 <= i < |x| ==> f[i] == x[i]
    ensures Strided(f, |x|, 1) == x
  {
    forall i: nat | i < |x| ensures At(f, i * 1) == x[i] {
    }
  }
}
