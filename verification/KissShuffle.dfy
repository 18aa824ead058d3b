/** kf_shuffle: the digit-reversing copy that lets the butterflies run in place. */
module KissShuffle {
  import opened Arith
  import opened Complex
  import opened FftSpec

  // x lists every in_stride-th sample of f.
  ghost predicate IsInput(x: seq<Cpx>, f: seq<Cpx>, in_stride: nat) {
    forall i: nat :: i < |x| ==> Sample(x, f, in_stride, i)
  }

  ghost predicate Sample(x: seq<Cpx>, f: seq<Cpx>, in_stride: nat, i: nat)
    requires i < |x|
  {
    0 <= i * in_stride < |f| && f[i * in_stride] == x[i]
  }

  // Positions from base up to end of the block hold their samples, everything else is as it was.
  ghost predicate Filled(now: seq<Cpx>, was: seq<Cpx>, base: nat, end: nat, x: seq<Cpx>, fs: seq<Factor>, off: nat,
                         step: nat) {
    && |now| == |was|
    && forall i :: 0 <= i < |was| ==>
         now[i] == if base <= i < end then At(x, ShuffleIndex(fs, off, step, i - base)) else was[i]
  }

  lemma SourceIndex(off: nat, step: nat, j: nat, foff: nat, in_stride: nat)
    requires foff == off * in_stride
    ensures foff + j * (step * in_stride) == (off + step * j) * in_stride
    ensures off + step * j >= 0
  {
    assert (off + step * j) * in_stride == off * in_stride + step * j * in_stride;
    assert step * j * in_stride == j * (step * in_stride);
    MulLe(0, step, j);
  }

  // The last sample of a sub-block is no later than the last sample of its block.
  lemma SubBlockRange(off: nat, step: nat, p: nat, m: nat, j: nat, len: nat)
    requires j < p && m > 0 && len == p * m && len > 0
    ensures off + step * j + step * p * (m - 1) <= off + step * (len - 1)
  {
    assert j + p * (m - 1) <= len - 1 by { assert p * (m - 1) == p * m - p; }
    calc {
      step * j + step * p * (m - 1);
      step * (j + p * (m - 1));
    <= { MulLe(j + p * (m - 1), len - 1, step); }
      step * (len - 1);
    }
  }

  // Filling sub-block j extends the filled part of the block by m positions.
  lemma SubBlockFilled(after: seq<Cpx>, before: seq<Cpx>, was: seq<Cpx>, base: nat, end: nat, j: nat, m: nat,
                       x: seq<Cpx>, fs: seq<Factor>, off: nat, step: nat, off': nat, step': nat)
    requires fs != [] && m == fs[0].m > 0 && end == base + j * m
    requires off' == off + step * j && step' == step * fs[0].p
    requires Filled(before, was, base, end, x, fs, off, step)
    requires Filled(after, before, end, end + m, x, fs[1..], off', step')
    ensures Filled(after, was, base, end + m, x, fs, off, step)
  {
    forall i: nat | end <= i < end + m && i < |was|
      ensures after[i] == At(x, ShuffleIndex(fs, off, step, i - base))
    {
      DivModUnique(i - base, j, i - end, m);
    }
  }

  lemma NothingFilled(was: seq<Cpx>, base: nat, x: seq<Cpx>, fs: seq<Factor>, off: nat, step: nat)
    ensures Filled(was, was, base, base, x, fs, off, step)
  {
  }

  lemma SampleFilled(was: seq<Cpx>, end: nat, x: seq<Cpx>, off: nat, step: nat)
    requires end < |was|
    ensures Filled(was[end := At(x, off)], was, end, end + 1, x, [], off, step)
  {
  }

  // Where the two moving pointers stand before sub-block j.
  ghost predicate Pointers(g: nat, end: nat, foff: nat, base: nat, stride: nat, m: nat, j: nat) {
    end == base + j * m && g == foff + j * stride
  }

  lemma PointersStart(foff: nat, base: nat, stride: nat, m: nat)
    ensures Pointers(foff, base, foff, base, stride, m, 0)
  {
  }

  lemma PointersStep(g: nat, end: nat, foff: nat, base: nat, stride: nat, p: nat, m: nat, j: nat)
    requires Pointers(g, end, foff, base, stride, m, j) && j < p
    ensures Pointers(g + stride, end + m, foff, base, stride, m, j + 1)
    ensures end == base + j * m && end + m <= base + p * m
    ensures j + 1 == p ==> end + m == base + p * m
  {
    MulLe(j + 1, p, m);
  }

  // The samples that sub-block j starts from lie inside the input.
  lemma SubBlockSource(g: nat, end: nat, foff: nat, base: nat, off: nat, step: nat, in_stride: nat,
                       p: nat, m: nat, j: nat, len: nat, size: nat)
    requires Pointers(g, end, foff, base, step * in_stride, m, j) && foff == off * in_stride
    requires j < p && m > 0 && len == p * m && off + step * (len - 1) < size
    ensures 0 <= step * j && g == (off + step * j) * in_stride
    ensures 0 <= step * p * (m - 1) && off + step * j + step * p * (m - 1) < size
  {
    MulLe(1, p, m);
    SourceIndex(off, step, j, foff, in_stride);
    SubBlockRange(off, step, p, m, j, len);
    MulLe(0, step, p);
    MulLe(0, step * p, m - 1);
  }

  method KfShuffle(fout: array<Cpx>, base: nat, f: array<Cpx>, foff: nat, fstride: nat, in_stride: nat,
                   factors: seq<Factor>, len: nat, ghost x: seq<Cpx>, ghost off: nat)
    requires fout != f && Chain(len, factors) && base + len <= fout.Length
    requires IsInput(x, f[..], in_stride) && foff == off * in_stride && 0 <= off + fstride * (len - 1) < |x|
    modifies fout
    ensures Filled(fout[..], old(fout[..]), base, base + len, x, factors, off, fstride)
    decreases |factors|
  {
    hide Filled, ShuffleIndex, Pointers;
    var p, m, stride := factors[0].p, factors[0].m, fstride * in_stride;
    ghost var was := fout[..];
    MulPositive(p, m);
    var g: nat, end: nat := foff, base;
    NothingFilled(was, base, x, factors, off, fstride);
    PointersStart(foff, base, stride, m);
    for j := 0 to p
      invariant Pointers(g, end, foff, base, stride, m, j) && |fout[..]| == |was|
      invariant end <= base + len && (j == p ==> end == base + len)
      invariant Filled(fout[..], was, base, end, x, factors, off, fstride)
    {
      ghost var before, off' := fout[..], off + fstride * j;
      SubBlockSource(g, end, foff, base, off, fstride, in_stride, p, m, j, len, |x|);
      PointersStep(g, end, foff, base, stride, p, m, j);
      if m == 1 {
        assert Sample(x, f[..], in_stride, off');
        fout[end] := f[g];
        assert factors[1..] == [];
        SampleFilled(before, end, x, off', fstride * p);
        assert fout[..] == before[end := At(x, off')];
      } else {
        KfShuffle(fout, end, f, g, fstride * p, in_stride, factors[1..], m, x, off');
      }
      SubBlockFilled(fout[..], before, was, base, end, j, m, x, factors, off, fstride, off', fstride * p);
      end := end + m;
      g := g + stride;
    }
  }
}
