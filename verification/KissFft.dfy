/** The stages of kiss_fft.c, breadth first over all blocks and depth first block by block. */
module KissFft {
  import opened Arith
  import opened Complex
  import opened Twiddles
  import opened FftSpec
  import opened Butterflies
  import opened Passes

  // ---------- one stage over all blocks ----------

  // goal(k) is element k after every block of length len == p*m is combined.
  ghost predicate IsStageGoal(goal: int -> Cpx, was: seq<Cpx>, len: nat, p: nat, m: nat, step: nat, tw: seq<Cpx>)
    requires |tw| > 0 && m > 0 && len > 0
  {
    forall k {:trigger Unfold(k)} :: Unfold(k) && k >= 0 ==>
      goal(k) == Combine(was, k / len * len, p, m, step, tw, k % len)
  }

  lemma MakeStageGoal(was: seq<Cpx>, len: nat, p: nat, m: nat, step: nat, tw: seq<Cpx>) returns (goal: int -> Cpx)
    requires |tw| > 0 && m > 0 && len > 0
    ensures IsStageGoal(goal, was, len, p, m, step, tw)
  {
    goal := (k: int) => Combine(was, k / len * len, p, m, step, tw, k % len);
  }

  ghost predicate Prefix(now: seq<Cpx>, was: seq<Cpx>, len: int, goal: int -> Cpx) {
    |now| == |was| && forall k :: 0 <= k < |was| ==> now[k] == if k < len then goal(k) else was[k]
  }

  // Combine reads its own block only.
  lemma CombineLocal(s: seq<Cpx>, t: seq<Cpx>, base: nat, p: nat, m: nat, step: nat, tw: seq<Cpx>, k: nat)
    requires |tw| > 0 && k < p * m
    requires forall i :: base <= i < base + p * m ==> At(s, i) == At(t, i)
    ensures m > 0 && Combine(s, base, p, m, step, tw, k) == Combine(t, base, p, m, step, tw, k)
  {
    var f, g := CombineTerm(s, base, m, step, tw, k), CombineTerm(t, base, m, step, tw, k);
    forall q | 0 <= q < p ensures f(q) == g(q) {
      FlatIndex(q, k % m, p, m);
      assert At(s, base + k % m + q * m) == At(t, base + k % m + q * m);
    }
    SumCong(f, g, p);
  }

  lemma GoalInBlock(after: seq<Cpx>, before: seq<Cpx>, was: seq<Cpx>, i: nat, base: nat, p: nat, m: nat, step: nat,
                    tw: seq<Cpx>, goal: int -> Cpx, len: nat, k: nat)
    requires |tw| > 0 && m > 0 && len == p * m && len > 0 && base == i * len
    requires IsStageGoal(goal, was, len, p, m, step, tw)
    requires Prefix(before, was, base, goal) && Combined(after, before, base, p, m, step, tw)
    requires base <= k < base + len && k < |was|
    ensures after[k] == goal(k)
  {
    assert after[k] == Combine(before, base, p, m, step, tw, k - base);
    assert Combine(before, base, p, m, step, tw, k - base) == Combine(was, base, p, m, step, tw, k - base) by {
      CombineLocal(before, was, base, p, m, step, tw, k - base);
    }
    GoalAt(was, i, base, p, m, step, tw, goal, len, k);
  }

  lemma GoalAt(was: seq<Cpx>, i: nat, base: nat, p: nat, m: nat, step: nat, tw: seq<Cpx>, goal: int -> Cpx, len: nat,
               k: nat)
    requires |tw| > 0 && m > 0 && len > 0 && base == i * len && base <= k < base + len
    requires IsStageGoal(goal, was, len, p, m, step, tw)
    ensures goal(k) == Combine(was, base, p, m, step, tw, k - base)
  {
    DivModUnique(k, i, k - base, len);
    assert Unfold(k);
  }

  // Combining block i extends the finished prefix by one block.
  lemma BlockDone(after: seq<Cpx>, before: seq<Cpx>, was: seq<Cpx>, i: nat, base: nat, p: nat, m: nat, step: nat,
                  tw: seq<Cpx>, goal: int -> Cpx, len: nat)
    requires |tw| > 0 && m > 0 && len == p * m && len > 0 && base == i * len
    requires IsStageGoal(goal, was, len, p, m, step, tw)
    requires Prefix(before, was, base, goal) && Combined(after, before, base, p, m, step, tw)
    ensures Prefix(after, was, base + len, goal)
  {
    forall k: nat | base <= k < base + len && k < |was| ensures after[k] == goal(k) {
      GoalInBlock(after, before, was, i, base, p, m, step, tw, goal, len, k);
    }
  }

  // The switch of kf_work for one block.
  method BlockPass(a: array<Cpx>, fout: nat, step: nat, tw: seq<Cpx>, inverse: bool, p: nat, m: nat) returns (ok: bool)
    requires IsTwiddles(tw, inverse) && Fits(a.Length, fout, p, m, step, tw)
    modifies a
    ensures ok == (p <= MAX_RADIX)
    ensures ok ==> Combined(a[..], old(a[..]), fout, p, m, step, tw)
  {
    ok := true;
    if p == 2 {
      Block2(a, fout, step, tw, inverse, m);
    } else if p == 3 {
      Bfly3(a, fout, step, tw, inverse, m);
    } else if p == 4 {
      Block4(a, fout, step, tw, inverse, m);
    } else if p == 5 {
      Bfly5(a, fout, step, tw, inverse, m);
    } else {
      ok := BflyGeneric(a, fout, step, tw, inverse, m, p);
    }
  }

  // The switch of kf_work over the N blocks of a stage, block i starting at i*m2.
  method StagePass(a: array<Cpx>, step: nat, tw: seq<Cpx>, inverse: bool, p: nat, m: nat, N: nat, m2: nat)
                   returns (ok: bool)
    requires IsTwiddles(tw, inverse) && p > 0 && m > 0 && N > 0 && step * p * m == |tw|
    requires a.Length == N * (p * m) && (N == 1 || m2 == p * m)
    modifies a
    ensures ok == (p <= MAX_RADIX)
    ensures ok ==> StageDone(a[..], old(a[..]), p, m, step, tw)
  {
    ghost var was, len := a[..], p * m;
    MulPositive(p, m);
    ghost var goal := MakeStageGoal(was, len, p, m, step, tw);
    ghost var base := 0;
    ok := true;
    for i := 0 to N
      invariant ok ==> base == i * len && |a[..]| == |was| && Prefix(a[..], was, base, goal)
      invariant ok == (i == 0 || p <= MAX_RADIX)
    {
      if ok {
        FlatIndex(i, 0, N, len);
        FlatIndex(i, len - 1, N, len);
        var fout := i * m2;
        assert fout == base;
        ghost var before := a[..];
        ok := BlockPass(a, fout, step, tw, inverse, p, m);
        if ok {
          BlockDone(a[..], before, was, i, base, p, m, step, tw, goal, len);
          MulDiff(i + 1, i, len);
          base := base + len;
        }
      }
    }
    if ok {
      GoalReached(a[..], was, p, m, step, tw, goal, len);
    }
  }

  // Every block of the stage is combined.
  ghost predicate StageDone(now: seq<Cpx>, was: seq<Cpx>, p: nat, m: nat, step: nat, tw: seq<Cpx>)
    requires |tw| > 0 && p > 0 && m > 0
  {
    MulPositive(p, m);
    |now| == |was| && forall k :: 0 <= k < |was| ==>
      now[k] == Combine(was, k / (p * m) * (p * m), p, m, step, tw, k % (p * m))
  }

  lemma GoalReached(now: seq<Cpx>, was: seq<Cpx>, p: nat, m: nat, step: nat, tw: seq<Cpx>, goal: int -> Cpx, len: nat)
    requires |tw| > 0 && p > 0 && m > 0 && len == p * m && len > 0
    requires IsStageGoal(goal, was, len, p, m, step, tw) && Prefix(now, was, |was|, goal)
    ensures StageDone(now, was, p, m, step, tw)
  {
    forall k | 0 <= k < |was| ensures now[k] == Combine(was, k / len * len, p, m, step, tw, k % len) {
      assert Unfold(k);
    }
  }

  // ---------- all stages ----------

  lemma RadicesCons(fs: seq<Factor>)
    requires fs != []
    ensures RadicesFit(fs) <==> fs[0].p <= MAX_RADIX && RadicesFit(fs[1..])
  {
    assert forall i :: 0 < i < |fs| ==> fs[i] == fs[1..][i - 1];
  }

  // Every block of length len holds what the depth-first recursion makes of it.
  ghost predicate Transformed(now: seq<Cpx>, was: seq<Cpx>, len: nat, fs: seq<Factor>, step: nat, tw: seq<Cpx>)
    requires |tw| > 0 && len > 0
  {
    |now| == |was| && forall k :: 0 <= k < |was| ==> now[k] == DepthFirst(was, k / len * len, fs, step, tw, k % len)
  }

  // A stage over transformed sub-blocks is one more level of the recursion.
  lemma StageIsDepthFirst(mid: seq<Cpx>, was: seq<Cpx>, fs: seq<Factor>, step: nat, tw: seq<Cpx>, base: nat, k: nat)
    requires |tw| > 0 && fs != [] && fs[0].m > 0 && k < fs[0].p * fs[0].m
    requires forall q: nat :: q < fs[0].p ==> SubBlockReady(mid, was, fs, step, tw, base, k, q)
    ensures Combine(mid, base, fs[0].p, fs[0].m, step, tw, k) == DepthFirst(was, base, fs, step, tw, k)
  {
    var f, g := CombineTerm(mid, base, fs[0].m, step, tw, k), DepthFirstTerm(was, base, fs, step, tw, k);
    forall q: nat | q < fs[0].p ensures f(q) == g(q) {
      assert SubBlockReady(mid, was, fs, step, tw, base, k, q);
    }
    SumCong(f, g, fs[0].p);
  }

  ghost predicate SubBlockReady(mid: seq<Cpx>, was: seq<Cpx>, fs: seq<Factor>, step: nat, tw: seq<Cpx>,
                                base: nat, k: nat, q: nat)
    requires |tw| > 0 && fs != [] && fs[0].m > 0
  {
    At(mid, base + k % fs[0].m + q * fs[0].m)
    == DepthFirst(was, base + q * fs[0].m, fs[1..], step * fs[0].p, tw, k % fs[0].m)
  }

  // Sub-block q of the block at i*p*m is block i*p + q of the finer division.
  lemma SubBlockStart(i: nat, q: nat, u: nat, p: nat, m: nat, base: nat)
    requires u < m && base == i * (p * m)
    ensures (base + u + q * m) / m * m == base + q * m && (base + u + q * m) % m == u
  {
    assert i * (p * m) == (i * p) * m;
    assert (i * p + q) * m == base + q * m;
    DivModUnique(base + u + q * m, i * p + q, u, m);
  }

  lemma ReadyAt(mid: seq<Cpx>, was: seq<Cpx>, fs: seq<Factor>, step: nat, tw: seq<Cpx>,
                i: nat, base: nat, len: nat, k: nat, q: nat)
    requires |tw| > 0 && fs != [] && fs[0].m > 0 && k < len == fs[0].p * fs[0].m && q < fs[0].p
    requires base == i * len && base + len <= |was|
    requires Transformed(mid, was, fs[0].m, fs[1..], step * fs[0].p, tw)
    ensures SubBlockReady(mid, was, fs, step, tw, base, k, q)
  {
    var p, m := fs[0].p, fs[0].m;
    var u := k % m;
    SubBlockStart(i, q, u, p, m, base);
    FlatIndex(q, u, p, m);
    assert mid[base + u + q * m] == DepthFirst(was, base + q * m, fs[1..], step * p, tw, u);
  }

  lemma StageTransforms(after: seq<Cpx>, mid: seq<Cpx>, was: seq<Cpx>, blocks: nat, len: nat, fs: seq<Factor>,
                        step: nat, tw: seq<Cpx>)
    requires |tw| > 0 && fs != [] && fs[0].m > 0 && fs[0].p > 0 && len == fs[0].p * fs[0].m && len > 0
    requires |was| == blocks * len
    requires Transformed(mid, was, fs[0].m, fs[1..], step * fs[0].p, tw)
    requires StageDone(after, mid, fs[0].p, fs[0].m, step, tw)
    ensures Transformed(after, was, len, fs, step, tw)
  {
    forall k: nat | k < |was| ensures after[k] == DepthFirst(was, k / len * len, fs, step, tw, k % len) {
      FlatSplit(k, blocks, len);
      var base := k / len * len;
      forall q: nat | q < fs[0].p ensures SubBlockReady(mid, was, fs, step, tw, base, k % len, q) {
        ReadyAt(mid, was, fs, step, tw, k / len, base, len, k % len, q);
      }
      StageIsDepthFirst(mid, was, fs, step, tw, base, k % len);
    }
  }

  // Blocks of length one are already transformed.
  lemma NothingToDo(was: seq<Cpx>, step: nat, tw: seq<Cpx>)
    requires |tw| > 0
    ensures Transformed(was, was, 1, [], step, tw)
  {
  }

  lemma NextStage(N: nat, p: nat, m: nat, step: nat)
    ensures N * p * m == N * (p * m) && step * p * m == step * (p * m)
  {
  }

  // kf_work: one recursive call for all N blocks, then the butterflies of this stage.
  method KfWork(a: array<Cpx>, step: nat, factors: seq<Factor>, tw: seq<Cpx>, inverse: bool, N: nat, m2: nat)
                returns (ok: bool)
    requires IsTwiddles(tw, inverse) && factors != [] && Chain(factors[0].p * factors[0].m, factors)
    requires N > 0 && a.Length == N * (factors[0].p * factors[0].m) && step * factors[0].p * factors[0].m == |tw|
    requires N == 1 || m2 == factors[0].p * factors[0].m
    modifies a
    ensures ok == RadicesFit(factors)
    ensures factors[0].p * factors[0].m > 0
    ensures ok ==> Transformed(a[..], old(a[..]), factors[0].p * factors[0].m, factors, step, tw)
    decreases |factors|
  {
    hide IsTwiddles, Transformed;
    NotEmpty(tw, inverse);
    var p, m := factors[0].p, factors[0].m;
    ghost var was := a[..];
    MulPositive(p, m);
    NextStage(N, p, m, step);
    ok := true;
    if m == 1 {
      NothingToDo(was, step * p, tw);
    } else {
      var rest := factors[1..];
      MulPositive(N, p);
      ok := KfWork(a, step * p, rest, tw, inverse, N * p, m);
      RadicesCons(factors);
      if !ok {
        return;
      }
    }
    ghost var mid := a[..];
    ok := StagePass(a, step, tw, inverse, p, m, N, m2);
    if ok {
      StageTransforms(a[..], mid, was, N, p * m, factors, step, tw);
    }
  }

  // The recursion that the breadth-first kf_work replaces: each sub-block in turn, then one butterfly pass.
  method KfWorkDepthFirst(a: array<Cpx>, base: nat, step: nat, factors: seq<Factor>, tw: seq<Cpx>, inverse: bool)
    requires IsTwiddles(tw, inverse) && factors != [] && Chain(factors[0].p * factors[0].m, factors)
    requires step * factors[0].p * factors[0].m == |tw| && base + factors[0].p * factors[0].m <= a.Length
    requires RadicesFit(factors)
    modifies a
    ensures BlockTransformed(a[..], old(a[..]), base, factors[0].p * factors[0].m, factors, step, tw)
    decreases |factors|, 1
  {
    var p, m := factors[0].p, factors[0].m;
    ghost var was, len := a[..], p * m;
    if m != 1 {
      SubBlocksDepthFirst(a, base, step, factors, tw, inverse);
    }
    ghost var mid := a[..];
    var ok := BlockPass(a, base, step, tw, inverse, p, m);
    CombinedTransforms(a[..], mid, was, base, factors, step, tw, len);
  }

  // Its loop over the sub-blocks.
  method SubBlocksDepthFirst(a: array<Cpx>, base: nat, step: nat, factors: seq<Factor>, tw: seq<Cpx>, inverse: bool)
    requires IsTwiddles(tw, inverse) && factors != [] && Chain(factors[0].p * factors[0].m, factors)
    requires step * factors[0].p * factors[0].m == |tw| && base + factors[0].p * factors[0].m <= a.Length
    requires RadicesFit(factors) && factors[0].m != 1
    modifies a
    ensures SubBlocksTransformed(a[..], old(a[..]), base, base + factors[0].p * factors[0].m, factors[0].m,
                                 factors[1..], step * factors[0].p, tw)
    decreases |factors|, 0
  {
    hide BlockTransformed, SubBlocksTransformed, IsTwiddles, StandsAt;
    NotEmpty(tw, inverse);
    var p, m := factors[0].p, factors[0].m;
    ghost var was := a[..];
    var fout: nat := base;
    RadicesCons(factors);
    NextStage(1, p, m, step);
    NoSubBlock(was, base, m, factors[1..], step * p, tw);
    StandsFirst(base, m);
    for j := 0 to p
      invariant StandsAt(fout, base, m, j) && |a[..]| == |was| && (j == p ==> fout == base + p * m)
      invariant SubBlocksTransformed(a[..], was, base, fout, m, factors[1..], step * p, tw)
    {
      ghost var before := a[..];
      StandsNext(fout, base, p, m, j);
      KfWorkDepthFirst(a, fout, step * p, factors[1..], tw, inverse);
      OneMoreSubBlock(a[..], before, was, base, j, fout, m, factors[1..], step * p, tw);
      fout := fout + m;
    }
  }

  // The block at base holds the result of the recursion, everything else is as it was.
  ghost predicate BlockTransformed(now: seq<Cpx>, was: seq<Cpx>, base: nat, len: nat, fs: seq<Factor>, step: nat,
                                   tw: seq<Cpx>)
    requires |tw| > 0
  {
    && |now| == |was|
    && forall i :: 0 <= i < |was| ==>
         now[i] == if base <= i < base + len then DepthFirst(was, base, fs, step, tw, i - base) else was[i]
  }

  // The sub-blocks of length m from base up to end hold their results, everything else is as it was.
  ghost predicate SubBlocksTransformed(now: seq<Cpx>, was: seq<Cpx>, base: nat, end: nat, m: nat,
                                       fs: seq<Factor>, step: nat, tw: seq<Cpx>)
    requires |tw| > 0 && m > 0
  {
    && |now| == |was|
    && forall i :: 0 <= i < |was| ==>
         now[i] == if base <= i < end then DepthFirst(was, base + (i - base) / m * m, fs, step, tw, (i - base) % m)
             else was[i]
  }

  // The recursion reads its own block only.
  lemma {:induction false} DepthFirstLocal(s: seq<Cpx>, t: seq<Cpx>, base: nat, len: nat, fs: seq<Factor>, step: nat,
                                           tw: seq<Cpx>, k: nat)
    requires |tw| > 0 && if fs == [] then len == 1 else Chain(len, fs)
    requires k < len && forall i :: base <= i < base + len ==> At(s, i) == At(t, i)
    ensures DepthFirst(s, base, fs, step, tw, k) == DepthFirst(t, base, fs, step, tw, k)
    decreases |fs|
  {
    if fs != [] {
      var p, m := fs[0].p, fs[0].m;
      var f, g := DepthFirstTerm(s, base, fs, step, tw, k), DepthFirstTerm(t, base, fs, step, tw, k);
      forall q | 0 <= q < p ensures f(q) == g(q) {
        FlatIndex(q, m - 1, p, m);
        DepthFirstLocal(s, t, base + q * m, m, fs[1..], step * p, tw, k % m);
      }
      SumCong(f, g, p);
    }
  }

  lemma NoSubBlock(was: seq<Cpx>, base: nat, m: nat, fs: seq<Factor>, step: nat, tw: seq<Cpx>)
    requires |tw| > 0 && m > 0
    ensures SubBlocksTransformed(was, was, base, base, m, fs, step, tw)
  {
  }

  lemma OneMoreSubBlock(after: seq<Cpx>, before: seq<Cpx>, was: seq<Cpx>, base: nat, j: nat, end: nat, m: nat,
                        fs: seq<Factor>, step: nat, tw: seq<Cpx>)
    requires |tw| > 0 && m > 0 && Chain(m, fs) && end == base + j * m
    requires SubBlocksTransformed(before, was, base, end, m, fs, step, tw)
    requires BlockTransformed(after, before, end, m, fs, step, tw)
    ensures SubBlocksTransformed(after, was, base, end + m, m, fs, step, tw)
  {
    forall i: nat | end <= i < end + m && i < |was|
      ensures after[i] == DepthFirst(was, base + (i - base) / m * m, fs, step, tw, (i - base) % m)
    {
      DivModUnique(i - base, j, i - end, m);
      DepthFirstLocal(before, was, end, m, fs, step, tw, i - end);
    }
  }

  lemma ReadyInBlock(mid: seq<Cpx>, was: seq<Cpx>, base: nat, fs: seq<Factor>, step: nat, tw: seq<Cpx>, len: nat,
                     k: nat, q: nat)
    requires |tw| > 0 && fs != [] && Chain(len, fs) && base + len <= |was| && k < len && q < fs[0].p
    requires if fs[0].m == 1 then mid == was && fs[1..] == []
             else SubBlocksTransformed(mid, was, base, base + len, fs[0].m, fs[1..], step * fs[0].p, tw)
    ensures SubBlockReady(mid, was, fs, step, tw, base, k, q)
  {
    var p, m := fs[0].p, fs[0].m;
    FlatIndex(q, k % m, p, m);
    DivModUnique(k % m + q * m, q, k % m, m);
    var i := base + k % m + q * m;
    assert i - base == k % m + q * m;
  }

  // One combined bin of a block whose sub-blocks are transformed.
  lemma CombinedBin(after: seq<Cpx>, mid: seq<Cpx>, was: seq<Cpx>, base: nat, fs: seq<Factor>, step: nat, tw: seq<Cpx>,
                    len: nat, i: nat)
    requires |tw| > 0 && fs != [] && Chain(len, fs) && base <= i < base + len <= |was|
    requires if fs[0].m == 1 then mid == was && fs[1..] == []
             else SubBlocksTransformed(mid, was, base, base + len, fs[0].m, fs[1..], step * fs[0].p, tw)
    requires Combined(after, mid, base, fs[0].p, fs[0].m, step, tw)
    ensures |after| == |was| && after[i] == DepthFirst(was, base, fs, step, tw, i - base)
  {
    hide DepthFirst, Combine;
    CombinedIsDepthFirst(mid, was, base, fs, step, tw, len, i - base);
    assert after[i] == Combine(mid, base, fs[0].p, fs[0].m, step, tw, i - base);
  }

  lemma CombinedTransforms(after: seq<Cpx>, mid: seq<Cpx>, was: seq<Cpx>, base: nat, fs: seq<Factor>, step: nat,
                           tw: seq<Cpx>, len: nat)
    requires |tw| > 0 && fs != [] && len == fs[0].p * fs[0].m && Chain(len, fs) && base + len <= |was|
    requires if fs[0].m == 1 then mid == was && fs[1..] == []
             else SubBlocksTransformed(mid, was, base, base + len, fs[0].m, fs[1..], step * fs[0].p, tw)
    requires Combined(after, mid, base, fs[0].p, fs[0].m, step, tw)
    ensures BlockTransformed(after, was, base, len, fs, step, tw)
  {
    forall i: nat | base <= i < base + len ensures after[i] == DepthFirst(was, base, fs, step, tw, i - base) {
      CombinedBin(after, mid, was, base, fs, step, tw, len, i);
    }
  }

  lemma CombinedIsDepthFirst(mid: seq<Cpx>, was: seq<Cpx>, base: nat, fs: seq<Factor>, step: nat, tw: seq<Cpx>,
                             len: nat, k: nat)
    requires |tw| > 0 && fs != [] && Chain(len, fs) && base + len <= |was| && k < len
    requires if fs[0].m == 1 then mid == was && fs[1..] == []
             else SubBlocksTransformed(mid, was, base, base + len, fs[0].m, fs[1..], step * fs[0].p, tw)
    ensures Combine(mid, base, fs[0].p, fs[0].m, step, tw, k) == DepthFirst(was, base, fs, step, tw, k)
  {
    forall q: nat | q < fs[0].p ensures SubBlockReady(mid, was, fs, step, tw, base, k, q) {
      ReadyInBlock(mid, was, base, fs, step, tw, len, k, q);
    }
    StageIsDepthFirst(mid, was, fs, step, tw, base, k);
  }
}
