/** What the codebook search settles on: the better signs, the cheapest of the last survivors, and a
    target from which the excitation of the path has been taken through the impulse response. */
module BeamChoice {
  import opened Arith
  import opened Fixed
  import opened Innovation
  import opened SmallestLists
  import opened BeamSpec
  import opened BeamRun
  import opened BeamLaws
  import L = NbLaws

  // ---------- signs ----------

  // Of a shape and its negative, the search takes one that is no farther from x.
  lemma BetterSign(p: Problem, x: seq<int>, shape: nat)
    requires IsProblem(p) && |x| == p.c.subvectSize && shape < Shapes(p.c) && p.c.haveSign
    requires var d, e := Corr(p, x, shape, |x|), p.energy[shape] / 2;
             && -0x8000_0000 <= e - d < 0x8000_0000 && -0x8000_0000 <= e + d < 0x8000_0000
    ensures IsIndex(p.c, Signed(p, x, shape)) && IsIndex(p.c, shape) && IsIndex(p.c, shape + Shapes(p.c))
    ensures Dist(p, x, Signed(p, x, shape)) <= Dist(p, x, shape)
    ensures Dist(p, x, Signed(p, x, shape)) <= Dist(p, x, shape + Shapes(p.c))
  {
    Doubled(p.c);
    hide Corr, IsCodebook;
    SignedIsIndex(p, x, shape);
  }

  lemma Doubled(c: Codebook)
    requires c.haveSign
    ensures forall k :: 0 <= k < 2 * Shapes(c) ==> IsIndex(c, k)
  {
  }

  // ---------- the path at the end ----------

  // The path that is sent is one of least cost among all survivors.
  lemma FirstIsBest(p: Problem, trace: seq<Beam>, j: nat)
    requires IsProblem(p) && IsTrace(p, trace) && |trace| == p.c.nbSubvect + 1 && j < p.n
    requires forall k :: 0 <= k < |trace| ==> AllBounded(trace[k])
    ensures var b := trace[p.c.nbSubvect];
            && |b.paths| == p.n && AreIndices(p.c, b.paths[0]) && AreIndices(p.c, b.paths[j])
            && |b.paths[0]| == |b.paths[j]| == p.c.nbSubvect
            && Cost(p, b.paths[0]) <= Cost(p, b.paths[j])
  {
    hide BeamRun.Stage, Cost;
    var n := p.c.nbSubvect;
    ErrorsAreCosts(p, trace, n);
    assert IsBeam(p, n, trace[n]);
    DistsInOrder(p, trace, j);
  }

  lemma DistsInOrder(p: Problem, trace: seq<Beam>, j: nat)
    requires IsProblem(p) && IsTrace(p, trace) && |trace| == p.c.nbSubvect + 1 && j < p.n
    ensures |trace[p.c.nbSubvect].dists| == p.n
    ensures trace[p.c.nbSubvect].dists[0] <= trace[p.c.nbSubvect].dists[j]
  {
    var n := p.c.nbSubvect;
    assert IsBeam(p, n, trace[n]);
    if n > 0 {
      assert Stage(p, n - 1, trace[n - 1], trace[n]);
      StageSorts(p, n - 1, trace[n - 1], trace[n]);
    }
  }

  lemma StageSorts(p: Problem, i: nat, b: Beam, b': Beam)
    requires IsProblem(p) && i < p.c.nbSubvect && IsBeam(p, i, b) && Stage(p, i, b, b')
    ensures Sorted(b'.dists)
  {
    hide AreOffers, Descends;
  }

  // ---------- what is left of the target ----------

  // The samples of e up to n, each one through the impulse response and rounded, at pos.
  function Convolved(e: seq<int>, r: seq<int>, n: nat, pos: nat): int
    requires n <= |e| && n <= pos + 1 && pos < |r|
  {
    if n == 0 then 0 else Convolved(e, r, n - 1, pos) + Echo(e[n - 1] / 512, r[pos - (n - 1)])
  }

  // An echo is the product over 2^13, rounded to the nearest.
  lemma EchoRounds(g: int, h: int)
    requires -128 <= g <= 128 && -0x8000 <= h < 0x8000
    ensures -0x1000 <= 0x2000 * Echo(g, h) - g * h <= 0x1000
  {
    var a := if g < 0 then -g else g;
    MulLe(-0x8000, h, a);
    MulLe(h, 0x7fff, a);
    if g < 0 { Negated(h, a); }
    assert g * h == h * g;
    assert Wrap16(g) == g && Wrap16(h) == h;
    hide Wrap16;
  }

  // What a path has taken from the target is the excitation that the decoder will rebuild from it, in the
  // scale of the shapes, convolved with the impulse response.
  lemma {:induction false} PathIsConvolved(p: Problem, path: seq<nat>, pos: nat)
    requires IsProblem(p) && AreIndices(p.c, path) && Base(p.c, |path|) <= pos < |p.r|
    ensures |Excitation(p.c, path)| == Base(p.c, |path|)
    ensures PathEchoes(p, path, pos) == Convolved(Excitation(p.c, path), p.r, Base(p.c, |path|), pos)
  {
    hide Excitation, Convolved, IsIndex, Echoes, IsProblem;
    CodebookOf(p);
    PathLength(p, path);
    if path == [] {
      NothingConvolved(p, pos);
    } else {
      var i := |path| - 1;
      FrontOf(p, path);
      BaseGrows(p.c, i, |path|);
      PathIsConvolved(p, path[..i], pos);
      LastWord(p, path, pos, p.c.subvectSize);
      SamePrefix(Excitation(p.c, path[..i]), Excitation(p.c, path), p.r, Base(p.c, i), pos);
    }
  }

  lemma CodebookOf(p: Problem)
    requires IsProblem(p)
    ensures IsCodebook(p.c)
  {
  }

  lemma PathLength(p: Problem, path: seq<nat>)
    requires IsProblem(p) && AreIndices(p.c, path)
    ensures |Excitation(p.c, path)| == Base(p.c, |path|)
  {
    BaseIsProduct(p.c, |path|);
    ExcitationLength(p.c, path);
  }

  lemma NothingConvolved(p: Problem, pos: nat)
    requires IsProblem(p) && pos < |p.r|
    ensures Excitation(p.c, []) == [] && Convolved([], p.r, 0, pos) == 0 && Base(p.c, 0) == 0
  {
  }

  lemma FrontOf(p: Problem, path: seq<nat>)
    requires IsProblem(p) && AreIndices(p.c, path) && path != []
    ensures var i := |path| - 1;
            && AreIndices(p.c, path[..i]) && |Excitation(p.c, path)| == Base(p.c, i) + p.c.subvectSize
            && |Excitation(p.c, path[..i])| == Base(p.c, i)
            && Excitation(p.c, path)[..Base(p.c, i)] == Excitation(p.c, path[..i])
  {
    hide IsIndex;
    PathLength(p, path[..|path| - 1]);
    PathLength(p, path);
  }

  lemma {:induction false} LastWord(p: Problem, path: seq<nat>, pos: nat, m: nat)
    requires IsProblem(p) && AreIndices(p.c, path) && path != [] && Base(p.c, |path|) <= pos < |p.r|
    requires m <= p.c.subvectSize && |Excitation(p.c, path)| == Base(p.c, |path|)
    ensures var i, e := |path| - 1, Excitation(p.c, path);
            Convolved(e, p.r, Base(p.c, i) + m, pos)
            == Convolved(e, p.r, Base(p.c, i), pos) + Echoes(p, path[i], Base(p.c, i), m, pos)
  {
    hide Excitation, Echo, IsProblem, Sample, IsIndex;
    CodebookOf(p);
    if m > 0 {
      LastWord(p, path, pos, m - 1);
      SampleAt(p.c, path, |path| - 1, m - 1);
    }
  }

  // Sample m of word i of the excitation is 512 times that of its codeword.
  lemma SampleAt(c: Codebook, path: seq<nat>, i: nat, m: nat)
    requires IsCodebook(c) && AreIndices(c, path) && i < |path| && m < c.subvectSize
    ensures Base(c, i) + m < |Excitation(c, path)| && IsIndex(c, path[i])
    ensures Excitation(c, path)[Base(c, i) + m] / 512 == Sample(c, path[i], m)
  {
    hide Excitation, Subvector, IsCodebook, IsIndex, Base;
    BaseIsProduct(c, i);
    assert c.subvectSize * i == i * c.subvectSize;
    L.ExcitationAt(c, path, i, m);
    L.SubvectorAt(c, Negative(c, path[i]), Shape(c, path[i]), m);
    SampleIs(c, path[i], m);
  }

  lemma SampleIs(c: Codebook, index: nat, m: nat)
    requires IsCodebook(c) && IsIndex(c, index) && m < c.subvectSize
    ensures Shape(c, index) < Shapes(c) && 0 <= Shape(c, index) * c.subvectSize
    ensures Shape(c, index) * c.subvectSize + m < |c.shapes|
    ensures var v := c.shapes[Shape(c, index) * c.subvectSize + m];
            Sample(c, index, m) == (if Negative(c, index) then -512 else 512) * v / 512
  {
    ShapeBound(c, index);
    ShapeInBook(c, Shape(c, index), m);
  }

  lemma {:induction false} SamePrefix(a: seq<int>, b: seq<int>, r: seq<int>, n: nat, pos: nat)
    requires n <= |a| && n <= |b| && a[..n] == b[..n] && n <= pos + 1 && pos < |r|
    ensures Convolved(a, r, n, pos) == Convolved(b, r, n, pos)
  {
    if n > 0 {
      assert a[n - 1] == a[..n][n - 1] == b[..n][n - 1] == b[n - 1];
      assert a[..n - 1] == a[..n][..n - 1] && b[..n - 1] == b[..n][..n - 1];
      SamePrefix(a, b, r, n - 1, pos);
    }
  }

  // So, for every survivor of every stage, what it still has to match is the target less the
  // convolution of its excitation.
  lemma RestIsTargetLessExcitation(p: Problem, path: seq<nat>, m: nat)
    requires IsProblem(p) && AreIndices(p.c, path) && |path| < p.c.nbSubvect && m < p.c.subvectSize
    ensures var at := Base(p.c, |path|);
            && at + m < |p.r| && |Excitation(p.c, path)| == at
            && NextTarget(p, path)[m] == Wrap16(p.target[at + m] - Convolved(Excitation(p.c, path), p.r, at, at + m))
  {
    hide Excitation, PathEchoes, Convolved, Wrap16, IsIndex, NextTarget, IsProblem, Base;
    NextSampleIs(p, path, m);
    PathIsConvolved(p, path, Base(p.c, |path|) + m);
  }

  lemma NextSampleIs(p: Problem, path: seq<nat>, m: nat)
    requires IsProblem(p) && AreIndices(p.c, path) && |path| < p.c.nbSubvect && m < p.c.subvectSize
    ensures Base(p.c, |path|) + m < |p.r| == |p.target|
    ensures var pos := Base(p.c, |path|) + m; NextTarget(p, path)[m] == Wrap16(p.target[pos] - PathEchoes(p, path, pos))
  {
    hide PathEchoes, Wrap16, IsIndex;
    BaseGrows(p.c, |path| + 1, p.c.nbSubvect);
  }
}
