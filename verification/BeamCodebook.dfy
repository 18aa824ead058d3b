/** The codebook search from the impulse response on: the weighted codebook, the number of survivors, and
    the choice between the two searches (cb_search.c, fixed-point build). */
module BeamCodebook {
  import opened Arith
  import opened Fixed
  import opened BitString
  import opened BitReader
  import opened Bits
  import opened BitRuns
  import opened Innovation
  import opened BeamSpec
  import opened BeamRun
  import opened BeamGreedy
  import opened BeamLaws

  // The first n terms of sample j of a shape through the impulse response.
  function Terms(c: Codebook, r: seq<int>, shape: nat, j: nat, n: nat): int
    requires IsBook(c, r) && shape < Shapes(c) && n <= j + 1 && j < c.subvectSize
  {
    if n == 0 then 0 else
      FlatIndex(shape, n - 1, Shapes(c), c.subvectSize);
      Mac16_16(Terms(c, r, shape, j, n - 1), c.shapes[shape * c.subvectSize + n - 1], r[j - (n - 1)])
  }

  predicate IsBook(c: Codebook, r: seq<int>) {
    |c.shapes| == Shapes(c) * c.subvectSize && c.subvectSize <= |r|
  }

  // EXTRACT16(SHR32(resj, 13))
  function ResponseAt(c: Codebook, r: seq<int>, shape: nat, j: nat): int
    requires IsBook(c, r) && shape < Shapes(c) && j < c.subvectSize
  {
    Wrap16(Terms(c, r, shape, j, j + 1) / 0x2000)
  }

  ghost function ResponseRow(c: Codebook, r: seq<int>, shape: nat): (y: seq<int>)
    requires IsBook(c, r) && shape < Shapes(c)
    ensures |y| == c.subvectSize
  {
    seq(c.subvectSize, j requires 0 <= j < c.subvectSize => ResponseAt(c, r, shape, j))
  }

  // The rows so far, one behind the other, and their energies.
  ghost predicate Weighted(c: Codebook, r: seq<int>, resp: seq<int>, energy: seq<int>, n: nat)
    requires IsBook(c, r) && n <= Shapes(c)
  {
    && |energy| == n && |resp| == n * c.subvectSize
    && forall shape :: 0 <= shape < n ==>
         IsRow(c, r, resp, shape) && energy[shape] == Energy(ResponseRow(c, r, shape), c.subvectSize)
  }

  ghost predicate IsRow(c: Codebook, r: seq<int>, resp: seq<int>, shape: nat)
    requires IsBook(c, r) && shape < Shapes(c)
  {
    var at := shape * c.subvectSize;
    0 <= at && at + c.subvectSize <= |resp| && resp[at..at + c.subvectSize] == ResponseRow(c, r, shape)
  }

  // compute_weighted_codebook, one shape
  method WeightedShape(c: Codebook, r: seq<int>, i: nat) returns (row: seq<int>, e: int)
    requires IsBook(c, r) && i < Shapes(c)
    ensures row == ResponseRow(c, r, i) && e == Energy(row, c.subvectSize)
  {
    hide Energy, Wrap16;
    row, e := [], 0;
    NoEnergy();
    for j := 0 to c.subvectSize
      invariant |row| == j && row == ResponseRow(c, r, i)[..j] && e == Energy(row, j)
    {
      var resj := 0;
      for k := 0 to j + 1
        invariant resj == Terms(c, r, i, j, k)
      {
        FlatIndex(i, k, Shapes(c), c.subvectSize);
        resj := Mac16_16(resj, c.shapes[i * c.subvectSize + k], r[j - k]);
      }
      var res16 := Wrap16(resj / 0x2000);
      MoreEnergy(row, res16);
      e := Mac16_16(e, res16, res16);
      row := row + [res16];
    }
    assert row == ResponseRow(c, r, i)[..c.subvectSize];
  }

  lemma NoEnergy()
    ensures Energy([], 0) == 0
  {
  }

  lemma MoreEnergy(x: seq<int>, v: int)
    ensures Energy(x + [v], |x| + 1) == Mac16_16(Energy(x, |x|), v, v)
  {
    EnergyLocal(x, x + [v], |x|);
  }

  lemma {:induction false} EnergyLocal(x: seq<int>, y: seq<int>, m: nat)
    requires m <= |x| && m <= |y| && forall k :: 0 <= k < m ==> x[k] == y[k]
    ensures Energy(x, m) == Energy(y, m)
  {
    if m > 0 { EnergyLocal(x, y, m - 1); }
  }

  // compute_weighted_codebook
  method ComputeWeightedCodebook(c: Codebook, r: seq<int>) returns (resp: seq<int>, energy: seq<int>)
    requires IsBook(c, r)
    ensures Weighted(c, r, resp, energy, Shapes(c))
  {
    hide ResponseRow, Energy, Shapes, IsRow;
    resp, energy := [], [];
    for i := 0 to Shapes(c)
      invariant Weighted(c, r, resp, energy, i)
    {
      var row, e := WeightedShape(c, r, i);
      ghost var before := resp;
      MulDiff(i + 1, i, c.subvectSize);
      forall shape | 0 <= shape < i ensures IsRow(c, r, resp + row, shape) {
        RowStays(c, r, resp, row, shape);
      }
      NewRow(c, r, resp, row, i);
      resp, energy := resp + row, energy + [e];
    }
  }

  lemma RowStays(c: Codebook, r: seq<int>, resp: seq<int>, row: seq<int>, shape: nat)
    requires IsBook(c, r) && shape < Shapes(c) && IsRow(c, r, resp, shape)
    ensures IsRow(c, r, resp + row, shape)
  {
    var at := shape * c.subvectSize;
    assert (resp + row)[at..at + c.subvectSize] == resp[at..at + c.subvectSize];
  }

  lemma NewRow(c: Codebook, r: seq<int>, resp: seq<int>, row: seq<int>, i: nat)
    requires IsBook(c, r) && i < Shapes(c) && |resp| == i * c.subvectSize && row == ResponseRow(c, r, i)
    ensures IsRow(c, r, resp + row, i)
  {
    assert (resp + row)[|resp|..|resp| + c.subvectSize] == row;
  }

  // ---------- the search ----------

  // min(complexity, 10) * 2/3, and at least one; how a negative quotient is rounded does not matter.
  function Survivors(complexity: int): (n: nat)
    ensures 1 <= n <= 6
  {
    var n := 2 * (if complexity > 10 then 10 else complexity) / 3;
    if n < 1 then 1 else n
  }

  // The indices are those of the first survivor at the end.
  ghost predicate IsSearch(p: Problem, trace: seq<Beam>, inds: seq<nat>)
    requires IsProblem(p)
  {
    IsTrace(p, trace) && |trace| == p.c.nbSubvect + 1 && inds == trace[p.c.nbSubvect].paths[0]
  }

  // The indices are those of the search for that many survivors.
  ghost predicate IsResult(p: Problem, inds: seq<nat>)
    requires IsProblem(p)
  {
    if p.n == 1 then IsGreedy(p, inds) && |inds| == p.c.nbSubvect
    else exists trace :: IsSearch(p, trace, inds)
  }

  // split_cb_search_shape_sign
  method SplitCbSearchShapeSign(c: Codebook, complexity: int, r: seq<int>, target: seq<int>, bits: SpeexBits,
                                exc: array<int>)
    returns (inds: seq<nat>, ghost p: Problem)
    requires IsCodebook(c) && c.subvectSize > 0 && Shapes(c) >= 6 && 0 < c.nbSubvect
    requires c.subvectSize * c.nbSubvect == exc.Length <= |target| == |r|
    requires forall k :: 0 <= k < |target| ==> -0x8000 <= target[k] < 0x8000
    requires bits.Writing() && bits.owner && (exc as object) != bits.chars
    requires forall j :: 0 <= j < exc.Length ==> exc[j] == 0
    modifies bits, bits.chars, exc
    ensures IsProblem(p) && p == Problem(c, Survivors(complexity), r, p.resp, p.energy, target)
    ensures IsBook(c, r) && Weighted(c, r, p.resp, p.energy, Shapes(c))
    ensures AreIndices(c, inds) && IsResult(p, inds)
    ensures bits.Writing() && bits.Contents() == old(bits.Contents()) + FieldBits(IndexFields(c, inds))
    ensures exc[..] == Excitation(c, inds) && (bits.chars == old(bits.chars) || fresh(bits.chars))
  {
    hide FieldBits, Excitation, IsTrace, IsGreedy, BitsOf, ClearFrom, Weighted, Shapes;
    BookFits(c, r);
    var n := Survivors(complexity);
    var resp, energy := ComputeWeightedCodebook(c, r);
    ProblemIs(c, n, r, resp, energy, target);
    p := Problem(c, n, r, resp, energy, target);
    ghost var was := bits.Contents();
    if n == 1 {
      inds := FindGreedy(Problem(c, n, r, resp, energy, target));
      GreedyIndices(p, inds);
      assert bits.Contents() == was;
      PackAndRebuild(bits, c, inds, exc);
    } else {
      ghost var trace;
      inds, trace := SearchAndPack(Problem(c, n, r, resp, energy, target), bits, exc);
      assert IsSearch(p, trace, inds);
    }
  }

  lemma BookFits(c: Codebook, r: seq<int>)
    requires IsCodebook(c) && 0 < c.nbSubvect && c.subvectSize * c.nbSubvect <= |r|
    ensures IsBook(c, r)
  {
    MulLe(1, c.nbSubvect, c.subvectSize);
    assert c.nbSubvect * c.subvectSize == c.subvectSize * c.nbSubvect;
  }

  lemma ProblemIs(c: Codebook, n: nat, r: seq<int>, resp: seq<int>, energy: seq<int>, target: seq<int>)
    requires IsCodebook(c) && c.subvectSize > 0 && 0 < n <= Shapes(c) && IsBook(c, r)
    requires c.subvectSize * c.nbSubvect <= |target| == |r| && Weighted(c, r, resp, energy, Shapes(c))
    requires forall k :: 0 <= k < |target| ==> -0x8000 <= target[k] < 0x8000
    ensures IsProblem(Problem(c, n, r, resp, energy, target))
  {
    BaseIsProduct(c, c.nbSubvect);
    hide Shapes, IsRow, Energy;
  }

  lemma GreedyIndices(p: Problem, inds: seq<nat>)
    requires IsProblem(p) && IsGreedy(p, inds)
    ensures AreIndices(p.c, inds)
  {
  }

  // The energies are what the errors of the search take them for.
  lemma EnergiesAreDots(p: Problem, shape: nat)
    requires IsProblem(p) && IsBook(p.c, p.r) && Weighted(p.c, p.r, p.resp, p.energy, Shapes(p.c))
             && shape < Shapes(p.c)
    requires SumsFit(Response(p, shape), Response(p, shape))
    ensures Response(p, shape) == ResponseRow(p.c, p.r, shape)
    ensures p.energy[shape] == Dot(Response(p, shape), Response(p, shape), p.c.subvectSize)
  {
    hide IsProblem, SumsFit, Dot, Energy, Shapes;
    RowIsResponse(p, shape);
    EnergyIsDot(Response(p, shape), p.c.subvectSize);
  }

  lemma RowIsResponse(p: Problem, shape: nat)
    requires IsProblem(p) && IsBook(p.c, p.r) && shape < Shapes(p.c) && IsRow(p.c, p.r, p.resp, shape)
    ensures Response(p, shape) == ResponseRow(p.c, p.r, shape)
  {
    hide ResponseRow;
    var at := shape * p.c.subvectSize;
    forall m | 0 <= m < p.c.subvectSize ensures Response(p, shape)[m] == ResponseRow(p.c, p.r, shape)[m] {
      assert p.resp[at..at + p.c.subvectSize][m] == p.resp[at + m];
    }
  }
}
