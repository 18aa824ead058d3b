/** The search of the fixed codebook: the distance of a codeword, what a path of codewords leaves of
    the target, and what the path has cost (cb_search.c, vq.c, fixed-point build). */
module BeamSpec {
  import opened Arith
  import opened Fixed
  import opened BitString
  import opened Innovation

  const VERY_LARGE32 := 2147483647

  // The codebook, the number n of survivors, the impulse response r, the weighted responses and the
  // energies of the codewords, and the target.
  datatype Problem = Problem(c: Codebook, n: nat, r: seq<int>, resp: seq<int>, energy: seq<int>, target: seq<int>)

  // Where subvector i begins.
  function Base(c: Codebook, i: nat): nat { if i == 0 then 0 else Base(c, i - 1) + c.subvectSize }

  ghost predicate IsProblem(p: Problem) {
    && IsCodebook(p.c) && p.c.subvectSize > 0 && 0 < p.n <= Shapes(p.c)
        && Base(p.c, p.c.nbSubvect) <= |p.target| == |p.r|
    && |p.energy| == Shapes(p.c) && |p.resp| == Shapes(p.c) * p.c.subvectSize
    && forall k :: 0 <= k < |p.target| ==> -0x8000 <= p.target[k] < 0x8000
  }

  lemma {:induction false} BaseGrows(c: Codebook, i: nat, j: nat)
    requires i <= j
    ensures Base(c, i) <= Base(c, j)
    decreases j
  {
    if i < j { BaseGrows(c, i, j - 1); }
  }

  lemma {:induction false} BaseIsProduct(c: Codebook, i: nat)
    ensures Base(c, i) == c.subvectSize * i
  {
    if i > 0 {
      BaseIsProduct(c, i - 1);
      assert c.subvectSize * i == c.subvectSize * (i - 1) + c.subvectSize;
    }
  }

  // ---------- distances ----------

  // The inner product of x with the first m samples of the response of a shape.
  function Corr(p: Problem, x: seq<int>, shape: nat, m: nat): int
    requires m <= |x| == p.c.subvectSize && shape < Shapes(p.c) && |p.resp| == Shapes(p.c) * p.c.subvectSize
  {
    if m == 0 then 0 else
      FlatIndex(shape, m - 1, Shapes(p.c), p.c.subvectSize);
      Mac16_16(Corr(p, x, shape, m - 1), x[m - 1], p.resp[shape * p.c.subvectSize + m - 1])
  }

  // How far x is from the codeword: half its energy, less the inner product with its sign, up to
  // what only depends on x.
  ghost function Dist(p: Problem, x: seq<int>, index: nat): int
    requires IsProblem(p) && |x| == p.c.subvectSize && IsIndex(p.c, index)
  {
    ShapeBound(p.c, index);
    var corr := Corr(p, x, Shape(p.c, index), p.c.subvectSize);
    Wrap32(p.energy[Shape(p.c, index)] / 2 - (if Negative(p.c, index) then -corr else corr))
  }

  // A shape with the sign that suits x.
  function Signed(p: Problem, x: seq<int>, shape: nat): (index: nat)
    requires |x| == p.c.subvectSize && shape < Shapes(p.c) && |p.resp| == Shapes(p.c) * p.c.subvectSize
  {
    if p.c.haveSign && Corr(p, x, shape, p.c.subvectSize) <= 0 then shape + Shapes(p.c) else shape
  }

  lemma SignedIsIndex(p: Problem, x: seq<int>, shape: nat)
    requires |x| == p.c.subvectSize && shape < Shapes(p.c) && |p.resp| == Shapes(p.c) * p.c.subvectSize
    ensures IsIndex(p.c, Signed(p, x, shape)) && Shape(p.c, Signed(p, x, shape)) == shape
  {
    assert p.c.haveSign ==> Pow2(p.c.shapeBits + 1) == 2 * Pow2(p.c.shapeBits);
  }

  // The distances of the first k shapes.
  ghost function Dists(p: Problem, x: seq<int>, k: nat): (d: multiset<int>)
    requires IsProblem(p) && |x| == p.c.subvectSize && k <= Shapes(p.c)
    ensures |d| == k
  {
    if k == 0 then multiset{} else
      SignedIsIndex(p, x, k - 1);
      Dists(p, x, k - 1) + multiset{Dist(p, x, Signed(p, x, k - 1))}
  }

  // ---------- what is left of the target ----------

  // Sample m of a codeword, with its sign.
  ghost function Sample(c: Codebook, index: nat, m: nat): int
    requires IsCodebook(c) && IsIndex(c, index) && m < c.subvectSize
  {
    ShapeBound(c, index);
    ShapeInBook(c, Shape(c, index), m);
    var v := c.shapes[Shape(c, index) * c.subvectSize + m];
    if Negative(c, index) then -v else v
  }

  // PSHR32(MULT16_16(g, h), 13)
  function Echo(g: int, h: int): int { Add32(Mult16_16(g, h), 0x1000) / 0x2000 }

  // What the first m samples of a codeword that begins at base add at pos, through the impulse response.
  ghost function Echoes(p: Problem, index: nat, base: nat, m: nat, pos: nat): int
    requires IsProblem(p) && IsIndex(p.c, index) && m <= p.c.subvectSize && base + p.c.subvectSize <= pos < |p.r|
  {
    if m == 0 then 0
        else Echoes(p, index, base, m - 1, pos) + Echo(Sample(p.c, index, m - 1), p.r[pos - (base + m - 1)])
  }

  // The same for all codewords of a path.
  ghost function PathEchoes(p: Problem, path: seq<nat>, pos: nat): int
    requires IsProblem(p) && AreIndices(p.c, path) && Base(p.c, |path|) <= pos < |p.r|
  {
    if path == [] then 0 else
      var i := |path| - 1;
      PathEchoes(p, path[..i], pos) + Echoes(p, path[i], Base(p.c, i), p.c.subvectSize, pos)
  }

  // What the path leaves of the target behind its codewords.
  ghost function Remaining(p: Problem, path: seq<nat>, pos: nat): int
    requires IsProblem(p) && AreIndices(p.c, path) && Base(p.c, |path|) <= pos < |p.r|
  {
    Wrap16(p.target[pos] - PathEchoes(p, path, pos))
  }

  lemma OneMoreWord(p: Problem, path: seq<nat>, index: nat, pos: nat)
    requires IsProblem(p) && AreIndices(p.c, path) && IsIndex(p.c, index) && Base(p.c, |path| + 1) <= pos < |p.r|
    ensures AreIndices(p.c, path + [index])
    ensures Remaining(p, path + [index], pos)
            == Wrap16(Remaining(p, path, pos) - Echoes(p, index, Base(p.c, |path|), p.c.subvectSize, pos))
  {
    assert (path + [index])[..|path|] == path;
    WrapLess(p.target[pos] - PathEchoes(p, path, pos), Echoes(p, index, Base(p.c, |path|), p.c.subvectSize, pos));
  }

  lemma WrapLess(a: int, b: int)
    ensures Wrap16(Wrap16(a) - b) == Wrap16(a - b) && Wrap16(Wrap16(a) - Wrap16(b)) == Wrap16(a - b)
  {
  }

  // The next subvector that the path has to match.
  ghost function NextTarget(p: Problem, path: seq<nat>): (x: seq<int>)
    requires IsProblem(p) && AreIndices(p.c, path) && |path| < p.c.nbSubvect
    ensures |x| == p.c.subvectSize
  {
    BaseGrows(p.c, |path| + 1, p.c.nbSubvect);
    seq(p.c.subvectSize, m requires 0 <= m < p.c.subvectSize => Remaining(p, path, Base(p.c, |path|) + m))
  }

  // Half the energy of x.
  function Energy(x: seq<int>, m: nat): int
    requires m <= |x|
  {
    if m == 0 then 0 else Mac16_16(Energy(x, m - 1), x[m - 1], x[m - 1])
  }

  // The error of a candidate, for a survivor with the error dist and the next target x.
  ghost function Err(p: Problem, dist: int, x: seq<int>, index: nat): int
    requires IsProblem(p) && |x| == p.c.subvectSize && IsIndex(p.c, index)
  {
    Add32(Add32(dist, Dist(p, x, index)), Energy(x, |x|) / 2)
  }

  // What a whole path has cost.
  ghost function Cost(p: Problem, path: seq<nat>): int
    requires IsProblem(p) && AreIndices(p.c, path) && |path| <= p.c.nbSubvect
  {
    if path == [] then 0 else
      var i := |path| - 1;
      Err(p, Cost(p, path[..i]), NextTarget(p, path[..i]), path[i])
  }
}
