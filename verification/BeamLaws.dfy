/** What the survivors of the codebook search are worth: the costs of their paths, and that no codeword
    was overlooked. */
module BeamLaws {
  import opened Arith
  import opened Fixed
  import opened Innovation
  import opened SmallestLists
  import opened BestLists
  import opened BeamSpec
  import opened BeamSearch
  import opened BeamPaths
  import opened BeamRun

  // No error has reached the value that the list is cleared with.
  ghost predicate AllBounded(b: Beam) { forall j :: 0 <= j < |b.dists| ==> b.dists[j] < VERY_LARGE32 }

  ghost predicate AreCosts(p: Problem, i: nat, b: Beam)
    requires IsProblem(p) && i <= p.c.nbSubvect && IsBeam(p, i, b)
  {
    forall j :: 0 <= j < p.n ==> AreIndices(p.c, b.paths[j]) && b.dists[j] == Cost(p, b.paths[j])
  }

  lemma StageKeepsCosts(p: Problem, i: nat, b: Beam, b': Beam)
    requires IsProblem(p) && i < p.c.nbSubvect && IsBeam(p, i, b) && IsBeam(p, i + 1, b') && Stage(p, i, b, b')
    requires AreCosts(p, i, b) && AllBounded(b')
    ensures AreCosts(p, i + 1, b')
  {
    hide Smallest, AreOffers, Follows, Err, Pads, Offered;
    var xs := Targets(p, i, b);
    var dists := b.dists[..|xs|];
    forall j | 0 <= j < p.n ensures AreIndices(p.c, b'.paths[j]) && b'.dists[j] == Cost(p, b'.paths[j]) {
      assert Descends(p, b, dists, xs, b'.dists[j], b'.paths[j]);
      var index: nat, parent: nat :| Child(p, b, dists, xs, b'.dists[j], b'.paths[j], index, parent);
      CostOfChild(p, b.paths[parent], index);
    }
  }

  lemma CostOfChild(p: Problem, path: seq<nat>, index: nat)
    requires IsProblem(p) && AreIndices(p.c, path) && |path| < p.c.nbSubvect && IsIndex(p.c, index)
    ensures AreIndices(p.c, path + [index])
    ensures Cost(p, path + [index]) == Err(p, Cost(p, path), NextTarget(p, path), index)
  {
    assert (path + [index])[..|path|] == path;
  }

  // After every subvector, the error of every survivor is the cost of its whole path.
  lemma {:induction false} ErrorsAreCosts(p: Problem, trace: seq<Beam>, i: nat)
    requires IsProblem(p) && IsTrace(p, trace) && i < |trace| && forall k :: 0 <= k <= i ==> AllBounded(trace[k])
    ensures AreCosts(p, i, trace[i])
  {
    if i > 0 {
      ErrorsAreCosts(p, trace, i - 1);
      StageKeepsCosts(p, i - 1, trace[i - 1], trace[i]);
    }
  }

  // ---------- all codewords ----------

  // The distances of all shapes, each with the better sign.
  ghost function AllDists(p: Problem, x: seq<int>): (d: seq<int>)
    requires IsProblem(p) && |x| == p.c.subvectSize
    ensures |d| == Shapes(p.c)
  {
    seq(Shapes(p.c), k requires 0 <= k < Shapes(p.c) => SignedIsIndex(p, x, k); Dist(p, x, Signed(p, x, k)))
  }

  lemma FirstDists(p: Problem, x: seq<int>, k: nat)
    requires IsProblem(p) && |x| == p.c.subvectSize && k <= Shapes(p.c)
    ensures Dists(p, x, k) == if k == 0 then multiset{} else Dists(p, x, k - 1) + multiset{AllDists(p, x)[k - 1]}
  {
    hide Dist, Signed, IsProblem;
  }

  lemma OneElementMore(s: seq<int>, k: nat)
    requires 0 < k <= |s|
    ensures multiset(s[..k]) == multiset(s[..k - 1]) + multiset{s[k - 1]}
  {
    assert s[..k] == s[..k - 1] + [s[k - 1]];
  }

  lemma {:induction false} DistsOfAll(p: Problem, x: seq<int>, k: nat)
    requires IsProblem(p) && |x| == p.c.subvectSize && k <= Shapes(p.c)
    ensures Dists(p, x, k) == multiset(AllDists(p, x)[..k])
  {
    hide Dist, Signed, AllDists, Dists, IsProblem;
    FirstDists(p, x, k);
    if k > 0 {
      DistsOfAll(p, x, k - 1);
      OneElementMore(AllDists(p, x), k);
    }
  }

  // The errors of a survivor with any codeword.
  ghost function AllErrors(p: Problem, dists: seq<int>, xs: seq<seq<int>>, j: nat): multiset<int>
    requires IsProblem(p) && (forall j :: 0 <= j < |xs| ==> |xs[j]| == p.c.subvectSize) && j <= |dists| == |xs|
  {
    if j == 0 then multiset{}
        else AllErrors(p, dists, xs, j - 1) + multiset(Errors(dists[j - 1], xs[j - 1], AllDists(p, xs[j - 1])))
  }

  // No sum of an error overflows.
  ghost predicate Exact(p: Problem, dist: int, x: seq<int>)
    requires IsProblem(p) && |x| == p.c.subvectSize
  {
    forall d :: d in AllDists(p, x) ==> Add32(Add32(dist, d), Energy(x, |x|) / 2) == d + (dist + Energy(x, |x|) / 2)
  }

  lemma ErrorsShift(dist: int, x: seq<int>, d: seq<int>)
    requires forall k :: 0 <= k < |d| ==>
             Add32(Add32(dist, d[k]), Energy(x, |x|) / 2) == d[k] + (dist + Energy(x, |x|) / 2)
    ensures Errors(dist, x, d) == Shifted(d, dist + Energy(x, |x|) / 2)
  {
    hide Add32, Energy;
  }

  lemma OffersAreDists(p: Problem, x: seq<int>, offer: seq<int>)
    requires IsProblem(p) && |x| == p.c.subvectSize && Smallest(offer, Dists(p, x, Shapes(p.c)), p.n)
    ensures Smallest(offer, multiset(AllDists(p, x)), p.n) && forall k :: 0 <= k < |offer| ==>
            offer[k] in AllDists(p, x)
  {
    hide AllDists;
    var all := AllDists(p, x);
    DistsOfAll(p, x, Shapes(p.c));
    assert all[..Shapes(p.c)] == all;
    forall k | 0 <= k < |offer| ensures offer[k] in all {
      assert offer[k] in multiset(offer);
      assert offer[k] in multiset(all);
    }
  }

  // The best of the offers are the best of everything, for one survivor.
  lemma OfferIsBest(p: Problem, dist: int, x: seq<int>, offer: seq<int>)
    requires IsProblem(p) && |x| == p.c.subvectSize && Smallest(offer, Dists(p, x, Shapes(p.c)), p.n)
             && Exact(p, dist, x)
    ensures Smallest(Errors(dist, x, offer), multiset(Errors(dist, x, AllDists(p, x))), p.n)
  {
    hide Smallest, Add32, Dists, Dist, Energy, AllDists, Errors, IsProblem;
    var all := AllDists(p, x);
    OffersAreDists(p, x, offer);
    ErrorsShift(dist, x, offer);
    ErrorsShift(dist, x, all);
    ShiftKeepsSmallest(offer, all, dist + Energy(x, |x|) / 2, p.n);
  }

  lemma {:induction false} CutAll(p: Problem, dists: seq<int>, xs: seq<seq<int>>, offers: seq<seq<int>>, j: nat,
                                  t: seq<int>, u: multiset<int>)
    requires IsProblem(p) && (forall j :: 0 <= j < |xs| ==> |xs[j]| == p.c.subvectSize) && j <= |dists| == |xs|
    requires AreOffers(p, xs, offers) && (forall k :: 0 <= k < |xs| ==> Exact(p, dists[k], xs[k]))
    requires Smallest(t, u + Offered(dists, xs, offers, j), p.n)
    ensures Smallest(t, u + AllErrors(p, dists, xs, j), p.n)
  {
    hide Smallest, Exact, Errors, Dists, AllDists;
    if j > 0 {
      var e, w := Errors(dists[j - 1], xs[j - 1], offers[j - 1]),
          multiset(Errors(dists[j - 1], xs[j - 1], AllDists(p, xs[j - 1])));
      OfferIsBest(p, dists[j - 1], xs[j - 1], offers[j - 1]);
      assert u + Offered(dists, xs, offers, j) == (u + Offered(dists, xs, offers, j - 1)) + multiset(e);
      CutOffers(t, u + Offered(dists, xs, offers, j - 1), e, w, p.n);
      assert (u + Offered(dists, xs, offers, j - 1)) + w == (u + w) + Offered(dists, xs, offers, j - 1);
      CutAll(p, dists, xs, offers, j - 1, t, u + w);
      assert (u + w) + AllErrors(p, dists, xs, j - 1) == u + AllErrors(p, dists, xs, j);
    }
  }

  // After a subvector the list holds the n smallest errors of all survivors with all codewords.
  lemma NothingOverlooked(p: Problem, i: nat, b: Beam, b': Beam)
    requires IsProblem(p) && i < p.c.nbSubvect && IsBeam(p, i, b) && Stage(p, i, b, b')
    requires var xs := Targets(p, i, b); forall k :: 0 <= k < |xs| ==> Exact(p, b.dists[k], xs[k])
    ensures var xs := Targets(p, i, b);
            && |xs| == (if i == 0 then 1 else p.n)
            && (forall j :: 0 <= j < |xs| ==>
                  AreIndices(p.c, b.paths[j]) && |b.paths[j]| == i && xs[j] == NextTarget(p, b.paths[j]))
            && Smallest(b'.dists, Pads(p.n) + AllErrors(p, b.dists[..|xs|], xs, |xs|), p.n)
  {
    hide Smallest, Exact, Errors, Offered, AllErrors, Pads, Descends;
    var xs := Targets(p, i, b);
    var dists := b.dists[..|xs|];
    forall j | 0 <= j < |xs| ensures AreIndices(p.c, b.paths[j]) && |b.paths[j]| == i { PathInRange(p, i, b, j); }
    var offers :| AreOffers(p, xs, offers) && Smallest(b'.dists, Pads(p.n) + Offered(dists, xs, offers, |xs|), p.n);
    CutAll(p, dists, xs, offers, |xs|, b'.dists, Pads(p.n));
  }

  // ---------- what an error measures ----------

  function Dot(a: seq<int>, b: seq<int>, m: nat): int
    requires m <= |a| && m <= |b|
  {
    if m == 0 then 0 else Dot(a, b, m - 1) + a[m - 1] * b[m - 1]
  }

  // The squared distance between x and s times y.
  function Gap(x: seq<int>, y: seq<int>, s: int, m: nat): int
    requires m <= |x| && m <= |y|
  {
    if m == 0 then 0 else Gap(x, y, s, m - 1) + (x[m - 1] - s * y[m - 1]) * (x[m - 1] - s * y[m - 1])
  }

  lemma {:induction false} GapExpands(x: seq<int>, y: seq<int>, s: int, m: nat)
    requires m <= |x| && m <= |y| && (s == 1 || s == -1)
    ensures Gap(x, y, s, m) == Dot(x, x, m) - 2 * Signwise(s, Dot(x, y, m)) + Dot(y, y, m)
  {
    if m > 0 {
      GapExpands(x, y, s, m - 1);
      SquareExpands(x[m - 1], y[m - 1], s);
    }
  }

  function Signwise(s: int, v: int): int { if s == -1 then -v else v }

  lemma SquareExpands(a: int, b: int, s: int)
    requires s == 1 || s == -1
    ensures (a - s * b) * (a - s * b) == a * a - 2 * Signwise(s, a * b) + b * b
  {
    if s == 1 {
      assert (a - b) * (a - b) == a * a - 2 * (a * b) + b * b;
    } else {
      assert s * b == -b;
      assert (a + b) * (a + b) == a * a + 2 * (a * b) + b * b;
    }
  }

  // The sums of products as the code makes them, as long as they fit.
  ghost predicate SumsFit(a: seq<int>, b: seq<int>)
    requires |a| == |b|
  {
    && (forall k :: 0 <= k < |a| ==> -0x8000 <= a[k] < 0x8000 && -0x8000 <= b[k] < 0x8000)
    && forall m :: 0 <= m <= |a| ==> -0x8000_0000 <= Dot(a, b, m) < 0x8000_0000
  }

  lemma {:induction false} EnergyIsDot(x: seq<int>, m: nat)
    requires m <= |x| && SumsFit(x, x)
    ensures Energy(x, m) == Dot(x, x, m)
  {
    if m > 0 {
      EnergyIsDot(x, m - 1);
      assert -0x8000_0000 <= Dot(x, x, m) < 0x8000_0000;
    }
  }

  // The response of a shape.
  ghost function Response(p: Problem, shape: nat): (y: seq<int>)
    requires IsProblem(p) && shape < Shapes(p.c)
    ensures |y| == p.c.subvectSize
  {
    seq(p.c.subvectSize, m requires 0 <= m < p.c.subvectSize =>
      FlatIndex(shape, m, Shapes(p.c), p.c.subvectSize); p.resp[shape * p.c.subvectSize + m])
  }

  lemma {:induction false} CorrIsDot(p: Problem, x: seq<int>, shape: nat, m: nat)
    requires IsProblem(p) && m <= |x| == p.c.subvectSize && shape < Shapes(p.c) && SumsFit(x, Response(p, shape))
    ensures Corr(p, x, shape, m) == Dot(x, Response(p, shape), m)
  {
    if m > 0 {
      CorrIsDot(p, x, shape, m - 1);
      FlatIndex(shape, m - 1, Shapes(p.c), p.c.subvectSize);
      assert -0x8000_0000 <= Dot(x, Response(p, shape), m) < 0x8000_0000;
    }
  }

  // No sum of an error overflows: the distance, and the three terms of the error.
  ghost predicate ErrFits(p: Problem, dist: int, x: seq<int>, index: nat)
    requires IsProblem(p) && |x| == p.c.subvectSize && IsIndex(p.c, index) && Shape(p.c, index) < Shapes(p.c)
  {
    var y := Response(p, Shape(p.c, index));
    var d := p.energy[Shape(p.c, index)] / 2 - Signwise(SignOf(p.c, index), Dot(x, y, |x|));
    && SumsFit(x, x) && SumsFit(x, y) && -0x8000_0000 <= d < 0x8000_0000 && -0x8000_0000 <= dist + d < 0x8000_0000
    && -0x8000_0000 <= dist + d + Dot(x, x, |x|) / 2 < 0x8000_0000
  }

  ghost function SignOf(c: Codebook, index: nat): int { if Negative(c, index) then -1 else 1 }

  lemma ErrIsSum(p: Problem, dist: int, x: seq<int>, index: nat)
    requires IsProblem(p) && |x| == p.c.subvectSize && IsIndex(p.c, index) && Shape(p.c, index) < Shapes(p.c)
    requires ErrFits(p, dist, x, index)
    ensures Err(p, dist, x, index)
         == dist + p.energy[Shape(p.c, index)] / 2
            - Signwise(SignOf(p.c, index), Dot(x, Response(p, Shape(p.c, index)), |x|)) + Dot(x, x, |x|) / 2
  {
    EnergyIsDot(x, |x|);
    CorrIsDot(p, x, Shape(p.c, index), |x|);
    hide Dot, SumsFit, IsProblem, Energy, Corr, Response;
  }

  // Up to rounding down, an error grows by half the squared distance of the next target from the
  // response of the signed codeword.
  lemma ErrorIsHalfGap(p: Problem, dist: int, x: seq<int>, index: nat)
    requires IsProblem(p) && |x| == p.c.subvectSize && IsIndex(p.c, index) && Shape(p.c, index) < Shapes(p.c)
    requires ErrFits(p, dist, x, index)
    requires var y := Response(p, Shape(p.c, index)); p.energy[Shape(p.c, index)] == Dot(y, y, |y|)
    ensures var gap := Gap(x, Response(p, Shape(p.c, index)), SignOf(p.c, index), |x|);
            gap - 2 <= 2 * (Err(p, dist, x, index) - dist) <= gap
  {
    hide Err, IsProblem, Dist, SumsFit, Dot, Gap, Response;
    ErrIsSum(p, dist, x, index);
    GapExpands(x, Response(p, Shape(p.c, index)), SignOf(p.c, index), |x|);
  }
}
