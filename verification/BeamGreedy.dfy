/** The codebook search with a single survivor, which has a function of its own (cb_search.c). */
module BeamGreedy {
  import opened Arith
  import opened Fixed
  import opened BitString
  import opened Innovation
  import opened SmallestLists
  import opened BeamSpec
  import opened VqNbest
  import opened BeamSearch
  import opened BeamPaths

  // The nearest codeword for what the path before it has left of the target.
  ghost predicate IsNearest(p: Problem, path: seq<nat>, index: nat)
    requires IsProblem(p) && AreIndices(p.c, path) && |path| < p.c.nbSubvect
  {
    var x := NextTarget(p, path);
    && IsIndex(p.c, index) && BeamSpec.Signed(p, x, Shape(p.c, index)) == index
    && forall d :: d in Dists(p, x, Shapes(p.c)) ==> Dist(p, x, index) <= d
  }

  ghost predicate IsGreedy(p: Problem, inds: seq<nat>)
    requires IsProblem(p)
  {
    && |inds| <= p.c.nbSubvect && AreIndices(p.c, inds)
    && forall i :: 0 <= i < |inds| ==> IsNearest(p, inds[..i], inds[i])
  }

  lemma OnlyOne(p: Problem, x: seq<int>, nbest: seq<int>, bestDist: seq<int>)
    requires IsProblem(p) && p.n == 1 && |x| == p.c.subvectSize && |nbest| == |bestDist| == 1
    requires Ranked(p, x, Shapes(p.c), nbest, bestDist, 1)
    ensures 0 <= nbest[0] && IsIndex(p.c, nbest[0]) && BeamSpec.Signed(p, x, Shape(p.c, nbest[0])) == nbest[0]
    ensures forall d :: d in Dists(p, x, Shapes(p.c)) ==> Dist(p, x, nbest[0]) <= d
  {
    hide Dist, BeamSpec.Signed, Dists;
    var u, s := Dists(p, x, Shapes(p.c)), bestDist[..1];
    assert s == [bestDist[0]] && bestDist[0] in s;
    forall d | d in u ensures bestDist[0] <= d {
      if d != bestDist[0] {
        assert multiset(s)[d] == 0;
        assert d in u - multiset(s);
      }
    }
  }

  // The subvector itself is updated too, although nobody looks at it again.
  method TakeResponse(p: Problem, t: array2<int>, at: nat, index: nat)
    requires IsProblem(p) && IsIndex(p.c, index) && t.Length0 == 1 && at + p.c.subvectSize <= t.Length1
    modifies t
    ensures forall pos :: at + p.c.subvectSize <= pos < t.Length1 ==> t[0, pos] == old(t[0, pos])
  {
    ShapeBound(p.c, index);
    hide IsIndex, IsCodebook, Shapes;
    var rind := if index >= Shapes(p.c) then index - Shapes(p.c) else index;
    for m := 0 to p.c.subvectSize
      invariant forall pos :: at + p.c.subvectSize <= pos < t.Length1 ==> t[0, pos] == old(t[0, pos])
    {
      FlatIndex(rind, m, Shapes(p.c), p.c.subvectSize);
      var res := p.resp[rind * p.c.subvectSize + m];
      t[0, at + m] := Wrap16(if index >= Shapes(p.c) then t[0, at + m] + res else t[0, at + m] - res);
    }
  }

  // The rest of the target behind subvector i, after its codeword.
  method UpdateRest(p: Problem, i: nat, t: array2<int>, index: nat, ghost path: seq<nat>)
    requires IsProblem(p) && i < p.c.nbSubvect && |path| == i && IsIndex(p.c, index)
    requires t.Length0 == 1 && t.Length1 == |p.r| && Follows(p, i, Row(t, 0), path)
    modifies t
    ensures Follows(p, i + 1, Row(t, 0), path + [index])
  {
    hide Echo, IsIndex, Sample, IsCodebook, Updated, Wrap16, Follows;
    BaseGrows(p.c, i + 1, p.c.nbSubvect);
    var from := Base(p.c, i + 1);
    ghost var start := Row(t, 0);
    TakeResponse(p, t, Base(p.c, i), index);
    UpdatedNot(p, i, Row(t, 0), start, index);
    for m := 0 to p.c.subvectSize
      invariant Updated(p, i, Row(t, 0), start, index, m)
    {
      ghost var before := Row(t, 0);
      var g := SignedSample(p.c, index, m);
      TargetUpdate(t, 0, from, g, p.r, p.c.subvectSize - m);
      UpdatedMore(p, i, before, Row(t, 0), start, index, m);
    }
    assert path[..i] == path && (path + [index])[..i + 1] == path + [index];
    Extended(p, i, start, path, Row(t, 0), path + [index], index);
  }

  // split_cb_search_shape_sign_N1: every index is the nearest for what the ones before it have left.
  method FindGreedy(p: Problem) returns (inds: seq<nat>)
    requires IsProblem(p) && p.n == 1
    ensures IsGreedy(p, inds) && |inds| == p.c.nbSubvect
  {
    hide Follows, Row, Part, IsIndex, IsNearest;
    var t := new int[1, |p.r|];
    Copy(p, t);
    var nbest, bestDist := new int[1], new int[1];
    inds := [];
    for i := 0 to p.c.nbSubvect
      invariant |inds| == i && IsGreedy(p, inds) && Follows(p, i, Row(t, 0), inds)
    {
      var x := Next(p, i, t, inds);
      Nbest(p, x, nbest, bestDist);
      OnlyOne(p, x, nbest[..], bestDist[..]);
      var index: nat := nbest[0];
      Nearest(p, inds, x, index);
      UpdateRest(p, i, t, index, inds);
      inds := inds + [index];
    }
  }

  method Copy(p: Problem, t: array2<int>)
    requires IsProblem(p) && t.Length0 == 1 && t.Length1 == |p.r|
    modifies t
    ensures Follows(p, 0, Row(t, 0), [])
  {
    for m := 0 to |p.r|
      invariant forall pos :: 0 <= pos < m ==> t[0, pos] == p.target[pos]
    {
      t[0, m] := p.target[m];
    }
    assert Row(t, 0) == p.target;
  }

  method Next(p: Problem, i: nat, t: array2<int>, ghost path: seq<nat>) returns (x: seq<int>)
    requires IsProblem(p) && i < p.c.nbSubvect && |path| == i && t.Length0 == 1 && t.Length1 == |p.r|
    requires Follows(p, i, Row(t, 0), path)
    ensures AreIndices(p.c, path) && x == NextTarget(p, path)
  {
    assert path[..i] == path;
    BaseGrows(p.c, i + 1, p.c.nbSubvect);
    x := Part(t, 0, Base(p.c, i), p.c.subvectSize);
    forall m | 0 <= m < p.c.subvectSize ensures x[m] == NextTarget(p, path)[m] {
      assert Row(t, 0)[Base(p.c, i) + m] == x[m];
    }
  }

  lemma Nearest(p: Problem, inds: seq<nat>, x: seq<int>, index: nat)
    requires IsProblem(p) && IsGreedy(p, inds) && |inds| < p.c.nbSubvect && x == NextTarget(p, inds)
    requires IsIndex(p.c, index) && BeamSpec.Signed(p, x, Shape(p.c, index)) == index
    requires forall d :: d in Dists(p, x, Shapes(p.c)) ==> Dist(p, x, index) <= d
    ensures IsGreedy(p, inds + [index])
  {
    hide BeamSpec.Signed, Dists, Dist, NextTarget;
    var now := inds + [index];
    assert IsNearest(p, inds, index);
    forall i | 0 <= i < |now| ensures AreIndices(p.c, now[..i]) && IsNearest(p, now[..i], now[i]) {
      assert i < |inds| ==> now[..i] == inds[..i];
      assert i == |inds| ==> now[..i] == inds;
    }
  }
}
