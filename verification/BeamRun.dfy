/** The codebook search as a whole: what its survivors are after every subvector (cb_search.c). */
module BeamRun {
  import opened Arith
  import opened Fixed
  import opened BitString
  import opened BitReader
  import opened Bits
  import opened BitRuns
  import opened Innovation
  import opened SmallestLists
  import opened BestLists
  import opened BeamSpec
  import opened VqNbest
  import opened BeamSearch
  import opened BeamPaths

  // The errors of the survivors, their paths, and what is left of the target for each.
  datatype Beam = Beam(dists: seq<int>, paths: seq<seq<nat>>, rest: seq<seq<int>>)

  // Every survivor's rest is the target less the responses of exactly the codewords on its path.
  ghost predicate IsBeam(p: Problem, i: nat, b: Beam)
    requires IsProblem(p)
  {
    && |b.dists| == |b.paths| == |b.rest| == p.n
    && forall j :: 0 <= j < p.n ==> |b.paths[j]| == i && Follows(p, i, b.rest[j], b.paths[j])
  }

  // The next targets of the survivors that a subvector starts from.
  ghost function Targets(p: Problem, i: nat, b: Beam): (xs: seq<seq<int>>)
    requires IsProblem(p) && i < p.c.nbSubvect && IsBeam(p, i, b)
    ensures |xs| == Parents(p, i) <= p.n && forall j :: 0 <= j < |xs| ==> |xs[j]| == p.c.subvectSize
  {
    seq(Parents(p, i), j requires 0 <= j < Parents(p, i) => PathInRange(p, i, b, j); NextTarget(p, b.paths[j]))
  }

  lemma PathInRange(p: Problem, i: nat, b: Beam, j: nat)
    requires IsProblem(p) && i < p.c.nbSubvect && IsBeam(p, i, b) && j < p.n
    ensures AreIndices(p.c, b.paths[j]) && |b.paths[j]| < p.c.nbSubvect
  {
    assert b.paths[j][..i] == b.paths[j];
  }

  // The distances of the n best codewords for every target.
  ghost predicate AreOffers(p: Problem, xs: seq<seq<int>>, offers: seq<seq<int>>)
    requires IsProblem(p) && forall j :: 0 <= j < |xs| ==> |xs[j]| == p.c.subvectSize
  {
    |offers| == |xs| && forall j :: 0 <= j < |xs| ==>
        |offers[j]| == p.n && Smallest(offers[j], Dists(p, xs[j], Shapes(p.c)), p.n)
  }

  // One subvector: the n smallest errors of all candidates, in order, each with the path that it belongs to.
  ghost predicate Stage(p: Problem, i: nat, b: Beam, b': Beam)
    requires IsProblem(p) && i < p.c.nbSubvect && IsBeam(p, i, b)
  {
    var xs := Targets(p, i, b);
    var dists := b.dists[..|xs|];
    && IsBeam(p, i + 1, b')
    && (exists offers ::
          && AreOffers(p, xs, offers)
          && Smallest(b'.dists, Pads(p.n) + Offered(dists, xs, offers, |xs|), p.n))
    && forall j :: 0 <= j < p.n ==> Descends(p, b, dists, xs, b'.dists[j], b'.paths[j])
  }

  // The path is that of a survivor and one more codeword, and the error is theirs.
  ghost predicate Descends(p: Problem, b: Beam, dists: seq<int>, xs: seq<seq<int>>, dist: int, path: seq<nat>)
    requires IsProblem(p) && |dists| == |xs| <= |b.paths| && forall j :: 0 <= j < |xs| ==> |xs[j]| == p.c.subvectSize
  {
    exists index: nat, parent: nat :: Child(p, b, dists, xs, dist, path, index, parent)
  }

  ghost predicate Child(p: Problem, b: Beam, dists: seq<int>, xs: seq<seq<int>>, dist: int, path: seq<nat>, index: nat,
                        parent: nat)
    requires IsProblem(p) && |dists| == |xs| <= |b.paths| && forall j :: 0 <= j < |xs| ==> |xs[j]| == p.c.subvectSize
  {
    parent < |xs| && path == b.paths[parent] + [index]
        && (IsPad(dist, index, parent) || IsCandidate(p, dists, xs, dist, index, parent))
  }

  // The beam in the arrays.
  ghost function BeamOf(p: Problem, i: nat, dists: array<int>, t: array2<int>, ind: array2<nat>): (b: Beam)
    requires t.Length0 == ind.Length0 == p.n && i <= ind.Length1
    reads dists, t, ind
  {
    Beam(dists[..], Paths(Rows(ind), i), Rows(t))
  }

  ghost function Paths(rows: seq<seq<nat>>, i: nat): (s: seq<seq<nat>>)
    requires forall j :: 0 <= j < |rows| ==> i <= |rows[j]|
    ensures |s| == |rows| && forall j :: 0 <= j < |s| ==> s[j] == rows[j][..i]
  {
    seq(|rows|, j requires 0 <= j < |rows| => rows[j][..i])
  }

  lemma FollowsPath(p: Problem, i: nat, t: seq<int>, ind: seq<nat>)
    requires IsProblem(p) && i <= |ind|
    ensures Follows(p, i, t, ind) <==> Follows(p, i, t, ind[..i])
  {
    assert ind[..i][..i] == ind[..i];
  }

  lemma BeamIs(p: Problem, i: nat, dists: array<int>, t: array2<int>, ind: array2<nat>)
    requires IsProblem(p) && i <= p.c.nbSubvect && AllFollow(p, i, t, ind) && dists.Length == p.n
    ensures IsBeam(p, i, BeamOf(p, i, dists, t, ind))
  {
    hide Follows;
    forall j | 0 <= j < p.n ensures Follows(p, i, Row(t, j), Row(ind, j)[..i]) {
      FollowsPath(p, i, Row(t, j), Row(ind, j));
    }
  }

  // The slices that the search works on are the next targets.
  lemma TargetsAre(p: Problem, i: nat, dists: array<int>, t: array2<int>, ind: array2<nat>)
    requires IsProblem(p) && i < p.c.nbSubvect && AllFollow(p, i, t, ind) && dists.Length == p.n
    requires IsBeam(p, i, BeamOf(p, i, dists, t, ind)) && Base(p.c, i) + p.c.subvectSize <= t.Length1
    ensures AreTargets(p, i, t, Targets(p, i, BeamOf(p, i, dists, t, ind)))
  {
    hide Part, Row, Follows, NextTarget, IsProblem;
    var b := BeamOf(p, i, dists, t, ind);
    var xs := Targets(p, i, b);
    forall j | 0 <= j < |xs| ensures xs[j] == Part(t, j, Base(p.c, i), p.c.subvectSize) {
      TargetIs(p, i, b.rest[j], b.paths[j]);
      PartOfRow(t, j, Base(p.c, i), p.c.subvectSize);
    }
  }

  lemma PartOfRow(t: array2<int>, j: nat, at: nat, n: nat)
    requires j < t.Length0 && at + n <= t.Length1
    ensures Part(t, j, at, n) == Row(t, j)[at..at + n]
  {
  }

  lemma TargetIs(p: Problem, i: nat, t: seq<int>, path: seq<nat>)
    requires IsProblem(p) && i < p.c.nbSubvect && |path| == i && Follows(p, i, t, path)
    ensures AreIndices(p.c, path) && Base(p.c, i) + p.c.subvectSize <= |t|
    ensures NextTarget(p, path) == t[Base(p.c, i)..Base(p.c, i) + p.c.subvectSize]
  {
    assert path[..i] == path;
    BaseGrows(p.c, i + 1, p.c.nbSubvect);
    forall m | 0 <= m < p.c.subvectSize ensures NextTarget(p, path)[m] == t[Base(p.c, i) + m] {
    }
  }

  // One pass of the loop over the subvectors, up to the swap of the arrays.
  method RunStage(p: Problem, i: nat, ot: array2<int>, oind: array2<nat>, odist: array<int>, nt: array2<int>,
                  nind: array2<nat>,
                  ndist: array<int>)
    requires IsProblem(p) && i < p.c.nbSubvect && AllFollow(p, i, ot, oind) && ot != nt && oind != nind
             && odist != ndist
    requires nt.Length0 == nind.Length0 == odist.Length == ndist.Length == p.n && nt.Length1 == |p.r|
             && nind.Length1 == p.c.nbSubvect
    requires IsBeam(p, i, BeamOf(p, i, odist, ot, oind))
    modifies nt, nind, ndist
    ensures AllFollow(p, i + 1, nt, nind)
    ensures Stage(p, i, BeamOf(p, i, odist, ot, oind), BeamOf(p, i + 1, ndist, nt, nind))
  {
    hide AllFollow, Smallest, AreCandidates, AreTargets, Pads, Offered, Dists, IsCandidate, Stage, IsBeam, Base,
        IsIndex;
    Fits(p, i, ot, oind);
    ghost var b := BeamOf(p, i, odist, ot, oind);
    ghost var xs := Targets(p, i, b);
    TargetsAre(p, i, odist, ot, oind);
    var bestNind, bestNtarget := new int[p.n], new int[p.n];
    ghost var offers;
    offers := SelectBest(p, i, ot, odist, xs, ndist, bestNind, bestNtarget);
    InRange(p, odist[..|xs|], xs, ndist[..], bestNind[..], bestNtarget[..]);
    ExtendAll(p, i, ot, oind, nt, nind, bestNind, bestNtarget);
    BeamIs(p, i + 1, ndist, nt, nind);
    StageIs(p, i, b, BeamOf(p, i + 1, ndist, nt, nind), offers, bestNind[..], bestNtarget[..]);
  }

  lemma StageIs(p: Problem, i: nat, b: Beam, b': Beam, offers: seq<seq<int>>, index: seq<int>, parent: seq<int>)
    requires IsProblem(p) && i < p.c.nbSubvect && IsBeam(p, i, b) && IsBeam(p, i + 1, b')
    requires var xs := Targets(p, i, b);
             && AreOffers(p, xs, offers)
             && Smallest(b'.dists, Pads(p.n) + Offered(b.dists[..|xs|], xs, offers, |xs|), p.n)
             && AreCandidates(p, b.dists[..|xs|], xs, b'.dists, index, parent)
             && forall j :: 0 <= j < p.n ==>
                 0 <= index[j] && 0 <= parent[j] < |xs| && b'.paths[j] == b.paths[parent[j]] + [index[j]]
    ensures Stage(p, i, b, b')
  {
    hide Follows, AreOffers, Smallest, IsCandidate, IsPad, Pads, Offered;
    var xs := Targets(p, i, b);
    forall j | 0 <= j < p.n ensures Descends(p, b, b.dists[..|xs|], xs, b'.dists[j], b'.paths[j]) {
      assert Child(p, b, b.dists[..|xs|], xs, b'.dists[j], b'.paths[j], index[j], parent[j]);
    }
  }

  lemma Fits(p: Problem, i: nat, t: array2<int>, ind: array2<nat>)
    requires IsProblem(p) && i < p.c.nbSubvect && AllFollow(p, i, t, ind)
    ensures t.Length0 == ind.Length0 == p.n && t.Length1 == |p.r| && ind.Length1 == p.c.nbSubvect
    ensures Base(p.c, i) + p.c.subvectSize <= t.Length1
  {
    BaseGrows(p.c, i + 1, p.c.nbSubvect);
  }

  lemma InRange(p: Problem, dists: seq<int>, xs: seq<seq<int>>, err: seq<int>, index: seq<int>, parent: seq<int>)
    requires IsProblem(p) && |dists| == |xs| && 0 < |xs| <= p.n && forall j :: 0 <= j < |xs| ==>
             |xs[j]| == p.c.subvectSize
    requires AreCandidates(p, dists, xs, err, index, parent)
    ensures forall j :: 0 <= j < p.n ==> 0 <= index[j] && IsIndex(p.c, index[j]) && 0 <= parent[j] < |xs|
  {
    ZeroIsIndex(p.c);
    hide IsIndex, Err, BeamSpec.Signed;
  }

  lemma ZeroIsIndex(c: Codebook)
    ensures IsIndex(c, 0)
  {
  }

  // ---------- the whole search ----------

  ghost function StartBeam(p: Problem): (b: Beam) {
    Beam(seq(p.n, _ => 0), seq(p.n, _ => []), seq(p.n, _ => p.target))
  }

  ghost predicate IsTrace(p: Problem, trace: seq<Beam>)
    requires IsProblem(p)
  {
    && 0 < |trace| <= p.c.nbSubvect + 1 && trace[0] == StartBeam(p)
    && (forall i :: 0 <= i < |trace| ==> IsBeam(p, i, trace[i]))
    && forall i :: 0 <= i < |trace| - 1 ==> Stage(p, i, trace[i], trace[i + 1])
  }

  method Prepare(p: Problem, ot: array2<int>, oind: array2<nat>, odist: array<int>)
    requires IsProblem(p) && ot.Length0 == oind.Length0 == odist.Length == p.n && ot.Length1 == |p.r|
             && oind.Length1 == p.c.nbSubvect
    modifies ot, odist
    ensures AllFollow(p, 0, ot, oind) && BeamOf(p, 0, odist, ot, oind) == StartBeam(p)
  {
    for j := 0 to p.n
      invariant forall k, pos :: 0 <= k < j && 0 <= pos < |p.r| ==> ot[k, pos] == p.target[pos]
      invariant forall k :: 0 <= k < j ==> odist[k] == 0
    {
      for m := 0 to |p.r|
        invariant forall k, pos :: 0 <= k < j && 0 <= pos < |p.r| ==> ot[k, pos] == p.target[pos]
        invariant forall pos :: 0 <= pos < m ==> ot[j, pos] == p.target[pos]
        invariant forall k :: 0 <= k < j ==> odist[k] == 0
      {
        ot[j, m] := p.target[m];
      }
      odist[j] := 0;
    }
    forall j | 0 <= j < p.n ensures Row(ot, j) == p.target && Follows(p, 0, Row(ot, j), Row(oind, j)) {
      assert Row(ot, j) == p.target;
      StartFollows(p, Row(oind, j));
    }
    StartIs(p, BeamOf(p, 0, odist, ot, oind));
  }

  lemma StartFollows(p: Problem, ind: seq<nat>)
    requires IsProblem(p)
    ensures Follows(p, 0, p.target, ind)
  {
  }

  lemma StartIs(p: Problem, b: Beam)
    requires |b.dists| == |b.paths| == |b.rest| == p.n
    requires forall j :: 0 <= j < p.n ==> b.dists[j] == 0 && b.paths[j] == [] && b.rest[j] == p.target
    ensures b == StartBeam(p)
  {
    assert b.dists == StartBeam(p).dists && b.paths == StartBeam(p).paths && b.rest == StartBeam(p).rest;
  }

  // "update old-new data"
  method CopyBack(nind: array2<nat>, oind: array2<nat>, ndist: array<int>, odist: array<int>)
    requires nind.Length0 == oind.Length0 == ndist.Length == odist.Length && nind.Length1 == oind.Length1
    requires nind != oind && ndist != odist
    modifies oind, odist
    ensures Rows(oind) == Rows(nind) && odist[..] == ndist[..]
  {
    for j := 0 to nind.Length0
      invariant forall k, m :: 0 <= k < j && 0 <= m < nind.Length1 ==> oind[k, m] == nind[k, m]
      invariant odist[..j] == ndist[..j]
    {
      for m := 0 to nind.Length1
        invariant forall k, m :: 0 <= k < j && 0 <= m < nind.Length1 ==> oind[k, m] == nind[k, m]
        invariant forall q :: 0 <= q < m ==> oind[j, q] == nind[j, q]
        invariant odist[..j] == ndist[..j]
      {
        oind[j, m] := nind[j, m];
      }
      odist[j] := ndist[j];
    }
    forall j | 0 <= j < nind.Length0 ensures Row(oind, j) == Row(nind, j) {
    }
  }

  // Rows that are the same are followed the same.
  lemma SameRows(p: Problem, i: nat, t: array2<int>, a: array2<nat>, b: array2<nat>)
    requires IsProblem(p) && AllFollow(p, i, t, a) && b.Length0 == a.Length0 && b.Length1 == a.Length1
             && Rows(a) == Rows(b)
    ensures AllFollow(p, i, t, b)
  {
    forall j | 0 <= j < p.n ensures Row(b, j) == Row(a, j) {
      assert Rows(a)[j] == Rows(b)[j];
    }
  }

  // split_cb_search_shape_sign with n > 1: the indices it settles on, and the beams on the way there.
  method FindIndices(p: Problem) returns (inds: seq<nat>, ghost trace: seq<Beam>)
    requires IsProblem(p)
    ensures IsTrace(p, trace) && |trace| == p.c.nbSubvect + 1 && inds == trace[p.c.nbSubvect].paths[0]
    ensures |inds| == p.c.nbSubvect && AreIndices(p.c, inds)
  {
    hide AllFollow, Stage, Follows, Rows, Row, IsTrace, StartBeam, BeamOf;
    var nsf, nb := |p.r|, p.c.nbSubvect;
    var ot, nt := new int[p.n, nsf], new int[p.n, nsf];
    var oind, nind := new nat[p.n, nb], new nat[p.n, nb];
    var odist, ndist := new int[p.n], new int[p.n];
    Prepare(p, ot, oind, odist);
    BeamIs(p, 0, odist, ot, oind);
    TraceStarts(p);
    trace := [StartBeam(p)];
    for i := 0 to nb
      invariant fresh(ot) && fresh(nt) && ot != nt && ot.Length0 == nt.Length0 == p.n && ot.Length1 == nt.Length1 == nsf
      invariant AllFollow(p, i, ot, oind) && IsTrace(p, trace) && |trace| == i + 1
      invariant trace[i] == BeamOf(p, i, odist, ot, oind) && IsBeam(p, i, trace[i])
    {
      Advance(p, i, ot, oind, odist, nt, nind, ndist);
      TraceMore(p, trace, BeamOf(p, i + 1, odist, nt, oind));
      trace := trace + [BeamOf(p, i + 1, odist, nt, oind)];
      ot, nt := nt, ot;
    }
    inds := ReadPath(p, oind);
    FirstPath(p, odist, ot, oind);
    Chosen(p, trace[nb]);
  }

  // The whole function: the indices go to the bits, and the excitation of their codewords is added.
  method SearchAndPack(p: Problem, bits: SpeexBits, exc: array<int>) returns (inds: seq<nat>, ghost trace: seq<Beam>)
    requires IsProblem(p) && bits.Writing() && bits.owner
    requires exc.Length == p.c.nbSubvect * p.c.subvectSize && (exc as object) != bits.chars
    requires forall j :: 0 <= j < exc.Length ==> exc[j] == 0
    modifies bits, bits.chars, exc
    ensures IsTrace(p, trace) && |trace| == p.c.nbSubvect + 1 && inds == trace[p.c.nbSubvect].paths[0]
            && AreIndices(p.c, inds)
    ensures bits.Writing() && bits.Contents() == old(bits.Contents()) + FieldBits(IndexFields(p.c, inds))
    ensures exc[..] == Excitation(p.c, inds) && (bits.chars == old(bits.chars) || fresh(bits.chars))
  {
    hide IsTrace, FieldBits, Excitation;
    inds, trace := FindIndices(p);
    PackAndRebuild(bits, p.c, inds, exc);
  }

  // One pass of the loop over the subvectors, with everything back in the old arrays but the targets.
  method Advance(p: Problem, i: nat, ot: array2<int>, oind: array2<nat>, odist: array<int>, nt: array2<int>,
                 nind: array2<nat>,
                 ndist: array<int>)
    requires IsProblem(p) && i < p.c.nbSubvect && AllFollow(p, i, ot, oind) && ot != nt && oind != nind
             && odist != ndist
    requires nt.Length0 == nind.Length0 == odist.Length == ndist.Length == p.n && nt.Length1 == |p.r|
             && nind.Length1 == p.c.nbSubvect
    requires ot.Length0 == oind.Length0 == p.n && oind.Length1 == p.c.nbSubvect
             && IsBeam(p, i, BeamOf(p, i, odist, ot, oind))
    modifies nt, nind, ndist, oind, odist
    ensures AllFollow(p, i + 1, nt, oind) && IsBeam(p, i + 1, BeamOf(p, i + 1, odist, nt, oind))
    ensures Stage(p, i, old(BeamOf(p, i, odist, ot, oind)), BeamOf(p, i + 1, odist, nt, oind))
  {
    hide AllFollow, Stage, Follows, Rows, Row;
    RunStage(p, i, ot, oind, odist, nt, nind, ndist);
    CopyBack(nind, oind, ndist, odist);
    SameRows(p, i + 1, nt, nind, oind);
    BeamIs(p, i + 1, odist, nt, oind);
  }

  method ReadPath(p: Problem, ind: array2<nat>) returns (inds: seq<nat>)
    requires 0 < ind.Length0 && ind.Length1 == p.c.nbSubvect
    ensures inds == Row(ind, 0)
  {
    hide Row;
    inds := [];
    for i := 0 to p.c.nbSubvect
      invariant inds == Row(ind, 0)[..i]
    {
      RowElement(ind, 0, i);
      inds := inds + [ind[0, i]];
    }
    assert Row(ind, 0)[..p.c.nbSubvect] == Row(ind, 0);
  }

  lemma FirstPath(p: Problem, odist: array<int>, t: array2<int>, ind: array2<nat>)
    requires t.Length0 == ind.Length0 == p.n > 0 && ind.Length1 == p.c.nbSubvect
    ensures |BeamOf(p, p.c.nbSubvect, odist, t, ind).paths| == p.n
    ensures BeamOf(p, p.c.nbSubvect, odist, t, ind).paths[0] == Row(ind, 0)
  {
    assert Row(ind, 0)[..p.c.nbSubvect] == Row(ind, 0);
  }

  lemma TraceStarts(p: Problem)
    requires IsProblem(p) && IsBeam(p, 0, StartBeam(p))
    ensures IsTrace(p, [StartBeam(p)])
  {
  }

  lemma RowElement(a: array2<nat>, j: nat, i: nat)
    requires j < a.Length0 && i < a.Length1
    ensures Row(a, j)[..i + 1] == Row(a, j)[..i] + [a[j, i]]
  {
  }

  lemma TraceMore(p: Problem, trace: seq<Beam>, b: Beam)
    requires IsProblem(p) && IsTrace(p, trace) && |trace| <= p.c.nbSubvect
    requires IsBeam(p, |trace|, b) && Stage(p, |trace| - 1, trace[|trace| - 1], b)
    ensures IsTrace(p, trace + [b])
  {
    hide Stage, IsBeam;
    var t := trace + [b];
    forall i | 0 <= i < |t| - 1 ensures IsBeam(p, i, t[i]) && Stage(p, i, t[i], t[i + 1]) {
      assert i == |trace| - 1 || t[i + 1] == trace[i + 1];
    }
  }

  lemma Chosen(p: Problem, b: Beam)
    requires IsProblem(p) && IsBeam(p, p.c.nbSubvect, b)
    ensures |b.paths[0]| == p.c.nbSubvect && AreIndices(p.c, b.paths[0])
  {
    assert b.paths[0][..p.c.nbSubvect] == b.paths[0];
  }
}
