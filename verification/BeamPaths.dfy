/** The survivors of the codebook search: the paths of codewords and what they leave of the target (cb_search.c). */
module BeamPaths {
  import opened Arith
  import opened Fixed
  import opened BitString
  import opened Innovation
  import opened BeamSpec

  function Row<T>(a: array2<T>, j: nat): (s: seq<T>)
    requires j < a.Length0
    reads a
    ensures |s| == a.Length1
  {
    seq(a.Length1, m requires 0 <= m < a.Length1 && j < a.Length0 reads a => a[j, m])
  }

  // The first i entries of ind are a path, and t holds what it leaves of the target.
  ghost predicate Follows(p: Problem, i: nat, t: seq<int>, ind: seq<nat>)
    requires IsProblem(p)
  {
    && |t| == |p.r| && i <= |ind| && AreIndices(p.c, ind[..i])
    && forall pos: nat :: Base(p.c, i) <= pos < |t| ==> t[pos] == Remaining(p, ind[..i], pos)
  }

  // target_update: one sample g of a codeword, through the impulse response from q on.
  method TargetUpdate(nt: array2<int>, j: nat, from: nat, g: int, r: seq<int>, q: nat)
    requires j < nt.Length0 && from <= nt.Length1 && q + nt.Length1 - from <= |r|
    modifies nt
    ensures forall k, pos :: 0 <= k < nt.Length0 && 0 <= pos < nt.Length1 ==>
      nt[k, pos] == if k == j && from <= pos then Wrap16(old(nt[k, pos]) - Wrap16(Echo(g, r[q + pos - from])))
          else old(nt[k, pos])
  {
    hide Echo, Wrap16;
    for n := 0 to nt.Length1 - from
      invariant forall k, pos :: 0 <= k < nt.Length0 && 0 <= pos < nt.Length1 ==>
        nt[k, pos] == if k == j && from <= pos < from + n then
            Wrap16(old(nt[k, pos]) - Wrap16(Echo(g, r[q + pos - from]))) else old(nt[k, pos])
    {
      nt[j, from + n] := Wrap16(nt[j, from + n] - Wrap16(Echo(g, r[q + n])));
    }
  }

  // sign * shape_cb[rind*subvect_size+m]
  method SignedSample(c: Codebook, index: nat, m: nat) returns (g: int)
    requires IsCodebook(c) && IsIndex(c, index) && m < c.subvectSize
    ensures g == Sample(c, index, m)
  {
    ShapeBound(c, index);
    var rind, sign := index, 1;
    if rind >= Shapes(c) {
      sign, rind := -1, rind - Shapes(c);
    }
    ShapeInBook(c, rind, m);
    g := sign * c.shapes[rind * c.subvectSize + m];
  }

  lemma OneEcho(p: Problem, index: nat, base: nat, m: nat, pos: nat, t: int)
    requires IsProblem(p) && IsIndex(p.c, index) && m < p.c.subvectSize && base + p.c.subvectSize <= pos < |p.r|
    ensures Wrap16(Wrap16(t - Echoes(p, index, base, m, pos)) - Wrap16(Echo(Sample(p.c, index, m),
            p.r[pos - (base + m)])))
         == Wrap16(t - Echoes(p, index, base, m + 1, pos))
  {
    WrapLess(t - Echoes(p, index, base, m, pos), Echo(Sample(p.c, index, m), p.r[pos - (base + m)]));
  }

  // "previous target (we don't care what happened before)"
  method CopyRest(ot: array2<int>, nt: array2<int>, j: nat, parent: nat, from: nat)
    requires ot != nt && j < nt.Length0 && parent < ot.Length0 && from <= ot.Length1 == nt.Length1
    modifies nt
    ensures forall pos :: from <= pos < nt.Length1 ==> nt[j, pos] == ot[parent, pos]
    ensures forall k, pos :: 0 <= k < nt.Length0 && 0 <= pos < nt.Length1 && k != j ==> nt[k, pos] == old(nt[k, pos])
  {
    for m := from to nt.Length1
      invariant forall pos :: from <= pos < m ==> nt[j, pos] == ot[parent, pos]
      invariant forall k, pos :: 0 <= k < nt.Length0 && 0 <= pos < nt.Length1 && k != j ==>
                nt[k, pos] == old(nt[k, pos])
    {
      nt[j, m] := ot[parent, m];
    }
  }

  // Row j is what the parent's row t and the first m samples of the codeword make of it.
  ghost predicate Updated(p: Problem, i: nat, nt: seq<int>, t: seq<int>, index: nat, m: nat)
    requires IsProblem(p) && IsIndex(p.c, index) && m <= p.c.subvectSize && |nt| == |t| == |p.r|
  {
    forall pos :: Base(p.c, i + 1) <= pos < |p.r| && -0x8000 <= t[pos] < 0x8000 ==>
      nt[pos] == Wrap16(t[pos] - Echoes(p, index, Base(p.c, i), m, pos))
  }

  lemma UpdatedMore(p: Problem, i: nat, before: seq<int>, now: seq<int>, t: seq<int>, index: nat, m: nat)
    requires IsProblem(p) && IsIndex(p.c, index) && m < p.c.subvectSize && |before| == |now| == |t| == |p.r|
    requires Updated(p, i, before, t, index, m)
    requires forall pos :: Base(p.c, i + 1) <= pos < |p.r| ==>
      now[pos] == Wrap16(before[pos] - Wrap16(Echo(Sample(p.c, index, m), p.r[pos - (Base(p.c, i) + m)])))
    ensures Updated(p, i, now, t, index, m + 1)
  {
    hide Echo, IsIndex, Sample, IsCodebook, Wrap16, Echoes;
    forall pos | Base(p.c, i + 1) <= pos < |p.r| && -0x8000 <= t[pos] < 0x8000
      ensures now[pos] == Wrap16(t[pos] - Echoes(p, index, Base(p.c, i), m + 1, pos))
    {
      OneEcho(p, index, Base(p.c, i), m, pos, t[pos]);
    }
  }

  lemma UpdatedNot(p: Problem, i: nat, nt: seq<int>, t: seq<int>, index: nat)
    requires IsProblem(p) && IsIndex(p.c, index) && |nt| == |t| == |p.r|
    requires forall pos :: Base(p.c, i + 1) <= pos < |p.r| ==> nt[pos] == t[pos]
    ensures Updated(p, i, nt, t, index, 0)
  {
    hide IsIndex, Base;
  }

  // "update the rest of the target": row j of nt, from the parent's row of ot and the new codeword.
  method UpdateRow(p: Problem, i: nat, ot: array2<int>, nt: array2<int>, j: nat, parent: nat, index: nat)
    requires IsProblem(p) && i < p.c.nbSubvect && IsIndex(p.c, index) && ot != nt && j < nt.Length0
             && parent < ot.Length0
    requires ot.Length1 == nt.Length1 == |p.r|
    modifies nt
    ensures Updated(p, i, Row(nt, j), Row(ot, parent), index, p.c.subvectSize)
    ensures forall k, pos :: 0 <= k < nt.Length0 && 0 <= pos < nt.Length1 && k != j ==> nt[k, pos] == old(nt[k, pos])
  {
    hide Echo, IsIndex, Sample, IsCodebook, Updated, Wrap16;
    BaseGrows(p.c, i + 1, p.c.nbSubvect);
    var from := Base(p.c, i + 1);
    CopyRest(ot, nt, j, parent, from);
    UpdatedNot(p, i, Row(nt, j), Row(ot, parent), index);
    for m := 0 to p.c.subvectSize
      invariant Updated(p, i, Row(nt, j), Row(ot, parent), index, m)
      invariant forall k, pos :: 0 <= k < nt.Length0 && 0 <= pos < nt.Length1 && k != j ==>
                nt[k, pos] == old(nt[k, pos])
    {
      ghost var before := Row(nt, j);
      var g := SignedSample(p.c, index, m);
      var q := p.c.subvectSize - m;
      TargetUpdate(nt, j, from, g, p.r, q);
      UpdatedMore(p, i, before, Row(nt, j), Row(ot, parent), index, m);
    }
  }

  // The path of the parent and the new codeword.
  method ExtendPath(i: nat, oind: array2<nat>, nind: array2<nat>, j: nat, parent: nat, index: nat)
    requires oind != nind && j < nind.Length0 && parent < oind.Length0 && i < oind.Length1 == nind.Length1
    modifies nind
    ensures Row(nind, j)[..i + 1] == Row(oind, parent)[..i] + [index]
    ensures forall k, q :: 0 <= k < nind.Length0 && 0 <= q < nind.Length1 && k != j ==> nind[k, q] == old(nind[k, q])
  {
    for q := 0 to nind.Length1
      invariant forall k :: 0 <= k < q ==> nind[j, k] == oind[parent, k]
      invariant forall k, q :: 0 <= k < nind.Length0 && 0 <= q < nind.Length1 && k != j ==>
                nind[k, q] == old(nind[k, q])
    {
      nind[j, q] := oind[parent, q];
    }
    nind[j, i] := index;
  }

  lemma Extended(p: Problem, i: nat, ot: seq<int>, oind: seq<nat>, nt: seq<int>, nind: seq<nat>, index: nat)
    requires IsProblem(p) && i < p.c.nbSubvect && IsIndex(p.c, index) && Follows(p, i, ot, oind)
    requires |nt| == |p.r| && i + 1 <= |nind| && nind[..i + 1] == oind[..i] + [index]
    requires Updated(p, i, nt, ot, index, p.c.subvectSize)
    ensures Follows(p, i + 1, nt, nind)
  {
    hide Echoes, PathEchoes, IsIndex;
    BaseGrows(p.c, i + 1, p.c.nbSubvect);
    forall pos: nat | Base(p.c, i + 1) <= pos < |p.r| ensures nt[pos] == Remaining(p, nind[..i + 1], pos) {
      assert ot[pos] == Remaining(p, oind[..i], pos);
      InWord(p, oind[..i], pos);
      OneMoreWord(p, oind[..i], index, pos);
    }
  }

  lemma InWord(p: Problem, path: seq<nat>, pos: nat)
    requires IsProblem(p) && AreIndices(p.c, path) && Base(p.c, |path|) <= pos < |p.r|
    ensures -0x8000 <= Remaining(p, path, pos) < 0x8000
  {
  }

  // All survivors after i subvectors.
  ghost predicate AllFollow(p: Problem, i: nat, t: array2<int>, ind: array2<nat>)
    requires IsProblem(p)
    reads t, ind
  {
    && t.Length0 == ind.Length0 == p.n && t.Length1 == |p.r| && ind.Length1 == p.c.nbSubvect
    && forall j :: 0 <= j < p.n ==> Follows(p, i, Row(t, j), Row(ind, j))
  }

  // The new survivors: every one extends the path of its parent by its codeword.
  method ExtendAll(p: Problem, i: nat, ot: array2<int>, oind: array2<nat>, nt: array2<int>, nind: array2<nat>,
                   bestNind: array<int>, bestNtarget: array<int>)
    requires IsProblem(p) && i < p.c.nbSubvect && AllFollow(p, i, ot, oind) && ot != nt && oind != nind
    requires nt.Length0 == nind.Length0 == bestNind.Length == bestNtarget.Length == p.n && nt.Length1 == |p.r|
             && nind.Length1 == p.c.nbSubvect
    requires forall j :: 0 <= j < p.n ==> 0 <= bestNind[j] && IsIndex(p.c, bestNind[j]) && 0 <= bestNtarget[j] < p.n
    modifies nt, nind
    ensures AllFollow(p, i + 1, nt, nind)
    ensures forall j :: 0 <= j < p.n ==> Row(nind, j)[..i + 1] == Row(oind, bestNtarget[j])[..i] + [bestNind[j]]
  {
    hide Follows, Updated, Echoes, IsIndex, Base, IsProblem;
    for j := 0 to p.n
      invariant forall k :: 0 <= k < j ==> Follows(p, i + 1, Row(nt, k), Row(nind, k))
      invariant forall k :: 0 <= k < j ==> Row(nind, k)[..i + 1] == Row(oind, bestNtarget[k])[..i] + [bestNind[k]]
    {
      ghost var t, ind := Rows(nt), Rows(nind);
      UpdateRow(p, i, ot, nt, j, bestNtarget[j], bestNind[j]);
      ExtendPath(i, oind, nind, j, bestNtarget[j], bestNind[j]);
      Extended(p, i, Row(ot, bestNtarget[j]), Row(oind, bestNtarget[j]), Row(nt, j), Row(nind, j), bestNind[j]);
      assert forall k :: 0 <= k < j ==> Row(nt, k) == t[k] && Row(nind, k) == ind[k];
    }
  }

  ghost function Rows<T>(a: array2<T>): (s: seq<seq<T>>)
    reads a
    ensures |s| == a.Length0 && forall j :: 0 <= j < |s| ==> s[j] == Row(a, j)
  {
    seq(a.Length0, j requires 0 <= j < a.Length0 reads a => Row(a, j))
  }
}
