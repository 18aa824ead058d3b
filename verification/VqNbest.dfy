/** The codewords nearest to a subvector (vq.c, fixed-point build). */
module VqNbest {
  import opened Arith
  import opened Fixed
  import opened BitString
  import opened Innovation
  import opened SmallestLists
  import opened BestLists
  import opened BeamSpec

  // The element that comes to stand at k when x goes to pos.
  function Moved(s: seq<int>, pos: nat, x: int, k: nat): int
    requires k < |s|
  {
    if k < pos then s[k] else if k == pos then x else s[k - 1]
  }

  // The inner loop: everything that is worse moves up by one. used values are in place.
  method Admit(nbest: array<int>, bestDist: array<int>, used: nat, dist: int, index: int) returns (pos: nat)
    requires 0 < nbest.Length == bestDist.Length && nbest != bestDist
    requires Sorted(bestDist[..Min(used, nbest.Length)]) && (used < nbest.Length || dist < bestDist[nbest.Length - 1])
    modifies nbest, bestDist
    ensures pos == Place(old(bestDist[..Min(used, nbest.Length)]), dist) && pos <= used && pos < nbest.Length
    ensures forall k :: 0 <= k < nbest.Length ==> nbest[k] == Moved(old(nbest[..]), pos, index, k)
    ensures forall k :: 0 <= k < nbest.Length ==> bestDist[k] == Moved(old(bestDist[..]), pos, dist, k)
  {
    hide Place;
    ghost var m := Min(used, nbest.Length);
    var k := nbest.Length - 1;
    while k >= 1 && (k > used || dist < bestDist[k - 1])
      invariant 0 <= k < nbest.Length
      invariant forall q :: 0 <= q <= k ==> nbest[q] == old(nbest[q]) && bestDist[q] == old(bestDist[q])
      invariant forall q :: k < q < nbest.Length ==>
                nbest[q] == old(nbest[..])[q - 1] && bestDist[q] == old(bestDist[..])[q - 1]
      invariant forall q :: k <= q < m ==> dist < old(bestDist[..])[q]
    {
      bestDist[k] := bestDist[k - 1];
      nbest[k] := nbest[k - 1];
      k := k - 1;
    }
    bestDist[k], nbest[k], pos := dist, index, k;
    PlaceIs(old(bestDist[..]), m, dist, pos);
  }

  lemma PlaceIs(s: seq<int>, m: nat, x: int, pos: nat)
    requires pos <= m <= |s| && Sorted(s[..m]) && (pos > 0 ==> s[pos - 1] <= x) && (pos < m ==> x < s[pos])
    ensures pos == Place(s[..m], x)
  {
    hide Place;
    IsPlace(s[..m], x, pos);
  }

  lemma Admitted(before: seq<int>, now: seq<int>, used: nat, pos: nat, dist: int)
    requires |now| == |before| > 0 && forall k :: 0 <= k < |now| ==> now[k] == Moved(before, pos, dist, k)
    requires pos == Place(before[..Min(used, |before|)], dist) && pos < |before|
    ensures now[..Min(used + 1, |before|)] == Capped(Insert(before[..Min(used, |before|)], dist), |before|)
  {
    var s := before[..Min(used, |before|)];
    hide Place, Insert;
    InsertElement(s, dist, 0);
    forall k: nat | k < Min(used + 1, |before|) ensures Insert(s, dist)[k] == now[k] {
      InsertElement(s, dist, k);
    }
    assert Insert(s, dist)[..Min(used + 1, |before|)] == now[..Min(used + 1, |before|)];
  }

  lemma InsertElement(s: seq<int>, x: int, k: nat)
    requires k <= |s|
    ensures |Insert(s, x)| == |s| + 1
    ensures Insert(s, x)[k] == if k < Place(s, x) then s[k] else if k == Place(s, x) then x else s[k - 1]
  {
  }

  // The first used entries are the best of the first i shapes.
  ghost predicate Ranked(p: Problem, x: seq<int>, i: nat, nbest: seq<int>, bestDist: seq<int>, used: nat)
    requires IsProblem(p) && |x| == p.c.subvectSize && i <= Shapes(p.c) && used <= |nbest| == |bestDist| == p.n
  {
    && Smallest(bestDist[..used], Dists(p, x, i), p.n)
    && forall k :: 0 <= k < used ==> IsEntry(p, x, nbest[k], bestDist[k])
  }

  // An index in range with the better sign, and its distance.
  ghost predicate IsEntry(p: Problem, x: seq<int>, index: int, dist: int)
    requires IsProblem(p) && |x| == p.c.subvectSize
  {
    0 <= index && IsIndex(p.c, index) && Signed(p, x, Shape(p.c, index)) == index && dist == Dist(p, x, index)
  }

  lemma RankedMore(p: Problem, x: seq<int>, i: nat, nbest: seq<int>, bestDist: seq<int>, used: nat,
                   nbest': seq<int>, bestDist': seq<int>, pos: nat)
    requires IsProblem(p) && |x| == p.c.subvectSize && i < Shapes(p.c)
    requires |nbest| == |bestDist| == |nbest'| == |bestDist'| == p.n && used <= p.n
    requires Ranked(p, x, i, nbest, bestDist, used)
    requires SignedIsEntry(p, x, i)
    requires var index, dist := Signed(p, x, i), Dist(p, x, Signed(p, x, i));
             && pos == Place(bestDist[..used], dist) && pos < p.n && pos <= used
             && (forall k :: 0 <= k < p.n ==> nbest'[k] == Moved(nbest, pos, index, k))
             && (forall k :: 0 <= k < p.n ==> bestDist'[k] == Moved(bestDist, pos, dist, k))
    ensures Ranked(p, x, i + 1, nbest', bestDist', Min(used + 1, p.n))
  {
    hide Place, Smallest, Insert, Capped, Dist, Signed, IsIndex, Shape;
    var index := Signed(p, x, i);
    var dist := Dist(p, x, index);
    InsertKeepsSmallest(bestDist[..used], Dists(p, x, i), dist, p.n);
    Admitted(bestDist, bestDist', used, pos, dist);
  }

  ghost predicate SignedIsEntry(p: Problem, x: seq<int>, i: nat)
    requires IsProblem(p) && |x| == p.c.subvectSize && i < Shapes(p.c)
  {
    IsIndex(p.c, Signed(p, x, i)) && IsEntry(p, x, Signed(p, x, i), Dist(p, x, Signed(p, x, i)))
  }

  // A value that does not beat the last one of a full list changes nothing.
  lemma RankedSame(p: Problem, x: seq<int>, i: nat, nbest: seq<int>, bestDist: seq<int>)
    requires IsProblem(p) && |x| == p.c.subvectSize && i < Shapes(p.c)
    requires |nbest| == |bestDist| == p.n && Ranked(p, x, i, nbest, bestDist, p.n)
    requires SignedIsEntry(p, x, i) && Dist(p, x, Signed(p, x, i)) >= bestDist[p.n - 1]
    ensures Ranked(p, x, i + 1, nbest, bestDist, p.n)
  {
    hide Place, Smallest, Insert, Capped, Dist, Signed, IsIndex, Shape;
    var dist := Dist(p, x, Signed(p, x, i));
    assert bestDist[..p.n] == bestDist;
    IsSorted(bestDist, Dists(p, x, i), p.n);
    InsertKeepsSmallest(bestDist, Dists(p, x, i), dist, p.n);
    TooLarge(bestDist, dist);
  }

  // The distance as the two functions compute it, without and with a sign.
  method Distance(p: Problem, x: seq<int>, i: nat) returns (dist: int, index: nat)
    requires IsProblem(p) && |x| == p.c.subvectSize && i < Shapes(p.c)
    ensures SignedIsEntry(p, x, i) && index == Signed(p, x, i) && dist == Dist(p, x, index)
  {
    SignedIsIndex(p, x, i);
    hide IsIndex;
    dist, index := 0, i;
    var start := i * p.c.subvectSize;
    for j := 0 to p.c.subvectSize
      invariant dist == Corr(p, x, i, j)
    {
      FlatIndex(i, j, Shapes(p.c), p.c.subvectSize);
      dist := Mac16_16(dist, x[j], p.resp[start + j]);
    }
    if p.c.haveSign {
      if dist > 0 {
        dist := Neg32(dist);
      } else {
        index := i + Shapes(p.c);
      }
      dist := Add32(dist, p.energy[i] / 2);
    } else {
      dist := Wrap32(p.energy[i] / 2 - dist);
    }
  }

  // vq_nbest and vq_nbest_sign
  method Nbest(p: Problem, x: seq<int>, nbest: array<int>, bestDist: array<int>)
    requires IsProblem(p) && |x| == p.c.subvectSize && nbest.Length == bestDist.Length == p.n && nbest != bestDist
    modifies nbest, bestDist
    ensures Ranked(p, x, Shapes(p.c), nbest[..], bestDist[..], p.n)
  {
    hide Smallest, Dist, Signed, IsIndex, Shape, IsEntry, SignedIsEntry, Place, Moved;
    var used := 0;
    NoneRanked(p, x, nbest[..], bestDist[..]);
    for i := 0 to Shapes(p.c)
      invariant used >= Min(i, p.n) && (i <= p.n ==> used == i)
      invariant Ranked(p, x, i, nbest[..], bestDist[..], Min(used, p.n))
    {
      var dist, index := Distance(p, x, i);
      if i < p.n || dist < bestDist[p.n - 1] {
        ghost var n, d := nbest[..], bestDist[..];
        IsSorted(bestDist[..Min(used, p.n)], Dists(p, x, i), p.n);
        var pos := Admit(nbest, bestDist, used, dist, index);
        RankedMore(p, x, i, n, d, Min(used, p.n), nbest[..], bestDist[..], pos);
        used := used + 1;
      } else {
        RankedSame(p, x, i, nbest[..], bestDist[..]);
      }
    }
  }

  lemma NoneRanked(p: Problem, x: seq<int>, nbest: seq<int>, bestDist: seq<int>)
    requires IsProblem(p) && |x| == p.c.subvectSize && |nbest| == |bestDist| == p.n
    ensures Ranked(p, x, 0, nbest, bestDist, 0)
  {
  }
}
