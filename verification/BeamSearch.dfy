/** The search of the fixed codebook, subvector by subvector, with n survivors (cb_search.c). */
module BeamSearch {
  import opened Arith
  import opened Fixed
  import opened BitString
  import opened Innovation
  import opened SmallestLists
  import opened BestLists
  import opened BeamSpec
  import opened VqNbest

  // ---------- the candidates of one subvector ----------

  function Pads(n: nat): multiset<int> { multiset(seq(n, _ => VERY_LARGE32)) }

  // The errors that a survivor with error dist and next target x gets from distances d.
  ghost function Errors(dist: int, x: seq<int>, d: seq<int>): (e: seq<int>)
    ensures |e| == |d|
  {
    seq(|d|, k requires 0 <= k < |d| => Add32(Add32(dist, d[k]), Energy(x, |x|) / 2))
  }

  // What the first j survivors offer.
  ghost function Offered(dists: seq<int>, xs: seq<seq<int>>, offers: seq<seq<int>>, j: nat): multiset<int>
    requires j <= |dists| && j <= |xs| && j <= |offers|
  {
    if j == 0 then multiset{}
        else Offered(dists, xs, offers, j - 1) + multiset(Errors(dists[j - 1], xs[j - 1], offers[j - 1]))
  }

  // A candidate: a survivor, a codeword with the better sign, and the error of the two together.
  ghost predicate IsCandidate(p: Problem, dists: seq<int>, xs: seq<seq<int>>, err: int, index: int, parent: int)
    requires IsProblem(p) && |dists| == |xs| && forall j :: 0 <= j < |xs| ==> |xs[j]| == p.c.subvectSize
  {
    && 0 <= parent < |xs| && 0 <= index && IsIndex(p.c, index) && Signed(p, xs[parent], Shape(p.c, index)) == index
    && err == Err(p, dists[parent], xs[parent], index)
  }

  ghost predicate IsPad(err: int, index: int, parent: int) { err == VERY_LARGE32 && index == 0 && parent == 0 }

  ghost predicate AreCandidates(p: Problem, dists: seq<int>, xs: seq<seq<int>>, err: seq<int>, index: seq<int>,
                                parent: seq<int>)
    requires IsProblem(p) && |dists| == |xs| && forall j :: 0 <= j < |xs| ==> |xs[j]| == p.c.subvectSize
  {
    && |err| == |index| == |parent| == p.n
    && forall m :: 0 <= m < p.n ==>
        IsPad(err[m], index[m], parent[m]) || IsCandidate(p, dists, xs, err[m], index[m], parent[m])
  }

  // "update n-best list"
  method Consider(ndist: array<int>, bestNind: array<int>, bestNtarget: array<int>, err: int, index: int, j: int)
    requires 0 < ndist.Length == bestNind.Length == bestNtarget.Length
    requires ndist != bestNind && ndist != bestNtarget && bestNind != bestNtarget
    modifies ndist, bestNind, bestNtarget
    ensures var s := old(ndist[..]);
            if err < s[|s| - 1] then
              && Place(s, err) < |s| && ndist[..] == PutAt(s, Place(s, err), err)
              && bestNind[..] == PutAt(old(bestNind[..]), Place(s, err), index)
              && bestNtarget[..] == PutAt(old(bestNtarget[..]), Place(s, err), j)
            else ndist[..] == s && bestNind[..] == old(bestNind[..]) && bestNtarget[..] == old(bestNtarget[..])
  {
    hide Place, PutAt;
    if err < ndist[ndist.Length - 1] {
      ghost var s := ndist[..];
      for m := 0 to ndist.Length
        invariant forall k :: 0 <= k < m ==> s[k] <= err
        invariant ndist[..] == s && bestNind[..] == old(bestNind[..]) && bestNtarget[..] == old(bestNtarget[..])
      {
        if err < ndist[m] {
          IsPlace(s, err, m);
          MakeRoomFor(ndist, m, err);
          MakeRoomFor(bestNind, m, index);
          MakeRoomFor(bestNtarget, m, j);
          return;
        }
      }
    }
  }

  lemma StillCandidates(p: Problem, dists: seq<int>, xs: seq<seq<int>>, err: seq<int>, index: seq<int>,
                        parent: seq<int>,
                        pos: nat, e: int, i: int, j: int)
    requires IsProblem(p) && |dists| == |xs| && forall j :: 0 <= j < |xs| ==> |xs[j]| == p.c.subvectSize
    requires AreCandidates(p, dists, xs, err, index, parent) && IsCandidate(p, dists, xs, e, i, j) && pos < p.n
    ensures AreCandidates(p, dists, xs, PutAt(err, pos, e), PutAt(index, pos, i), PutAt(parent, pos, j))
  {
    hide IsCandidate;
    forall m | 0 <= m < p.n
      ensures PutAt(err, pos, e)[m] == (if m < pos then err[m] else if m == pos then e else err[m - 1])
      ensures PutAt(index, pos, i)[m] == (if m < pos then index[m] else if m == pos then i else index[m - 1])
      ensures PutAt(parent, pos, j)[m] == (if m < pos then parent[m] else if m == pos then j else parent[m - 1])
    {
      PutElement(err, pos, e, m);
      PutElement(index, pos, i, m);
      PutElement(parent, pos, j, m);
    }
    hide PutAt;
  }

  // "For all new n-bests": the n best codewords for one survivor go to the list.
  method OfferFrom(p: Problem, ghost dists: seq<int>, ghost xs: seq<seq<int>>, j: nat, dist: int, x: seq<int>,
                   nbest: array<int>, bestDist: array<int>, ndist: array<int>, bestNind: array<int>,
                       bestNtarget: array<int>,
                   ghost u: multiset<int>)
    requires IsProblem(p) && |dists| == |xs| && (forall j :: 0 <= j < |xs| ==> |xs[j]| == p.c.subvectSize)
    requires j < |xs| && x == xs[j] && dist == dists[j]
    requires nbest.Length == bestDist.Length == ndist.Length == bestNind.Length == bestNtarget.Length == p.n
    requires ndist != bestNind && ndist != bestNtarget && bestNind != bestNtarget
    requires nbest !in {ndist, bestNind, bestNtarget} && bestDist !in {ndist, bestNind, bestNtarget}
    requires Ranked(p, x, Shapes(p.c), nbest[..], bestDist[..], p.n) && Smallest(ndist[..], u, p.n)
    requires AreCandidates(p, dists, xs, ndist[..], bestNind[..], bestNtarget[..])
    modifies ndist, bestNind, bestNtarget
    ensures Smallest(ndist[..], u + multiset(Errors(dist, x, bestDist[..])), p.n)
    ensures AreCandidates(p, dists, xs, ndist[..], bestNind[..], bestNtarget[..])
  {
    hide Smallest, AreCandidates, IsCandidate, Ranked, Errors, PutAt, Place, Dist;
    ghost var errs := Errors(dist, x, bestDist[..]);
    var tener := HalfEnergy(x);
    assert u + multiset(errs[..0]) == u;
    for k := 0 to p.n
      invariant Smallest(ndist[..], u + multiset(errs[..k]), p.n)
      invariant AreCandidates(p, dists, xs, ndist[..], bestNind[..], bestNtarget[..])
    {
      var err := Add32(Add32(dist, bestDist[k]), tener);
      CandidateOf(p, dists, xs, j, nbest[..], bestDist[..], k);
      OneMoreError(u, errs, k);
      OfferKeepsSmallest(ndist[..], u + multiset(errs[..k]),
          err) by { SizeIs(ndist[..], u + multiset(errs[..k]), p.n); }
      ghost var a, b, c := ndist[..], bestNind[..], bestNtarget[..];
      Consider(ndist, bestNind, bestNtarget, err, nbest[k], j);
      if err < a[p.n - 1] {
        StillCandidates(p, dists, xs, a, b, c, Place(a, err), err, nbest[k], j);
      }
    }
    assert errs[..p.n] == errs;
  }

  method HalfEnergy(x: seq<int>) returns (tener: int)
    ensures tener == Energy(x, |x|) / 2
  {
    tener := 0;
    for m := 0 to |x|
      invariant tener == Energy(x, m)
    {
      tener := Mac16_16(tener, x[m], x[m]);
    }
    tener := tener / 2;
  }

  lemma SizeIs(s: seq<int>, u: multiset<int>, n: nat)
    requires |s| == n > 0 && Smallest(s, u, n)
    ensures s != [] && Smallest(s, u, |s|)
  {
  }

  lemma OneMoreError(u: multiset<int>, errs: seq<int>, k: nat)
    requires k < |errs|
    ensures u + multiset(errs[..k + 1]) == u + multiset(errs[..k]) + multiset{errs[k]}
  {
    assert errs[..k + 1] == errs[..k] + [errs[k]];
  }

  lemma CandidateOf(p: Problem, dists: seq<int>, xs: seq<seq<int>>, j: nat, nbest: seq<int>, bestDist: seq<int>, k: nat)
    requires IsProblem(p) && |dists| == |xs| && (forall j :: 0 <= j < |xs| ==> |xs[j]| == p.c.subvectSize)
    requires j < |xs| && k < p.n && |nbest| == |bestDist| == p.n && Ranked(p, xs[j], Shapes(p.c), nbest, bestDist, p.n)
    ensures var err := Add32(Add32(dists[j], bestDist[k]), Energy(xs[j], |xs[j]|) / 2);
            IsCandidate(p, dists, xs, err, nbest[k], j) && Errors(dists[j], xs[j], bestDist)[k] == err
  {
    hide Smallest, Dist, Add32, Energy, Signed;
  }

  // n elements of row j, from position at on.
  function Part(a: array2<int>, j: nat, at: nat, n: nat): (x: seq<int>)
    requires j < a.Length0 && at + n <= a.Length1
    reads a
    ensures |x| == n
  {
    seq(n, m requires 0 <= m < n && j < a.Length0 && at + n <= a.Length1 reads a => a[j, at + m])
  }

  // The survivors that a subvector starts from: all paths are the same before the first one.
  function Parents(p: Problem, i: nat): nat { if i == 0 then 1 else p.n }

  // The next targets of the survivors.
  ghost predicate AreTargets(p: Problem, i: nat, ot: array2<int>, xs: seq<seq<int>>)
    requires ot.Length0 == p.n && Base(p.c, i) + p.c.subvectSize <= ot.Length1
    reads ot
  {
    |xs| == Parents(p, i) <= p.n && forall j :: 0 <= j < |xs| ==> xs[j] == Part(ot, j, Base(p.c, i), p.c.subvectSize)
  }

  // "For all n-bests of previous subvector". offers are the distances of the n best codewords for each of them.
  method SelectBest(p: Problem, i: nat, ot: array2<int>, odist: array<int>, ghost xs: seq<seq<int>>,
                    ndist: array<int>, bestNind: array<int>, bestNtarget: array<int>)
                        returns (ghost offers: seq<seq<int>>)
    requires IsProblem(p) && ot.Length0 == p.n == odist.Length && Base(p.c, i) + p.c.subvectSize <= ot.Length1
    requires ndist.Length == bestNind.Length == bestNtarget.Length == p.n && AreTargets(p, i, ot, xs)
    requires ndist != bestNind && ndist != bestNtarget && bestNind != bestNtarget
             && odist !in {ndist, bestNind, bestNtarget}
    modifies ndist, bestNind, bestNtarget
    ensures |offers| == |xs| && forall j :: 0 <= j < |xs| ==>
            |offers[j]| == p.n && Smallest(offers[j], Dists(p, xs[j], Shapes(p.c)), p.n)
    ensures Smallest(ndist[..], Pads(p.n) + Offered(odist[..|xs|], xs, offers, |xs|), p.n)
    ensures AreCandidates(p, odist[..|xs|], xs, ndist[..], bestNind[..], bestNtarget[..])
  {
    hide Smallest, AreCandidates, IsCandidate, Errors, PutAt, Place, Dist, Pads, Dists, Offered, IsPad, Base;
    ghost var dists := odist[..|xs|];
    var nbest, bestDist := new int[p.n], new int[p.n];
    Erase(ndist, bestNind, bestNtarget);
    offers := [];
    OnlyPads(p, dists, xs, ndist[..], bestNind[..], bestNtarget[..]);
    for j := 0 to p.n
      invariant j <= |xs| && |offers| == j && (i == 0 ==> j == 0)
      invariant forall k :: 0 <= k < j ==> |offers[k]| == p.n && Smallest(offers[k], Dists(p, xs[k], Shapes(p.c)), p.n)
      invariant Smallest(ndist[..], Pads(p.n) + Offered(dists, xs, offers, j), p.n)
      invariant AreCandidates(p, dists, xs, ndist[..], bestNind[..], bestNtarget[..])
    {
      var x := Part(ot, j, Base(p.c, i), p.c.subvectSize);
      ghost var u, d := Pads(p.n) + Offered(dists, xs, offers, j), [];
      d := OfferBest(p, dists, xs, j, odist[j], x, nbest, bestDist, ndist, bestNind, bestNtarget, u);
      OfferedMore(dists, xs, offers, d, Pads(p.n));
      offers := offers + [d];
      if i == 0 { break; }
    }
  }

  // The n best codewords for survivor j go to the list.
  method OfferBest(p: Problem, ghost dists: seq<int>, ghost xs: seq<seq<int>>, j: nat, dist: int, x: seq<int>,
                   nbest: array<int>, bestDist: array<int>, ndist: array<int>, bestNind: array<int>,
                       bestNtarget: array<int>,
                   ghost u: multiset<int>) returns (ghost d: seq<int>)
    requires IsProblem(p) && |dists| == |xs| && (forall j :: 0 <= j < |xs| ==> |xs[j]| == p.c.subvectSize)
    requires j < |xs| && x == xs[j] && dist == dists[j]
    requires nbest.Length == bestDist.Length == ndist.Length == bestNind.Length == bestNtarget.Length == p.n
    requires ndist != bestNind && ndist != bestNtarget && bestNind != bestNtarget && nbest != bestDist
    requires nbest !in {ndist, bestNind, bestNtarget} && bestDist !in {ndist, bestNind, bestNtarget}
    requires Smallest(ndist[..], u, p.n) && AreCandidates(p, dists, xs, ndist[..], bestNind[..], bestNtarget[..])
    modifies nbest, bestDist, ndist, bestNind, bestNtarget
    ensures |d| == p.n && Smallest(d, Dists(p, x, Shapes(p.c)), p.n)
    ensures Smallest(ndist[..], u + multiset(Errors(dist, x, d)), p.n)
    ensures AreCandidates(p, dists, xs, ndist[..], bestNind[..], bestNtarget[..])
  {
    hide Smallest, AreCandidates, IsCandidate, Errors, Ranked, Dist, Dists;
    Nbest(p, x, nbest, bestDist);
    d := bestDist[..];
    RankedSmallest(p, x, nbest[..], d);
    OfferFrom(p, dists, xs, j, dist, x, nbest, bestDist, ndist, bestNind, bestNtarget, u);
  }

  // "erase" the list
  method Erase(ndist: array<int>, bestNind: array<int>, bestNtarget: array<int>)
    requires ndist.Length == bestNind.Length == bestNtarget.Length
    requires ndist != bestNind && ndist != bestNtarget && bestNind != bestNtarget
    modifies ndist, bestNind, bestNtarget
    ensures forall k :: 0 <= k < ndist.Length ==> IsPad(ndist[k], bestNind[k], bestNtarget[k])
  {
    for j := 0 to ndist.Length
      invariant forall k :: 0 <= k < j ==> IsPad(ndist[k], bestNind[k], bestNtarget[k])
    {
      ndist[j], bestNind[j], bestNtarget[j] := VERY_LARGE32, 0, 0;
    }
  }

  lemma OnlyPads(p: Problem, dists: seq<int>, xs: seq<seq<int>>, err: seq<int>, index: seq<int>, parent: seq<int>)
    requires IsProblem(p) && |dists| == |xs| && forall j :: 0 <= j < |xs| ==> |xs[j]| == p.c.subvectSize
    requires |err| == |index| == |parent| == p.n && forall k :: 0 <= k < p.n ==> IsPad(err[k], index[k], parent[k])
    ensures Smallest(err, Pads(p.n) + Offered(dists, xs, [], 0), p.n) && AreCandidates(p, dists, xs, err, index, parent)
  {
    assert err == seq(p.n, _ => VERY_LARGE32);
    assert Pads(p.n) + multiset{} == Pads(p.n);
  }

  lemma RankedSmallest(p: Problem, x: seq<int>, nbest: seq<int>, bestDist: seq<int>)
    requires IsProblem(p) && |x| == p.c.subvectSize && |nbest| == |bestDist| == p.n
    requires Ranked(p, x, Shapes(p.c), nbest, bestDist, p.n)
    ensures Smallest(bestDist, Dists(p, x, Shapes(p.c)), p.n)
  {
    assert bestDist[..p.n] == bestDist;
  }

  lemma OfferedMore(dists: seq<int>, xs: seq<seq<int>>, offers: seq<seq<int>>, d: seq<int>, u: multiset<int>)
    requires |offers| < |dists| == |xs|
    ensures var j := |offers|;
            u + Offered(dists, xs, offers + [d], j + 1)
                == u + Offered(dists, xs, offers, j) + multiset(Errors(dists[j], xs[j], d))
  {
    hide Errors;
    SameOffers(dists, xs, offers, offers + [d], |offers|);
  }

  lemma {:induction false} SameOffers(dists: seq<int>, xs: seq<seq<int>>, a: seq<seq<int>>, b: seq<seq<int>>, j: nat)
    requires j <= |dists| == |xs| && j <= |a| && j <= |b| && a[..j] == b[..j]
    ensures Offered(dists, xs, a, j) == Offered(dists, xs, b, j)
  {
    hide Errors;
    if j > 0 {
      assert a[j - 1] == a[..j][j - 1] == b[j - 1] && a[..j - 1] == a[..j][..j - 1] == b[..j - 1];
      SameOffers(dists, xs, a, b, j - 1);
    }
  }
}
