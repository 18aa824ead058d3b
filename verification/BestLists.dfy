/** Lists of the best few, kept in parallel arrays: the distances and what they belong to. */
module BestLists {
  import opened SmallestLists

  // x at place pos, and everything from there on moved up by one, the last value falling off.
  function PutAt(s: seq<int>, pos: nat, x: int): (r: seq<int>)
    requires pos < |s|
    ensures |r| == |s|
  {
    s[..pos] + [x] + s[pos..|s| - 1]
  }

  lemma PutElement(s: seq<int>, pos: nat, x: int, k: nat)
    requires pos < |s| && k < |s|
    ensures PutAt(s, pos, x)[k] == if k < pos then s[k] else if k == pos then x else s[k - 1]
  {
  }

  lemma PutIsInsert(s: seq<int>, x: int)
    requires Place(s, x) < |s|
    ensures PutAt(s, Place(s, x), x) == Capped(Insert(s, x), |s|)
  {
  }

  // for (n=N-1;n>m;n--) a[n] = a[n-1]; a[m] = x;
  method MakeRoomFor(a: array<int>, m: nat, x: int)
    requires m < a.Length
    modifies a
    ensures a[..] == PutAt(old(a[..]), m, x)
  {
    ghost var was := a[..];
    var n := a.Length - 1;
    while n > m
      invariant m <= n < a.Length
      invariant forall k :: 0 <= k <= n ==> a[k] == was[k]
      invariant forall k :: n < k < a.Length ==> a[k] == PutAt(was, m, x)[k]
    {
      PutElement(was, m, x, n);
      a[n] := a[n - 1];
      n := n - 1;
    }
    a[m] := x;
    forall k | 0 <= k < a.Length ensures a[k] == PutAt(was, m, x)[k] {
      PutElement(was, m, x, k);
    }
  }

  // One more value offered to a full list that holds the n smallest.
  lemma OfferKeepsSmallest(s: seq<int>, u: multiset<int>, x: int)
    requires s != [] && Smallest(s, u, |s|)
    ensures Sorted(s) && Smallest(if x < s[|s| - 1] then PutAt(s, Place(s, x), x) else s, u + multiset{x}, |s|)
    ensures x < s[|s| - 1] ==> Place(s, x) < |s|
  {
    InsertKeepsSmallest(s, u, x, |s|);
    hide Smallest;
    IsSorted(s, u, |s|);
    if x < s[|s| - 1] {
      SmallBefore(s, x);
      PutIsInsert(s, x);
    } else {
      TooLarge(s, x);
    }
  }

  lemma SmallBefore(s: seq<int>, x: int)
    requires s != [] && x < s[|s| - 1]
    ensures Place(s, x) < |s|
  {
  }

  // The smallest of the smallest: what each of several sources offers may be cut to its n best.
  lemma CutOffers(t: seq<int>, u: multiset<int>, s: seq<int>, w: multiset<int>, n: nat)
    requires Smallest(t, u + multiset(s), n) && Smallest(s, w, n)
    ensures Smallest(t, u + w, n)
  {
    assert u + multiset(s) <= u + w && multiset(t) <= u + w;
    SizeOf(t, u, s, w, n);
    forall x, y | x in (u + w) - multiset(t) && y in t ensures y <= x {
      if x !in (u + multiset(s)) - multiset(t) {
        assert multiset(s)[x] < w[x];
        assert x in w - multiset(s);
        assert |s| == n by { if |s| < n { SameSize(multiset(s), w); } }
        BelowTheCut(t, u, s, x, y, n);
      }
    }
  }

  lemma SizeOf(t: seq<int>, u: multiset<int>, s: seq<int>, w: multiset<int>, n: nat)
    requires Smallest(t, u + multiset(s), n) && Smallest(s, w, n)
    ensures |t| == if |u + w| <= n then |u + w| else n
  {
    assert |multiset(s)| == |s| && |u + multiset(s)| == |u| + |s| && |u + w| == |u| + |w|;
  }

  lemma Counted(s: seq<int>, z: int)
    requires multiset(s)[z] > 0
    ensures z in s
  {
    assert z in multiset(s);
  }

  lemma BelowTheCut(t: seq<int>, u: multiset<int>, s: seq<int>, x: int, y: int, n: nat)
    requires Smallest(t, u + multiset(s), n) && |s| == n && (forall z :: z in s ==> z <= x) && y in t
    ensures y <= x
  {
    if z :| multiset(s)[z] > multiset(t)[z] {
      assert multiset(s)[z] > 0 && z in u + multiset(s) - multiset(t);
      Counted(s, z);
    } else {
      assert |multiset(t)| == |t| && |multiset(s)| == |s|;
      forall z ensures multiset(s)[z] <= multiset(t)[z] {
      }
      assert multiset(s) <= multiset(t);
      SameSize(multiset(s), multiset(t));
      assert multiset(t)[y] > 0;
      Counted(s, y);
    }
  }
}
