/** Merging the three sorted lists of a timing window, and the delay of least cost. */
module JitterMerge {
  import opened SmallestLists

  const MAX_TIMINGS := 40
  const TOP_DELAY := 40
  const LIMIT := 32767

  // m lists the TOP_DELAY smallest of the values u below the limit.
  ghost predicate IsCandidates(m: seq<int>, u: multiset<int>) {
    && Sorted(m) && multiset(m) <= u && |m| <= TOP_DELAY && (forall y :: y in m ==> y < LIMIT)
    && forall x :: x in u - multiset(m) ==> x >= LIMIT || (|m| == TOP_DELAY && forall y :: y in m ==> y <= x)
  }

  // With all values below the limit, they are simply the smallest.
  lemma CandidatesAreSmallest(m: seq<int>, u: multiset<int>)
    requires IsCandidates(m, u) && forall x :: x in u ==> x < LIMIT
    ensures Smallest(m, u, TOP_DELAY)
  {
    assert u == multiset(m) + (u - multiset(m));
    if |m| < TOP_DELAY {
      assert u - multiset(m) == multiset{} by {
        forall x ensures x !in u - multiset(m) {
          assert (u - multiset(m))[x] <= u[x];
        }
      }
    }
  }

  // ---------- the merge ----------

  // Three sorted lists and how far each has been read.
  datatype Heads = Heads(k: seq<seq<int>>, pos: seq<nat>)

  ghost predicate IsHeads(h: Heads) {
    && |h.k| == 3 && |h.pos| == 3
    && forall j :: 0 <= j < 3 ==> Sorted(h.k[j]) && h.pos[j] <= |h.k[j]|
  }

  ghost function Read(h: Heads, j: nat): (s: seq<int>)
    requires IsHeads(h) && j < 3
  {
    h.k[j][..h.pos[j]]
  }

  ghost function Rest(h: Heads, j: nat): (s: seq<int>)
    requires IsHeads(h) && j < 3
  {
    h.k[j][h.pos[j]..]
  }

  // m holds what has been read, in order, and nothing that is left is smaller.
  ghost predicate Merged(h: Heads, m: seq<int>)
    requires IsHeads(h)
  {
    && Sorted(m) && multiset(m) == multiset(Read(h, 0)) + multiset(Read(h, 1)) + multiset(Read(h, 2))
    && forall j, x, y :: 0 <= j < 3 && x in Rest(h, j) && y in m ==> y <= x
  }

  // next is a list whose head is no larger than the other heads.
  ghost predicate LeastHead(h: Heads, next: nat)
    requires IsHeads(h)
  {
    && next < 3 && h.pos[next] < |h.k[next]|
    && forall j :: 0 <= j < 3 && h.pos[j] < |h.k[j]| ==> h.k[next][h.pos[next]] <= h.k[j][h.pos[j]]
  }

  function Advanced(h: Heads, next: nat): Heads
    requires next < |h.pos|
  {
    h.(pos := h.pos[next := h.pos[next] + 1])
  }

  lemma RestAbove(h: Heads, j: nat, x: int)
    requires IsHeads(h) && j < 3 && x in Rest(h, j)
    ensures h.pos[j] < |h.k[j]| && h.k[j][h.pos[j]] <= x
  {
    var i :| 0 <= i < |Rest(h, j)| && Rest(h, j)[i] == x;
    assert x == h.k[j][h.pos[j] + i];
  }

  lemma ReadMore(h: Heads, next: nat, j: nat)
    requires IsHeads(h) && next < 3 && j < 3 && h.pos[next] < |h.k[next]|
    ensures IsHeads(Advanced(h, next))
    ensures multiset(Read(Advanced(h, next), j))
            == multiset(Read(h, j)) + (if j == next then multiset{h.k[next][h.pos[next]]} else multiset{})
  {
    if j == next {
      assert Read(Advanced(h, next), j) == Read(h, j) + [h.k[next][h.pos[next]]];
    }
  }

  lemma MergeStep(h: Heads, m: seq<int>, next: nat)
    requires IsHeads(h) && Merged(h, m) && LeastHead(h, next)
    ensures IsHeads(Advanced(h, next)) && Merged(Advanced(h, next), m + [h.k[next][h.pos[next]]])
  {
    var h', v := Advanced(h, next), h.k[next][h.pos[next]];
    assert v in Rest(h, next) by { assert Rest(h, next)[0] == v; }
    assert forall y :: y in m ==> y <= v;
    SortedMore(m, v);
    forall j, x, y | 0 <= j < 3 && x in Rest(h', j) && y in m + [v] ensures y <= x {
      RestShrinks(h, next, j, x);
      RestAbove(h, j, x);
    }
    hide Sorted, Rest;
    ReadMore(h, next, 0);
    ReadMore(h, next, 1);
    ReadMore(h, next, 2);
    assert multiset(m + [v]) == multiset(m) + multiset{v};
  }

  lemma SortedMore(m: seq<int>, v: int)
    requires Sorted(m) && forall y :: y in m ==> y <= v
    ensures Sorted(m + [v])
  {
    forall i | 0 <= i < |m| ensures m[i] <= v {
      assert m[i] in m;
    }
  }

  lemma RestShrinks(h: Heads, next: nat, j: nat, x: int)
    requires IsHeads(h) && next < 3 && j < 3 && h.pos[next] < |h.k[next]|
    requires x in Rest(Advanced(h, next), j)
    ensures x in Rest(h, j)
  {
    var r := Rest(Advanced(h, next), j);
    var i :| 0 <= i < |r| && r[i] == x;
    assert Rest(h, j)[if j == next then i + 1 else i] == x;
  }

  lemma NothingRead(h: Heads)
    requires IsHeads(h) && h.pos == [0, 0, 0]
    ensures Merged(h, [])
  {
  }

  // ---------- the end of the merge ----------

  // Every list is read up to its end or up to the limit, or enough has been read.
  ghost predicate Finished(h: Heads, m: seq<int>)
    requires IsHeads(h)
  {
    |m| == TOP_DELAY || forall j :: 0 <= j < 3 && h.pos[j] < |h.k[j]| ==> h.k[j][h.pos[j]] >= LIMIT
  }

  ghost predicate AreSmallest(h: Heads, u: seq<multiset<int>>)
    requires IsHeads(h)
  {
    |u| == 3 && forall j :: 0 <= j < 3 ==> Smallest(h.k[j], u[j], MAX_TIMINGS)
  }

  lemma ReadSize(h: Heads, m: seq<int>)
    requires IsHeads(h) && Merged(h, m)
    ensures |m| == h.pos[0] + h.pos[1] + h.pos[2]
  {
    assert |multiset(m)| == |m|;
  }

  // A value that was received but not merged is above the limit or above what was merged.
  lemma UnreadAbove(h: Heads, u: seq<multiset<int>>, m: seq<int>, j: nat, x: int)
    requires IsHeads(h) && AreSmallest(h, u) && Merged(h, m) && Finished(h, m) && |m| <= TOP_DELAY
    requires j < 3 && u[j][x] > multiset(Read(h, j))[x]
    ensures x >= LIMIT || (|m| == TOP_DELAY && forall y :: y in m ==> y <= x)
  {
    var k, p := h.k[j], h.pos[j];
    assert k == k[..p] + k[p..];
    if x in k[p..] {
      RestAbove(h, j, x);
    } else {
      assert multiset(k)[x] == multiset(k[..p])[x];
      assert x in u[j] - multiset(k);
      assert |k| == MAX_TIMINGS by { if |k| < MAX_TIMINGS { SameSize(multiset(k), u[j]); } }
      if p < MAX_TIMINGS {
        assert k[p] in k;
        assert k[p] in Rest(h, j) by { assert Rest(h, j)[0] == k[p]; }
      } else {
        ReadSize(h, m);
        OnlyThis(h, m, j);
      }
    }
  }

  lemma OnlyThis(h: Heads, m: seq<int>, j: nat)
    requires IsHeads(h) && Merged(h, m) && j < 3 && h.pos[j] == |m|
    requires |m| == h.pos[0] + h.pos[1] + h.pos[2]
    ensures forall y :: y in m ==> y in h.k[j]
  {
    assert forall i :: 0 <= i < 3 && i != j ==> Read(h, i) == [];
    forall y | y in m ensures y in h.k[j] {
      assert y in multiset(m);
      assert y in Read(h, j);
    }
  }

  lemma PartsContained(h: Heads, u: seq<multiset<int>>, j: nat)
    requires IsHeads(h) && AreSmallest(h, u) && j < 3
    ensures multiset(Read(h, j)) <= u[j]
  {
    CutElements(h.k[j], h.pos[j]);
  }

  lemma MergeEnd(h: Heads, u: seq<multiset<int>>, m: seq<int>)
    requires IsHeads(h) && AreSmallest(h, u) && Merged(h, m) && Finished(h, m) && |m| <= TOP_DELAY
    requires forall y :: y in m ==> y < LIMIT
    ensures IsCandidates(m, u[0] + u[1] + u[2])
  {
    PartsContained(h, u, 0);
    PartsContained(h, u, 1);
    PartsContained(h, u, 2);
    forall x | x in u[0] + u[1] + u[2] - multiset(m)
      ensures x >= LIMIT || (|m| == TOP_DELAY && forall y :: y in m ==> y <= x)
    {
      if u[0][x] > multiset(Read(h, 0))[x] {
        UnreadAbove(h, u, m, 0, x);
      } else if u[1][x] > multiset(Read(h, 1))[x] {
        UnreadAbove(h, u, m, 1, x);
      } else {
        UnreadAbove(h, u, m, 2, x);
      }
    }
  }
}
