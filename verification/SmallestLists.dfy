/** Sorted lists of bounded length that hold the smallest of the values they were offered. */
module SmallestLists {
  ghost predicate Sorted(s: seq<int>) { forall i, j :: 0 <= i < j < |s| ==> s[i] <= s[j] }

  // s lists the n smallest of the values u, in order; all of them if there are fewer.
  ghost predicate Smallest(s: seq<int>, u: multiset<int>, n: nat) {
    && Sorted(s) && multiset(s) <= u && |s| == (if |u| <= n then |u| else n)
    && forall x, y :: x in u - multiset(s) && y in s ==> y <= x
  }

  // Where x goes: behind everything that is not larger.
  function Place(s: seq<int>, x: int): (pos: nat)
    ensures pos <= |s| && (forall i :: 0 <= i < pos ==> s[i] <= x) && (pos < |s| ==> x < s[pos])
  {
    if s == [] || x < s[0] then 0 else 1 + Place(s[1..], x)
  }

  function Insert(s: seq<int>, x: int): seq<int> {
    s[..Place(s, x)] + [x] + s[Place(s, x)..]
  }

  lemma IsPlace(s: seq<int>, x: int, pos: nat)
    requires pos <= |s| && (forall i :: 0 <= i < pos ==> s[i] <= x) && (pos < |s| ==> x < s[pos])
    ensures Place(s, x) == pos
  {
  }

  // A value no smaller than the last one of a full list does not get in.
  lemma TooLarge(s: seq<int>, x: int)
    requires s != [] && Sorted(s) && s[|s| - 1] <= x
    ensures Capped(Insert(s, x), |s|) == s && Place(s, x) == |s|
  {
    IsPlace(s, x, |s|);
  }

  function Capped(s: seq<int>, n: nat): seq<int> { if |s| <= n then s else s[..n] }

  lemma InsertSorted(s: seq<int>, x: int)
    requires Sorted(s)
    ensures Sorted(Insert(s, x)) && |Insert(s, x)| == |s| + 1
  {
  }

  lemma InsertElements(s: seq<int>, x: int)
    ensures multiset(Insert(s, x)) == multiset(s) + multiset{x}
  {
    var p := Place(s, x);
    assert s == s[..p] + s[p..];
  }

  lemma CutElements(s: seq<int>, n: nat)
    requires n <= |s|
    ensures multiset(s) == multiset(s[..n]) + multiset(s[n..])
  {
    assert s == s[..n] + s[n..];
  }

  // Inserting a value and cutting the list off keeps the smallest ones.
  lemma InsertKeepsSmallest(s: seq<int>, u: multiset<int>, x: int, n: nat)
    requires Smallest(s, u, n)
    ensures Smallest(Capped(Insert(s, x), n), u + multiset{x}, n)
  {
    InsertSorted(s, x);
    InsertElements(s, x);
    if |s| == n {
      CutFull(s, u, x, n);
    } else {
      SameSize(multiset(s), u);
    }
  }

  lemma CutFull(s: seq<int>, u: multiset<int>, x: int, n: nat)
    requires Smallest(s, u, n) && |s| == n && |Insert(s, x)| == n + 1
    requires Sorted(Insert(s, x)) && multiset(Insert(s, x)) == multiset(s) + multiset{x}
    ensures Smallest(Insert(s, x)[..n], u + multiset{x}, n)
  {
    var t := Insert(s, x);
    var c, d := t[..n], t[n];
    LastOff(t, c, d, n);
    LeftOver(u, multiset(s), multiset(c), x, d);
    forall a, b | a in (u - multiset(s)) + multiset{d} && b in c ensures b <= a {
      var i :| 0 <= i < n && c[i] == b;
      if a in u - multiset(s) {
        LeftOutAbove(s, u, x, a, i, n);
      } else {
        assert t[i] <= t[n];
      }
    }
  }

  lemma LastOff(t: seq<int>, c: seq<int>, d: int, n: nat)
    requires |t| == n + 1 && c == t[..n] && d == t[n]
    ensures multiset(t) == multiset(c) + multiset{d}
  {
    assert t == c + [d];
  }

  lemma LeftOver(u: multiset<int>, s: multiset<int>, c: multiset<int>, x: int, d: int)
    requires s <= u && s + multiset{x} == c + multiset{d}
    ensures c <= u + multiset{x} && (u + multiset{x}) - c == (u - s) + multiset{d}
  {
    assert u + multiset{x} == (u - s) + (s + multiset{x});
  }

  lemma SameSize(a: multiset<int>, b: multiset<int>)
    requires a <= b && |a| == |b|
    ensures a == b
  {
    assert b == a + (b - a);
    assert |b - a| == 0;
  }

  // What was left out before is above every value that stays below the cut.
  lemma LeftOutAbove(s: seq<int>, u: multiset<int>, x: int, a: int, i: nat, n: nat)
    requires Smallest(s, u, n) && |s| == n && a in u - multiset(s) && i < n
    ensures Insert(s, x)[i] <= a
  {
    var p := Place(s, x);
    if i < p {
      assert s[i] in s;
    } else if i == p {
      assert s[i] in s && x < s[i];
    } else {
      assert s[i - 1] in s;
    }
  }

  // ---------- shifting ----------

  function Shifted(s: seq<int>, amount: int): (r: seq<int>)
    ensures |r| == |s|
  {
    seq(|s|, i requires 0 <= i < |s| => s[i] + amount)
  }

  lemma {:induction false} ShiftedCount(s: seq<int>, amount: int, v: int)
    ensures multiset(Shifted(s, amount))[v + amount] == multiset(s)[v]
  {
    if s != [] {
      var front, last := s[..|s| - 1], s[|s| - 1];
      ShiftedCount(front, amount, v);
      assert s == front + [last];
      assert Shifted(s, amount) == Shifted(front, amount) + [last + amount];
    }
  }

  lemma ShiftedAll(s: seq<int>, amount: int, x: int)
    ensures multiset(Shifted(s, amount))[x] == multiset(s)[x - amount]
  {
    ShiftedCount(s, amount, x - amount);
  }

  // Shifting all timings shifts the list of the smallest.
  lemma ShiftKeepsSmallest(s: seq<int>, u: seq<int>, amount: int, n: nat)
    requires Smallest(s, multiset(u), n)
    ensures Smallest(Shifted(s, amount), multiset(Shifted(u, amount)), n)
  {
    var s', u' := Shifted(s, amount), Shifted(u, amount);
    assert Sorted(s') && |multiset(u')| == |multiset(u)|;
    forall x ensures multiset(s')[x] <= multiset(u')[x] {
      ShiftedAll(s, amount, x);
      ShiftedAll(u, amount, x);
    }
    forall x, y | x in multiset(u') - multiset(s') && y in s' ensures y <= x {
      ShiftedAll(s, amount, x);
      ShiftedAll(u, amount, x);
      ShiftedMember(s, amount, y);
      assert x - amount in multiset(u) - multiset(s);
    }
  }

  lemma ShiftedMember(s: seq<int>, amount: int, y: int)
    requires y in Shifted(s, amount)
    ensures y - amount in s
  {
  }

  lemma IsSorted(s: seq<int>, u: multiset<int>, n: nat)
    requires Smallest(s, u, n)
    ensures Sorted(s)
  {
  }
}
