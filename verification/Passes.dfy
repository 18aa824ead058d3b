/** The unrolled in-place butterfly passes of kiss_fft.c (radix 2, 3, 4 and 5), one block at a time. */
module Passes {
  import opened Arith
  import opened Columns
  import opened Complex
  import opened Twiddles
  import opened FftSpec
  import opened Butterflies
  import opened Radix

  // The samples x of a column turned by the twiddles at multiples of t.
  ghost function Turn(x: seq<Cpx>, tw: seq<Cpx>, t: nat): (y: seq<Cpx>)
    ensures |y| == |x|
  {
    seq(|x|, q requires 0 <= q < |x| => if q == 0 then x[0] else Mul(x[q], At(tw, q * t)))
  }

  // The p samples of column u of the block at base.
  ghost function ColumnOf(s: seq<Cpx>, base: nat, p: nat, m: nat, u: nat): (x: seq<Cpx>)
    ensures |x| == p
  {
    seq(p, q => At(s, base + u + q * m))
  }

  ghost predicate IsColumn(x: seq<Cpx>, was: seq<Cpx>, base: nat, m: nat, u: nat) {
    forall q :: 0 <= q < |x| ==> x[q] == At(was, base + u + q * m)
  }

  ghost predicate ColumnTarget(target: int -> Cpx, m: nat, u: nat, z: seq<Cpx>) {
    forall q :: 0 <= q < |z| ==> target(u + q * m) == z[q]
  }

  lemma TwiddleIndex(step: nat, p: nat, m: nat, u: nat, q: nat)
    requires step * p * m > 0 && u < m && q < p
    ensures 0 <= q * (step * u) < step * p * m && step * q * u == q * (step * u)
  {
    assert q * (step * u) == step * (q * u) == step * q * u;
    assert 0 <= q * u < p * m by { MulLe(u, m, q); MulLe(q + 1, p, m); MulLe(0, q, u); }
    ScaledRange(step, q * u, p * m) by { StepLength(step, p, m); }
    StepLength(step, p, m);
  }

  lemma ScaledRange(step: nat, a: int, b: int)
    requires 0 <= a < b && step * b > 0
    ensures 0 <= step * a < step * b
  {
    assert step > 0;
    MulLe(0, a, step);
    MulLe(a + 1, b, step);
  }

  lemma TurnedFirst(was: seq<Cpx>, base: nat, m: nat, step: nat, tw: seq<Cpx>, u: nat)
    requires |tw| > 0 && tw[0] == ONE
    ensures Turned(was, base, m, step, tw, u, 0) == At(was, base + u + 0 * m)
  {
    assert step * 0 * u == 0 && 0 % |tw| == 0;
    assert Turned(was, base, m, step, tw, u, 0) == Mul(At(was, base + u + 0 * m), ONE);
  }

  lemma TurnedLater(was: seq<Cpx>, base: nat, p: nat, m: nat, step: nat, tw: seq<Cpx>, u: nat, q: nat)
    requires step * p * m == |tw| > 0 && u < m && q < p
    ensures 0 <= q * (step * u) < |tw|
    ensures Turned(was, base, m, step, tw, u, q) == Mul(At(was, base + u + q * m), tw[q * (step * u)])
  {
    TwiddleIndex(step, p, m, u, q);
    DivModUnique(step * q * u, 0, q * (step * u), |tw|);
  }

  lemma ColumnIsTurned(was: seq<Cpx>, base: nat, p: nat, m: nat, step: nat, tw: seq<Cpx>, inverse: bool, u: nat, t: nat)
    requires IsTwiddles(tw, inverse) && p > 0 && step * p * m == |tw| && u < m && t == step * u
    ensures IsTurned(Turn(ColumnOf(was, base, p, m, u), tw, t), was, base, m, step, tw, u)
  {
    var y := Turn(ColumnOf(was, base, p, m, u), tw, t);
    TurnedFirst(was, base, m, step, tw, u);
    forall q | 0 < q < p ensures y[q] == Turned(was, base, m, step, tw, u, q) {
      TurnedLater(was, base, p, m, step, tw, u, q);
    }
  }

  // Writing the p target values of column u completes it.
  lemma ColumnWritten(after: seq<Cpx>, before: seq<Cpx>, was: seq<Cpx>, base: nat, p: nat, m: nat,
                      target: int -> Cpx, u: nat, z: seq<Cpx>)
    requires u < m && |z| == p && base + p * m <= |was|
    requires Progress(before, was, base, p * m, m, target, u)
    requires OnlyColumn(after, before, base, p * m, m, u)
    requires IsColumn(z, after, base, m, u) && ColumnTarget(target, m, u, z)
    ensures Progress(after, was, base, p * m, m, target, u + 1)
  {
    forall q: nat | q < p ensures BinDone(after, base, m, target, u, q) {
      ColumnIndex(base, p, m, u, q);
      assert z[q] == At(after, base + u + q * m);
      assert target(u + q * m) == z[q];
    }
    ColumnDone(after, before, was, base, p, m, target, u);
  }

  // Replacing column u of the block by the small DFT of its turned samples completes it.
  lemma ColumnPass(after: seq<Cpx>, before: seq<Cpx>, was: seq<Cpx>, base: nat, p: nat, m: nat, step: nat,
                   tw: seq<Cpx>, inverse: bool, target: int -> Cpx, u: nat, t: nat,
                   y: seq<Cpx>, z: seq<Cpx>, roots: seq<Cpx>, c: seq<seq<Cpx>>)
    requires IsTwiddles(tw, inverse) && Fits(|was|, base, p, m, step, tw) && u < m && t == step * u
    requires IsTarget(target, was, base, p, m, step, tw) && Progress(before, was, base, p * m, m, target, u)
    requires y == Turn(ColumnOf(before, base, p, m, u), tw, t)
    requires IsRoots(roots, tw, step * m) && IsSmallDft(z, y, roots, c)
    requires OnlyColumn(after, before, base, p * m, m, u) && IsColumn(z, after, base, m, u)
    ensures Progress(after, was, base, p * m, m, target, u + 1)
  {
    hide IsTwiddles, IsTarget, Progress, IsRoots, OnlyColumn, IsColumn, Turn;
    SameColumn(before, was, base, p, m, target, u);
    ColumnIsTurned(was, base, p, m, step, tw, inverse, u, t);
    forall q | 0 <= q < p ensures target(u + q * m) == z[q] {
      BinIsDot(was, base, m, step, tw, inverse, target, u, q, u + q * m, y, roots, c[q]);
    }
    ColumnWritten(after, before, was, base, p, m, target, u, z);
  }

  lemma SameColumn(before: seq<Cpx>, was: seq<Cpx>, base: nat, p: nat, m: nat, target: int -> Cpx, u: nat)
    requires u < m && base + p * m <= |was| && Progress(before, was, base, p * m, m, target, u)
    ensures ColumnOf(before, base, p, m, u) == ColumnOf(was, base, p, m, u)
  {
    forall q | 0 <= q < p ensures At(before, base + u + q * m) == At(was, base + u + q * m) {
      Untouched(before, was, base, p, m, target, u, q);
    }
  }

  ghost function Written4(s: seq<Cpx>, f: nat, m: nat, tw1: Cpx, tw2: Cpx, tw3: Cpx, inverse: bool): seq<Cpx>
    requires f + 3 * m < |s|
  {
    var z := Quad([s[f], Mul(s[f + m], tw1), Mul(s[f + 2 * m], tw2), Mul(s[f + 3 * m], tw3)], inverse);
    s[f := z[0]][f + m := z[1]][f + 2 * m := z[2]][f + 3 * m := z[3]]
  }

  // The body of the inner loop of kf_bfly4: four samples, turned by three twiddles, become four bins.
  method Butterfly4(a: array<Cpx>, fout: nat, m: nat, tw1: Cpx, tw2: Cpx, tw3: Cpx, inverse: bool)
    requires m > 0 && fout + 3 * m < a.Length
    modifies a
    ensures a[..] == Written4(old(a[..]), fout, m, tw1, tw2, tw3, inverse)
  {
    hide Mul;
    var scratch0 := Mul(a[fout + m], tw1);
    var scratch1 := Mul(a[fout + 2 * m], tw2);
    var scratch2 := Mul(a[fout + 3 * m], tw3);
    var scratch5 := Sub(a[fout], scratch1);
    a[fout] := Add(a[fout], scratch1);
    var scratch3 := Add(scratch0, scratch2);
    var scratch4 := Sub(scratch0, scratch2);
    a[fout + 2 * m] := Sub(a[fout], scratch3);
    a[fout] := Add(a[fout], scratch3);
    if inverse {
      a[fout + m] := Cpx(scratch5.r - scratch4.i, scratch5.i + scratch4.r);
      a[fout + 3 * m] := Cpx(scratch5.r + scratch4.i, scratch5.i - scratch4.r);
    } else {
      a[fout + m] := Cpx(scratch5.r + scratch4.i, scratch5.i - scratch4.r);
      a[fout + 3 * m] := Cpx(scratch5.r - scratch4.i, scratch5.i + scratch4.r);
    }
  }

  lemma RootStep(step: nat, p: nat, m: nat, n: nat)
    requires n == step * p * m
    ensures step * m >= 0 && p * (step * m) == n
  {
    assert step * p * m == p * (step * m);
  }

  // Four writes at the positions of column u leave the other columns alone.
  lemma IsColumn4(after: seq<Cpx>, before: seq<Cpx>, base: nat, m: nat, u: nat, z: seq<Cpx>)
    requires u < m && |z| == 4 && base + 4 * m <= |before|
    requires var f := base + u;
             after == before[f := z[0]][f + m := z[1]][f + 2 * m := z[2]][f + 3 * m := z[3]]
    ensures IsColumn(z, after, base, m, u)
  {
    forall q | 0 <= q < 4 ensures z[q] == At(after, base + u + q * m) {
      assert q * m == if q == 0 then 0 else if q == 1 then m else if q == 2 then 2 * m else 3 * m;
    }
  }

  lemma Column4Only(after: seq<Cpx>, before: seq<Cpx>, base: nat, m: nat, u: nat, z: seq<Cpx>)
    requires u < m && |z| == 4 && base + 4 * m <= |before|
    requires var f := base + u;
             after == before[f := z[0]][f + m := z[1]][f + 2 * m := z[2]][f + 3 * m := z[3]]
    ensures OnlyColumn(after, before, base, 4 * m, m, u) && IsColumn(z, after, base, m, u)
  {
    hide InColumn;
    ColumnSpot(base, 4, m, u, 0);
    ColumnSpot(base, 4, m, u, 1);
    ColumnSpot(base, 4, m, u, 2);
    ColumnSpot(base, 4, m, u, 3);
    IsColumn4(after, before, base, m, u, z);
  }

  // Sample q of a column, turned.
  lemma TurnedAt(s: seq<Cpx>, base: nat, p: nat, m: nat, u: nat, tw: seq<Cpx>, t: nat, q: nat, i: nat, k: nat)
    requires q < p && i == q * m && k == q * t && base + u + i < |s| && k < |tw|
    ensures Turn(ColumnOf(s, base, p, m, u), tw, t)[q] == if q == 0 then s[base + u] else Mul(s[base + u + i], tw[k])
  {
    hide Mul;
  }

  lemma Turn4(s: seq<Cpx>, base: nat, m: nat, u: nat, tw: seq<Cpx>, t: nat)
    requires base + u + 3 * m < |s| && 3 * t < |tw|
    ensures var f := base + u;
            Turn(ColumnOf(s, base, 4, m, u), tw, t)
            == [s[f], Mul(s[f + m], tw[t]), Mul(s[f + 2 * m], tw[2 * t]), Mul(s[f + 3 * m], tw[3 * t])]
  {
    hide Turn, ColumnOf, Mul;
    TurnedAt(s, base, 4, m, u, tw, t, 0, 0, 0);
    TurnedAt(s, base, 4, m, u, tw, t, 1, m, t);
    TurnedAt(s, base, 4, m, u, tw, t, 2, 2 * m, 2 * t);
    TurnedAt(s, base, 4, m, u, tw, t, 3, 3 * m, 3 * t);
  }

  // One pass of the inner loop of kf_bfly4 completes column u.
  lemma Column4Done(after: seq<Cpx>, before: seq<Cpx>, was: seq<Cpx>, base: nat, m: nat, step: nat, tw: seq<Cpx>,
                    inverse: bool, target: int -> Cpx, u: nat, t: nat, t2: nat, t3: nat)
    requires IsTwiddles(tw, inverse) && Fits(|was|, base, 4, m, step, tw) && u < m
    requires t == step * u && t2 == 2 * t && t3 == 3 * t < |tw|
    requires IsTarget(target, was, base, 4, m, step, tw) && Progress(before, was, base, 4 * m, m, target, u)
    requires after == Written4(before, base + u, m, tw[t], tw[t2], tw[t3], inverse)
    ensures Progress(after, was, base, 4 * m, m, target, u + 1)
  {
    Turn4(before, base, m, u, tw, t);
    var y := Turn(ColumnOf(before, base, 4, m, u), tw, t);
    var z := Quad(y, inverse);
    Column4Only(after, before, base, m, u, z);
    RootStep(step, 4, m, |tw|);
    Roots4Are(tw, inverse, step * m);
    QuadIsSmallDft(y, inverse);
    ColumnPass(after, before, was, base, 4, m, step, tw, inverse, target, u, t, y, z, Roots4(inverse),
               [[ONE, ONE, ONE, ONE], Roots4(inverse), [ONE, Neg(ONE), ONE, Neg(ONE)], Roots4(!inverse)]);
  }

  lemma TwiddleRange(step: nat, p: nat, m: nat, n: nat, u: nat, t: nat)
    requires n == step * p * m > 0 && u < m && t == step * u
    ensures 0 <= (p - 1) * t < n && t + step == step * (u + 1)
  {
    TwiddleIndex(step, p, m, u, p - 1);
  }

  // One block of kf_bfly4.
  method Block4(a: array<Cpx>, base: nat, step: nat, tw: seq<Cpx>, inverse: bool, m: nat)
    requires IsTwiddles(tw, inverse) && Fits(a.Length, base, 4, m, step, tw)
    modifies a
    ensures Combined(a[..], old(a[..]), base, 4, m, step, tw)
  {
    hide IsTwiddles, IsTarget, Written4, Combined, Progress;
    ghost var was := a[..];
    ghost var target := MakeTarget(was, base, 4, m, step, tw);
    NoColumn(was, base, 4 * m, m, target);
    var tw1, tw2, tw3 := 0, 0, 0;
    for j := 0 to m
      invariant tw1 == step * j && tw2 == 2 * tw1 && tw3 == 3 * tw1
      invariant |a[..]| == |was| && Progress(a[..], was, base, 4 * m, m, target, j)
    {
      ghost var before := a[..];
      TwiddleRange(step, 4, m, |tw|, j, tw1);
      Butterfly4(a, base + j, m, tw[tw1], tw[tw2], tw[tw3], inverse);
      Column4Done(a[..], before, was, base, m, step, tw, inverse, target, j, tw1, tw2, tw3);
      tw1, tw2, tw3 := tw1 + step, tw2 + step * 2, tw3 + step * 3;
    }
    TargetReached(a[..], was, base, 4, m, step, tw, target);
  }

  // ---------- radix 2 ----------

  ghost function Written2(s: seq<Cpx>, f: nat, m: nat, tw1: Cpx): seq<Cpx>
    requires f + m < |s|
  {
    var z := Pair([s[f], Mul(s[f + m], tw1)]);
    s[f := z[0]][f + m := z[1]]
  }

  // The body of the inner loop of kf_bfly2, in its forward and in its inverse branch.
  method Butterfly2(a: array<Cpx>, fout: nat, m: nat, tw1: Cpx, inverse: bool)
    requires m > 0 && fout + m < a.Length
    modifies a
    ensures a[..] == Written2(old(a[..]), fout, m, tw1)
  {
    var fout2 := fout + m;
    if !inverse {
      var tr := a[fout2].r * tw1.r - a[fout2].i * tw1.i;
      var ti := a[fout2].i * tw1.r + a[fout2].r * tw1.i;
      assert Cpx(tr, ti) == Mul(a[fout2], tw1);
      a[fout2] := Cpx(a[fout].r - tr, a[fout].i - ti);
      a[fout] := Cpx(a[fout].r + tr, a[fout].i + ti);
    } else {
      var t := Mul(a[fout2], tw1);
      a[fout2] := Sub(a[fout], t);
      a[fout] := Add(a[fout], t);
    }
  }

  lemma Column2Done(after: seq<Cpx>, before: seq<Cpx>, was: seq<Cpx>, base: nat, m: nat, step: nat, tw: seq<Cpx>,
                    inverse: bool, target: int -> Cpx, u: nat, t: nat)
    requires IsTwiddles(tw, inverse) && Fits(|was|, base, 2, m, step, tw) && u < m
    requires t == step * u < |tw|
    requires IsTarget(target, was, base, 2, m, step, tw) && Progress(before, was, base, 2 * m, m, target, u)
    requires after == Written2(before, base + u, m, tw[t])
    ensures Progress(after, was, base, 2 * m, m, target, u + 1)
  {
    var x, y := ColumnOf(before, base, 2, m, u), Turn(ColumnOf(before, base, 2, m, u), tw, t);
    assert x[0] == before[base + u] && x[1] == before[base + u + m];
    assert y == [before[base + u], Mul(before[base + u + m], tw[t])];
    Column2Only(after, before, base, m, u, Pair(y));
    RootStep(step, 2, m, |tw|);
    Roots2Are(tw, inverse, step * m);
    PairIsDft(y);
    ColumnPass(after, before, was, base, 2, m, step, tw, inverse, target, u, t, y, Pair(y), ROOTS2,
        [[ONE, ONE], ROOTS2]);
  }

  lemma Column2Only(after: seq<Cpx>, before: seq<Cpx>, base: nat, m: nat, u: nat, z: seq<Cpx>)
    requires u < m && |z| == 2 && base + 2 * m <= |before|
    requires after == before[base + u := z[0]][base + u + m := z[1]]
    ensures OnlyColumn(after, before, base, 2 * m, m, u) && IsColumn(z, after, base, m, u)
  {
    hide InColumn;
    ColumnSpot(base, 2, m, u, 0);
    ColumnSpot(base, 2, m, u, 1);
  }

  // One block of kf_bfly2.
  method Block2(a: array<Cpx>, base: nat, step: nat, tw: seq<Cpx>, inverse: bool, m: nat)
    requires IsTwiddles(tw, inverse) && Fits(a.Length, base, 2, m, step, tw)
    modifies a
    ensures Combined(a[..], old(a[..]), base, 2, m, step, tw)
  {
    hide IsTwiddles, IsTarget, Progress, Written2;
    ghost var was := a[..];
    ghost var target := MakeTarget(was, base, 2, m, step, tw);
    NoColumn(was, base, 2 * m, m, target);
    var tw1 := 0;
    for j := 0 to m
      invariant tw1 == step * j
      invariant |a[..]| == |was| && Progress(a[..], was, base, 2 * m, m, target, j)
    {
      ghost var before := a[..];
      TwiddleRange(step, 2, m, |tw|, j, tw1);
      Butterfly2(a, base + j, m, tw[tw1], inverse);
      Column2Done(a[..], before, was, base, m, step, tw, inverse, target, j, tw1);
      tw1 := tw1 + step;
    }
    TargetReached(a[..], was, base, 2, m, step, tw, target);
  }

  // ---------- radix 3 ----------

  ghost function Written3(s: seq<Cpx>, f: nat, m: nat, tw1: Cpx, tw2: Cpx, e: real): seq<Cpx>
    requires f + 2 * m < |s|
  {
    var z := Triple([s[f], Mul(s[f + m], tw1), Mul(s[f + 2 * m], tw2)], e);
    s[f := z[0]][f + m := z[1]][f + 2 * m := z[2]]
  }

  // The body of the loop of kf_bfly3.
  method Butterfly3(a: array<Cpx>, fout: nat, m: nat, tw1: Cpx, tw2: Cpx, epi3: Cpx)
    requires m > 0 && fout + 2 * m < a.Length
    modifies a
    ensures a[..] == Written3(old(a[..]), fout, m, tw1, tw2, epi3.i)
  {
    var m2 := 2 * m;
    var scratch1 := Mul(a[fout + m], tw1);
    var scratch2 := Mul(a[fout + m2], tw2);
    var z := Triple([a[fout], scratch1, scratch2], epi3.i);
    a[fout], a[fout + m], a[fout + m2] := z[0], z[1], z[2];
  }

  lemma Column3Done(after: seq<Cpx>, before: seq<Cpx>, was: seq<Cpx>, base: nat, m: nat, step: nat, tw: seq<Cpx>,
                    inverse: bool, target: int -> Cpx, u: nat, t: nat, t2: nat, h: nat)
    requires IsTwiddles(tw, inverse) && Fits(|was|, base, 3, m, step, tw) && u < m
    requires t == step * u && t2 == 2 * t < |tw| && h == step * m < |tw|
    requires IsTarget(target, was, base, 3, m, step, tw) && Progress(before, was, base, 3 * m, m, target, u)
    requires after == Written3(before, base + u, m, tw[t], tw[t2], tw[h].i)
    ensures Progress(after, was, base, 3 * m, m, target, u + 1)
  {
    var e := tw[h].i;
    Turn3(before, base, m, u, tw, t);
    var y := Turn(ColumnOf(before, base, 3, m, u), tw, t);
    Column3Only(after, before, base, m, u, Triple(y, e));
    RootStep(step, 3, m, |tw|);
    Roots3Are(tw, inverse, h);
    WDirect(tw, h);
    TripleIsSmallDft(y, e);
    ColumnPass(after, before, was, base, 3, m, step, tw, inverse, target, u, t, y, Triple(y, e), Roots3(e),
               [[ONE, ONE, ONE], Roots3(e), Roots3(-e)]);
  }

  lemma Turn3(s: seq<Cpx>, base: nat, m: nat, u: nat, tw: seq<Cpx>, t: nat)
    requires base + u + 2 * m < |s| && 2 * t < |tw|
    ensures var f := base + u;
            Turn(ColumnOf(s, base, 3, m, u), tw, t) == [s[f], Mul(s[f + m], tw[t]), Mul(s[f + 2 * m], tw[2 * t])]
  {
    hide Turn, ColumnOf, Mul;
    TurnedAt(s, base, 3, m, u, tw, t, 0, 0, 0);
    TurnedAt(s, base, 3, m, u, tw, t, 1, m, t);
    TurnedAt(s, base, 3, m, u, tw, t, 2, 2 * m, 2 * t);
  }

  lemma Column3Only(after: seq<Cpx>, before: seq<Cpx>, base: nat, m: nat, u: nat, z: seq<Cpx>)
    requires u < m && |z| == 3 && base + 3 * m <= |before|
    requires after == before[base + u := z[0]][base + u + m := z[1]][base + u + 2 * m := z[2]]
    ensures OnlyColumn(after, before, base, 3 * m, m, u) && IsColumn(z, after, base, m, u)
  {
    hide InColumn;
    ColumnSpot(base, 3, m, u, 0);
    ColumnSpot(base, 3, m, u, 1);
    ColumnSpot(base, 3, m, u, 2);
  }

  // kf_bfly3; its do-while loop runs at least once.
  method Bfly3(a: array<Cpx>, base: nat, step: nat, tw: seq<Cpx>, ghost inverse: bool, m: nat)
    requires IsTwiddles(tw, inverse) && Fits(a.Length, base, 3, m, step, tw)
    modifies a
    ensures Combined(a[..], old(a[..]), base, 3, m, step, tw)
  {
    ghost var was := a[..];
    ghost var target := MakeTarget(was, base, 3, m, step, tw);
    NoColumn(was, base, 3 * m, m, target);
    RootIndex(step, 3, m, 1, |tw|);
    var h := step * m;
    var epi3 := tw[h];
    var k, fout, tw1, tw2 := m, base, 0, 0;
    while true
      invariant 0 < k <= m && fout == base + (m - k)
      invariant tw1 == step * (m - k) && tw2 == 2 * tw1
      invariant |a[..]| == |was| && Progress(a[..], was, base, 3 * m, m, target, m - k)
      decreases k
    {
      ghost var before, u := a[..], m - k;
      TwiddleRange(step, 3, m, |tw|, u, tw1);
      Butterfly3(a, fout, m, tw[tw1], tw[tw2], epi3);
      Column3Done(a[..], before, was, base, m, step, tw, inverse, target, u, tw1, tw2, h);
      tw1, tw2 := tw1 + step, tw2 + step * 2;
      fout := fout + 1;
      k := k - 1;
      if k == 0 { break; }
    }
    TargetReached(a[..], was, base, 3, m, step, tw, target);
  }

  lemma RootIndex(step: nat, p: nat, m: nat, q: nat, n: nat)
    requires n == step * p * m > 0 && q < p
    ensures 0 <= q * (step * m) < n && step * q * m == q * (step * m)
  {
    RootStep(step, p, m, n);
    MulLe(q + 1, p, step * m);
    assert step * m > 0;
  }

  // ---------- radix 5 ----------

  ghost function Written5(s: seq<Cpx>, f: nat, m: nat, tw1: Cpx, tw2: Cpx, tw3: Cpx, tw4: Cpx, ya: Cpx,
                          yb: Cpx): seq<Cpx>
    requires f + 4 * m < |s|
  {
    var z := Quint([s[f], Mul(s[f + m], tw1), Mul(s[f + 2 * m], tw2), Mul(s[f + 3 * m], tw3), Mul(s[f + 4 * m], tw4)],
        ya, yb);
    s[f := z[0]][f + m := z[1]][f + 2 * m := z[2]][f + 3 * m := z[3]][f + 4 * m := z[4]]
  }

  // The body of the loop of kf_bfly5.
  method Butterfly5(a: array<Cpx>, fout0: nat, m: nat, tw1: Cpx, tw2: Cpx, tw3: Cpx, tw4: Cpx, ya: Cpx, yb: Cpx)
    requires m > 0 && fout0 + 4 * m < a.Length
    modifies a
    ensures a[..] == Written5(old(a[..]), fout0, m, tw1, tw2, tw3, tw4, ya, yb)
  {
    var fout1, fout2, fout3, fout4 := fout0 + m, fout0 + 2 * m, fout0 + 3 * m, fout0 + 4 * m;
    var scratch0 := a[fout0];
    var scratch1 := Mul(a[fout1], tw1);
    var scratch2 := Mul(a[fout2], tw2);
    var scratch3 := Mul(a[fout3], tw3);
    var scratch4 := Mul(a[fout4], tw4);
    var z := Quint([scratch0, scratch1, scratch2, scratch3, scratch4], ya, yb);
    a[fout0], a[fout1], a[fout2], a[fout3], a[fout4] := z[0], z[1], z[2], z[3], z[4];
  }

  lemma Column5Done(after: seq<Cpx>, before: seq<Cpx>, was: seq<Cpx>, base: nat, m: nat, step: nat, tw: seq<Cpx>,
                    inverse: bool, target: int -> Cpx, u: nat, t: nat, h: nat)
    requires IsTwiddles(tw, inverse) && Fits(|was|, base, 5, m, step, tw) && u < m
    requires t == step * u && 4 * t < |tw| && h == step * m && 2 * h < |tw|
    requires IsTarget(target, was, base, 5, m, step, tw) && Progress(before, was, base, 5 * m, m, target, u)
    requires after == Written5(before, base + u, m, tw[t], tw[2 * t], tw[3 * t], tw[4 * t], tw[h], tw[2 * h])
    ensures Progress(after, was, base, 5 * m, m, target, u + 1)
  {
    var ya, yb := tw[h], tw[2 * h];
    Turn5(before, base, m, u, tw, t);
    var y := Turn(ColumnOf(before, base, 5, m, u), tw, t);
    Column5Only(after, before, base, m, u, Quint(y, ya, yb));
    RootStep(step, 5, m, |tw|);
    Roots5Are(tw, inverse, h);
    WDirect(tw, h);
    WDirect(tw, 2 * h);
    QuintIsSmallDft(y, ya, yb);
    ColumnPass(after, before, was, base, 5, m, step, tw, inverse, target, u, t, y, Quint(y, ya, yb), Roots5(ya, yb),
               [ [ONE, ONE, ONE, ONE, ONE], [ONE, ya, yb, Conj(yb), Conj(ya)], [ONE, yb, Conj(ya), ya, Conj(yb)],
                 [ONE, Conj(yb), ya, Conj(ya), yb], [ONE, Conj(ya), Conj(yb), yb, ya] ]);
  }

  lemma Turn5(s: seq<Cpx>, base: nat, m: nat, u: nat, tw: seq<Cpx>, t: nat)
    requires base + u + 4 * m < |s| && 4 * t < |tw|
    ensures var f := base + u;
            Turn(ColumnOf(s, base, 5, m, u), tw, t)
            == [s[f], Mul(s[f + m], tw[t]), Mul(s[f + 2 * m], tw[2 * t]), Mul(s[f + 3 * m], tw[3 * t]),
                Mul(s[f + 4 * m], tw[4 * t])]
  {
    hide Turn, ColumnOf, Mul;
    TurnedAt(s, base, 5, m, u, tw, t, 0, 0, 0);
    TurnedAt(s, base, 5, m, u, tw, t, 1, m, t);
    TurnedAt(s, base, 5, m, u, tw, t, 2, 2 * m, 2 * t);
    TurnedAt(s, base, 5, m, u, tw, t, 3, 3 * m, 3 * t);
    TurnedAt(s, base, 5, m, u, tw, t, 4, 4 * m, 4 * t);
  }

  lemma IsColumn5(after: seq<Cpx>, before: seq<Cpx>, base: nat, m: nat, u: nat, z: seq<Cpx>)
    requires u < m && |z| == 5 && base + 5 * m <= |before|
    requires var f := base + u;
             after == before[f := z[0]][f + m := z[1]][f + 2 * m := z[2]][f + 3 * m := z[3]][f + 4 * m := z[4]]
    ensures IsColumn(z, after, base, m, u)
  {
    forall q | 0 <= q < 5 ensures z[q] == At(after, base + u + q * m) {
      assert q * m == if q == 0 then 0 else if q == 1 then m else if q == 2 then 2 * m else if q == 3 then 3 * m
             else 4 * m;
    }
  }

  lemma Column5Only(after: seq<Cpx>, before: seq<Cpx>, base: nat, m: nat, u: nat, z: seq<Cpx>)
    requires u < m && |z| == 5 && base + 5 * m <= |before|
    requires var f := base + u;
             after == before[f := z[0]][f + m := z[1]][f + 2 * m := z[2]][f + 3 * m := z[3]][f + 4 * m := z[4]]
    ensures OnlyColumn(after, before, base, 5 * m, m, u) && IsColumn(z, after, base, m, u)
  {
    hide InColumn;
    ColumnSpot(base, 5, m, u, 0);
    ColumnSpot(base, 5, m, u, 1);
    ColumnSpot(base, 5, m, u, 2);
    ColumnSpot(base, 5, m, u, 3);
    ColumnSpot(base, 5, m, u, 4);
    IsColumn5(after, before, base, m, u, z);
  }

  method Bfly5(a: array<Cpx>, base: nat, step: nat, tw: seq<Cpx>, ghost inverse: bool, m: nat)
    requires IsTwiddles(tw, inverse) && Fits(a.Length, base, 5, m, step, tw)
    modifies a
    ensures Combined(a[..], old(a[..]), base, 5, m, step, tw)
  {
    hide IsTarget, Combined, Progress, IsTwiddles, Fits;
    ghost var was := a[..];
    SomeColumns(a.Length, base, 5, m, step, tw);
    ghost var target := MakeTarget(was, base, 5, m, step, tw);
    NoColumn(was, base, 5 * m, m, target);
    RootIndex(step, 5, m, 2, |tw|);
    var h := step * m;
    for u := 0 to m
      invariant a.Length == |was| && Progress(a[..], was, base, 5 * m, m, target, u)
    {
      OneColumn5(a, base, step, tw, inverse, m, u, h, was, target);
    }
    TargetReached(a[..], was, base, 5, m, step, tw, target);
  }

  lemma SomeColumns(len: nat, base: nat, p: nat, m: nat, step: nat, tw: seq<Cpx>)
    requires Fits(len, base, p, m, step, tw)
    ensures m > 0 && |tw| == step * p * m > 0
  {
  }

  // One column of the radix-5 stage.
  method OneColumn5(a: array<Cpx>, base: nat, step: nat, tw: seq<Cpx>, ghost inverse: bool, m: nat, u: nat, h: nat,
                    ghost was: seq<Cpx>, ghost target: int -> Cpx)
    requires IsTwiddles(tw, inverse) && Fits(a.Length, base, 5, m, step, tw) && u < m
    requires h == step * m && 2 * h < |tw| && |was| == a.Length
    requires IsTarget(target, was, base, 5, m, step, tw) && Progress(a[..], was, base, 5 * m, m, target, u)
    modifies a
    ensures Progress(a[..], was, base, 5 * m, m, target, u + 1)
  {
    hide IsTarget, Progress, IsTwiddles, Written5;
    ghost var before := a[..];
    var t := step * u;
    TwiddleRange(step, 5, m, |tw|, u, t);
    assert 0 <= t <= 4 * t < |tw|;
    Butterfly5(a, base + u, m, tw[t], tw[2 * t], tw[3 * t], tw[4 * t], tw[h], tw[2 * h]);
    Column5Done(a[..], before, was, base, m, step, tw, inverse, target, u, t, h);
  }
}
