/** Index bookkeeping for a pass that rewrites a block of p*m consecutive elements column by
    column: column u holds the positions base + u + q*m, and bin k of the block becomes target(k). */
module Columns {
  import opened Arith

  // What position i holds when the columns below u are rewritten.
  ghost function ProgressAt<T>(was: seq<T>, base: nat, len: nat, m: nat, target: int -> T, u: nat, i: int): T
    requires m > 0 && 0 <= i < |was|
  {
    if base <= i < base + len && (i - base) % m < u then target(i - base) else was[i]
  }

  ghost predicate Progress<T>(now: seq<T>, was: seq<T>, base: nat, len: nat, m: nat, target: int -> T, u: nat)
    requires m > 0
  {
    |now| == |was| && forall i :: 0 <= i < |was| ==> now[i] == ProgressAt(was, base, len, m, target, u, i)
  }

  // The whole block at base is rewritten, everything else is as it was.
  ghost predicate Rewritten<T>(now: seq<T>, was: seq<T>, base: nat, len: nat, target: int -> T) {
    && |now| == |was|
    && forall i :: 0 <= i < |was| ==> now[i] == if base <= i < base + len then target(i - base) else was[i]
  }

  ghost predicate InColumn(i: int, base: nat, len: nat, m: nat, u: nat)
    requires m > 0
  {
    base <= i < base + len && (i - base) % m == u
  }

  lemma ColumnIndex(base: nat, p: nat, m: nat, u: nat, q: nat)
    requires u < m && q < p
    ensures 0 <= q * m && u + q * m < p * m
    ensures InColumn(base + u + q * m, base, p * m, m, u)
    ensures (u + q * m) / m == q && (u + q * m) % m == u
  {
    FlatIndex(q, u, p, m);
    DivModUnique(u + q * m, q, u, m);
  }

  // Only where the bin lies.
  lemma ColumnSpot(base: nat, p: nat, m: nat, u: nat, q: nat)
    requires u < m && q < p
    ensures 0 <= q * m && u + q * m < p * m && InColumn(base + u + q * m, base, p * m, m, u)
  {
    hide InColumn;
    ColumnIndex(base, p, m, u, q);
  }

  lemma ColumnMember(i: int, base: nat, p: nat, m: nat, u: nat) returns (q: nat)
    requires m > 0 && InColumn(i, base, p * m, m, u)
    ensures q < p && i == base + u + q * m
  {
    FlatSplit(i - base, p, m);
    q := (i - base) / m;
  }

  // An untouched column still holds the original elements.
  lemma Untouched<T>(now: seq<T>, was: seq<T>, base: nat, p: nat, m: nat, target: int -> T, u: nat, q: nat)
    requires u < m && q < p && Progress(now, was, base, p * m, m, target, u) && base + p * m <= |was|
    ensures 0 <= base + u + q * m < |was| && now[base + u + q * m] == was[base + u + q * m]
  {
    ColumnIndex(base, p, m, u, q);
    var i := base + u + q * m;
    assert now[i] == ProgressAt(was, base, p * m, m, target, u, i);
  }

  // Bin u + q*m of the block is rewritten.
  ghost predicate BinDone<T>(now: seq<T>, base: nat, m: nat, target: int -> T, u: nat, q: nat) {
    0 <= base + u + q * m < |now| && now[base + u + q * m] == target(u + q * m)
  }

  ghost predicate OnlyColumn<T>(now: seq<T>, before: seq<T>, base: nat, len: nat, m: nat, u: nat)
    requires m > 0
  {
    |now| == |before| && forall i :: 0 <= i < |now| && !InColumn(i, base, len, m, u) ==> now[i] == before[i]
  }

  // Storing bin q1 of a column keeps the bins before it and the other columns.
  lemma BinStored<T>(now: seq<T>, next: seq<T>, before: seq<T>, base: nat, p: nat, m: nat, target: int -> T,
                     u: nat, q1: nat)
    requires u < m && q1 < p && base + p * m <= |now|
    requires OnlyColumn(now, before, base, p * m, m, u)
    requires forall q: nat :: q < q1 ==> BinDone(now, base, m, target, u, q)
    requires 0 <= base + u + q1 * m < |now| && next == now[base + u + q1 * m := target(u + q1 * m)]
    ensures OnlyColumn(next, before, base, p * m, m, u)
    ensures forall q: nat :: q < q1 + 1 ==> BinDone(next, base, m, target, u, q)
  {
    ColumnIndex(base, p, m, u, q1);
    forall q: nat | q < q1 + 1 ensures BinDone(next, base, m, target, u, q) {
      if q < q1 {
        assert BinDone(now, base, m, target, u, q);
        MulLe(q + 1, q1, m);
        MulDiff(q + 1, q, m);
      }
    }
  }

  // Rewriting every bin of column u makes one more column of progress.
  lemma ColumnDone<T>(after: seq<T>, before: seq<T>, was: seq<T>, base: nat, p: nat, m: nat, target: int -> T, u: nat)
    requires u < m
    requires Progress(before, was, base, p * m, m, target, u)
    requires OnlyColumn(after, before, base, p * m, m, u)
    requires forall q: nat :: q < p ==> BinDone(after, base, m, target, u, q)
    ensures Progress(after, was, base, p * m, m, target, u + 1)
  {
    forall i | 0 <= i < |was| ensures after[i] == ProgressAt(was, base, p * m, m, target, u + 1, i) {
      assert before[i] == ProgressAt(was, base, p * m, m, target, u, i);
      if InColumn(i, base, p * m, m, u) {
        var q := ColumnMember(i, base, p, m, u);
        assert BinDone(after, base, m, target, u, q);
      }
    }
  }

  lemma NoColumn<T>(was: seq<T>, base: nat, len: nat, m: nat, target: int -> T)
    requires m > 0
    ensures Progress(was, was, base, len, m, target, 0)
  {
  }

  lemma AllColumns<T>(now: seq<T>, was: seq<T>, base: nat, len: nat, m: nat, target: int -> T)
    requires m > 0 && Progress(now, was, base, len, m, target, m)
    ensures Rewritten(now, was, base, len, target)
  {
    forall i | 0 <= i < |was|
      ensures now[i] == if base <= i < base + len then target(i - base) else was[i]
    {
      assert now[i] == ProgressAt(was, base, len, m, target, m, i);
    }
  }
}
