/** From line spectral pairs to filter coefficients: the triangle of the fixed-point build and the
    cascade of the other one (lsp.c). */
module LspLpc {
  import opened Arith
  import opened Fixed
  import opened LspPolynomials

  // The arithmetic of the triangle: half an impulse, sums, the product with a 2*cos term, and
  // what happens to a finished coefficient.
  datatype Ops<!T> = Ops(zero: T, half: T, add: (T, T) -> T, sub: (T, T) -> T, mul: (T, T) -> T, round: T -> T)

  // Column k, counted from the first non-trivial one, of row i, for every other frequency from par on.
  function Row<T>(o: Ops<T>, f: seq<T>, par: nat, i: nat, k: nat): T
    requires par <= 1 && 2 * i <= |f| && k <= 2 * i
    decreases i
  {
    if k == 0 || k == 2 * i then o.half
    else if i == 1 then o.sub(o.zero, o.mul(f[par], o.half))
    else
      var g := f[2 * (i - 1) + par];
      var mult := o.mul(g, Row(o, f, par, i - 1, k - 1));
      if k == 2 * i - 1 then o.sub(Row(o, f, par, i - 1, k - 2), mult)
      else o.add(o.sub(Row(o, f, par, i - 1, k), mult), if k == 1 then o.zero else Row(o, f, par, i - 1, k - 2))
  }

  // The row is finished, and the trivial values are where they have to be.
  ghost predicate RowDone<T(!new)>(o: Ops<T>, f: seq<T>, par: nat, x: array2<T>, i: nat)
    requires par <= 1 && 2 * i <= |f| && i < x.Length0 && 2 * i + 3 <= x.Length1
    reads x
  {
    x[i, 1] == o.zero && forall k: nat :: k <= 2 * i ==> x[i, 2 + k] == Row(o, f, par, i, k)
  }

  ghost predicate TrivialDone<T(!new)>(o: Ops<T>, x: array2<T>, i: nat)
    requires i < x.Length0 && 2 * i + 3 <= x.Length1
    reads x
  {
    x[i, 1] == o.zero && x[i, 2] == o.half && x[i, 2 + 2 * i] == o.half
  }

  // The first and the last value of every row, and the zero before it.
  method Trivial<T(!new)>(o: Ops<T>, x: array2<T>, m: nat)
    requires x.Length0 == m + 1 && x.Length1 == 2 * m + 3
    modifies x
    ensures forall i :: 0 <= i <= m ==> TrivialDone(o, x, i)
  {
    hide TrivialDone;
    for i := 0 to m + 1
      invariant forall k :: 0 <= k < i ==> TrivialDone(o, x, k)
    {
      TrivialRow(o, x, i, m);
    }
  }

  method TrivialRow<T(!new)>(o: Ops<T>, x: array2<T>, i: nat, m: nat)
    requires i <= m && x.Length0 == m + 1 && x.Length1 == 2 * m + 3
    modifies x
    ensures TrivialDone(o, x, i) && forall k :: 0 <= k <= m && k != i && old(TrivialDone(o, x, k)) ==>
            TrivialDone(o, x, k)
  {
    x[i, 1] := o.zero;
    x[i, 2] := o.half;
    x[i, 2 + 2 * i] := o.half;
  }

  // One entry of row i + 1: column j + 2 of the source.
  function Entry<T>(o: Ops<T>, g: T, x: array2<T>, i: nat, j: nat): T
    requires 1 <= j <= 2 * i + 1 && i < x.Length0 && 2 * i + 3 <= x.Length1
    reads x
  {
    var mult := o.mul(g, x[i, j + 1]);
    if j == 2 * i + 1 then o.sub(x[i, j], mult) else o.add(o.sub(x[i, j + 2], mult), x[i, j])
  }

  lemma EntryIsNext<T(!new)>(o: Ops<T>, f: seq<T>, par: nat, x: array2<T>, i: nat, j: nat)
    requires par <= 1 && i >= 1 && 2 * (i + 1) <= |f| && i < x.Length0 && 2 * i + 3 <= x.Length1
    requires 1 <= j <= 2 * i + 1 && RowDone(o, f, par, x, i)
    ensures Entry(o, f[2 * i + par], x, i, j) == Row(o, f, par, i + 1, j)
  {
    assert x[i, 2 + (j - 1)] == Row(o, f, par, i, j - 1);
    if j <= 2 * i { assert x[i, 2 + j] == Row(o, f, par, i, j); }
    if j >= 2 { assert x[i, 2 + (j - 2)] == Row(o, f, par, i, j - 2); }
  }

  // "now generate remaining rows", for P and for Q.
  method Rows<T(!new)>(o: Ops<T>, f: seq<T>, xp: array2<T>, xq: array2<T>, m: nat)
    requires m >= 1 && |f| == 2 * m && xp != xq
    requires xp.Length0 == xq.Length0 == m + 1 && xp.Length1 == xq.Length1 == 2 * m + 3
    requires forall i :: 0 <= i <= m ==> TrivialDone(o, xp, i) && TrivialDone(o, xq, i)
    modifies xp, xq
    ensures RowDone(o, f, 0, xp, m) && RowDone(o, f, 1, xq, m)
  {
    SecondRow(o, f, 0, xp, m);
    SecondRow(o, f, 1, xq, m);
    for i := 1 to m
      invariant RowDone(o, f, 0, xp, i) && RowDone(o, f, 1, xq, i)
      invariant forall k :: i <= k <= m ==> TrivialDone(o, xp, k) && TrivialDone(o, xq, k)
    {
      NextRow(o, f, 0, xp, i, i + 1, m);
      NextRow(o, f, 1, xq, i, i + 1, m);
    }
  }

  // "2nd row (first output row) is trivial"
  method SecondRow<T(!new)>(o: Ops<T>, f: seq<T>, par: nat, x: array2<T>, m: nat)
    requires 1 <= m && par <= 1 && |f| == 2 * m && x.Length0 == m + 1 && x.Length1 == 2 * m + 3
    requires forall k :: 0 <= k <= m ==> TrivialDone(o, x, k)
    modifies x
    ensures RowDone(o, f, par, x, 1) && forall k :: 1 <= k <= m ==> TrivialDone(o, x, k)
  {
    assert TrivialDone(o, x, 0) && TrivialDone(o, x, 1);
    x[1, 3] := o.sub(o.zero, o.mul(f[par], x[0, 2]));
    forall k | 1 <= k <= m ensures TrivialDone(o, x, k) {
      assert old(TrivialDone(o, x, k));
    }
  }

  method NextRow<T(!new)>(o: Ops<T>, f: seq<T>, par: nat, x: array2<T>, i: nat, n: nat, m: nat)
    requires 1 <= i < n == i + 1 <= m && par <= 1 && |f| == 2 * m && x.Length0 == m + 1 && x.Length1 == 2 * m + 3
    requires RowDone(o, f, par, x, i) && forall k :: i <= k <= m ==> TrivialDone(o, x, k)
    modifies x
    ensures RowDone(o, f, par, x, n) && forall k :: n <= k <= m ==> TrivialDone(o, x, k)
  {
    hide Row, Entry;
    RowEnds(o, f, par, n);
    for j := 1 to 2 * i + 2
      invariant RowDone(o, f, par, x, i) && forall k :: n <= k <= m ==> TrivialDone(o, x, k)
      invariant forall k: nat :: 1 <= k < j ==> x[n, 2 + k] == Row(o, f, par, n, k)
    {
      EntryIsNext(o, f, par, x, i, j);
      SetEntry(o, x, n, j + 2, Entry(o, f[2 * i + par], x, i, j), m);
    }
    assert TrivialDone(o, x, n);
  }

  lemma RowEnds<T>(o: Ops<T>, f: seq<T>, par: nat, i: nat)
    requires par <= 1 && 2 * i <= |f|
    ensures Row(o, f, par, i, 0) == o.half == Row(o, f, par, i, 2 * i)
  {
  }

  // An entry between the trivial ones.
  method SetEntry<T(!new)>(o: Ops<T>, x: array2<T>, n: nat, at: nat, v: T, m: nat)
    requires n <= m && x.Length0 == m + 1 && x.Length1 == 2 * m + 3 && 2 < at < 2 + 2 * n
    requires forall k :: n <= k <= m ==> TrivialDone(o, x, k)
    modifies x
    ensures forall k :: n <= k <= m ==> TrivialDone(o, x, k)
    ensures x[n, at] == v && forall a, b :: 0 <= a <= m && 0 <= b < 2 * m + 3 && !(a == n && b == at) ==>
            x[a, b] == old(x[a, b])
  {
    x[n, at] := v;
    forall k | n <= k <= m ensures TrivialDone(o, x, k) {
      assert old(TrivialDone(o, x, k));
    }
  }

  // Coefficient j of the last rows and the one before it, which is nothing for the first.
  function Coefficient<T>(o: Ops<T>, f: seq<T>, m: nat, j: nat): T
    requires |f| == 2 * m && 1 <= j <= 2 * m
  {
    var prevP := if j == 1 then o.zero else Row(o, f, 0, m, j - 1);
    var prevQ := if j == 1 then o.zero else Row(o, f, 1, m, j - 1);
    o.round(o.sub(o.add(o.add(Row(o, f, 0, m, j), prevP), Row(o, f, 1, m, j)), prevQ))
  }

  // lsp_to_lpc of the fixed-point build, with the 2*cos terms of the frequencies in f
  method Triangle<T(!new, 0)>(o: Ops<T>, f: seq<T>, m: nat) returns (ak: seq<T>)
    requires m >= 1 && |f| == 2 * m
    ensures |ak| == 2 * m && forall j: nat :: 1 <= j <= 2 * m ==> ak[j - 1] == Coefficient(o, f, m, j)
  {
    var xp, xq := new T[m + 1, 2 * m + 3], new T[m + 1, 2 * m + 3];
    Trivial(o, xp, m);
    Trivial(o, xq, m);
    Rows(o, f, xp, xq, m);
    ak := LastRow(o, f, xp, xq, m);
  }

  // "process last row to extra a{k}"
  method LastRow<T(!new)>(o: Ops<T>, f: seq<T>, xp: array2<T>, xq: array2<T>, m: nat) returns (ak: seq<T>)
    requires m >= 1 && |f| == 2 * m && xp.Length0 == xq.Length0 == m + 1 && xp.Length1 == xq.Length1 == 2 * m + 3
    requires RowDone(o, f, 0, xp, m) && RowDone(o, f, 1, xq, m)
    ensures |ak| == 2 * m && forall j: nat :: 1 <= j <= 2 * m ==> ak[j - 1] == Coefficient(o, f, m, j)
  {
    hide Row, Coefficient;
    var xout1, xout2 := o.zero, o.zero;
    ak := [];
    for j := 1 to 2 * m + 1
      invariant |ak| == j - 1 && forall k: nat :: 1 <= k < j ==> ak[k - 1] == Coefficient(o, f, m, k)
      invariant xout1 == if j == 1 then o.zero else Row(o, f, 0, m, j - 1)
      invariant xout2 == if j == 1 then o.zero else Row(o, f, 1, m, j - 1)
    {
      assert xp[m, 2 + j] == Row(o, f, 0, m, j) && xq[m, 2 + j] == Row(o, f, 1, m, j);
      var a := o.round(o.sub(o.add(o.add(xp[m, j + 2], xout1), xq[m, j + 2]), xout2));
      IsCoefficient(o, f, m, j, xout1, xout2, a);
      xout1, xout2 := xp[m, j + 2], xq[m, j + 2];
      ak := ak + [a];
    }
  }

  lemma IsCoefficient<T>(o: Ops<T>, f: seq<T>, m: nat, j: nat, prevP: T, prevQ: T, a: T)
    requires |f| == 2 * m && 1 <= j <= 2 * m
    requires prevP == (if j == 1 then o.zero else Row(o, f, 0, m, j - 1)) && prevQ == if j == 1 then o.zero
             else Row(o, f, 1, m, j - 1)
    requires a == o.round(o.sub(o.add(o.add(Row(o, f, 0, m, j), prevP), Row(o, f, 1, m, j)), prevQ))
    ensures a == Coefficient(o, f, m, j)
  {
  }

  // ---------- symmetry ----------

  // Sums that do not care which of their two ends comes first.
  ghost predicate Swaps<T(!new)>(o: Ops<T>) {
    && (forall a, m, b :: o.add(o.sub(a, m), b) == o.add(o.sub(b, m), a))
    && (forall a, m :: o.add(o.sub(a, m), o.zero) == o.sub(a, m))
  }

  // The inner entries of a row, one row back.
  lemma RowUnfolds<T>(o: Ops<T>, f: seq<T>, par: nat, i: nat, k: nat)
    requires par <= 1 && i >= 2 && 2 * i <= |f| && 0 < k < 2 * i
    ensures var mult := o.mul(f[2 * (i - 1) + par], Row(o, f, par, i - 1, k - 1));
            Row(o, f, par, i, k) ==
              if k == 2 * i - 1 then o.sub(Row(o, f, par, i - 1, k - 2), mult)
              else o.add(o.sub(Row(o, f, par, i - 1, k), mult), if k == 1 then o.zero else Row(o, f, par, i - 1, k - 2))
  {
  }

  // However the products are rounded, every row reads the same in both directions.
  lemma {:induction false} RowsArePalindromes<T(!new)>(o: Ops<T>, f: seq<T>, par: nat, i: nat, k: nat)
    requires Swaps(o) && par <= 1 && 2 * i <= |f| && k <= 2 * i
    ensures Row(o, f, par, i, k) == Row(o, f, par, i, 2 * i - k)
    decreases i
  {
    hide Row, Swaps;
    if k == 0 || k == 2 * i {
      RowEnds(o, f, par, i);
    } else if i >= 2 {
      RowsArePalindromes(o, f, par, i - 1, k - 1);
      if k >= 2 { RowsArePalindromes(o, f, par, i - 1, k - 2); }
      if k <= 2 * i - 2 { RowsArePalindromes(o, f, par, i - 1, k); }
      RowUnfolds(o, f, par, i, k);
      RowUnfolds(o, f, par, i, 2 * i - k);
      var mult := o.mul(f[2 * (i - 1) + par], Row(o, f, par, i - 1, k - 1));
      if k == 1 {
        SwapsOne(o, Row(o, f, par, i - 1, 1), mult, o.zero);
      } else if k == 2 * i - 1 {
        SwapsOne(o, Row(o, f, par, i - 1, k - 2), mult, o.zero);
      } else {
        SwapsOne(o, Row(o, f, par, i - 1, k), mult, Row(o, f, par, i - 1, k - 2));
      }
    }
  }

  lemma SwapsOne<T(!new)>(o: Ops<T>, a: T, m: T, b: T)
    requires Swaps(o)
    ensures o.add(o.sub(a, m), b) == o.add(o.sub(b, m), a) && o.add(o.sub(a, m), o.zero) == o.sub(a, m)
  {
  }

  // The arithmetic of the fixed-point build.
  function FixedOps(): Ops<int> {
    Ops(0, 0x10_0000, Add32, Sub32, Mult16_32_Q14, a => Saturate(Add32(a, 0x80) / 0x100, 32767))
  }

  lemma FixedSwaps()
    ensures Swaps(FixedOps())
  {
    forall a, m, b ensures Add32(Sub32(a, m), b) == Add32(Sub32(b, m), a) {
      WrapSum(a - m, b);
      WrapSum(b - m, a);
      assert a - m + b == b - m + a;
    }
    forall a, m ensures Add32(Sub32(a, m), 0) == Sub32(a, m) {
    }
    hide Add32, Sub32;
  }

  // ---------- exact arithmetic ----------

  function ExactOps(): Ops<real> {
    Ops(0.0, 0.5, (a, b) => a + b, (a, b) => a - b, Mult, a => a)
  }

  // Every other frequency.
  function Every<T>(f: seq<T>, par: nat, n: nat): (g: seq<T>)
    requires par <= 1 && 2 * n <= |f|
    ensures |g| == n
  {
    seq(n, i requires 0 <= i < n => f[2 * i + par])
  }

  // The rows hold half the products of the quadratics.
  lemma {:induction false} RowIsProduct(f: seq<real>, par: nat, m: nat, i: nat, k: nat)
    requires par <= 1 && i <= m && 2 * m <= |f| && k <= 2 * i
    ensures Row(ExactOps(), f, par, i, k) == Mult(0.5, Prod(Every(f, par, m), i, k))
    decreases i
  {
    var c, o := Every(f, par, m), ExactOps();
    ProdEnds(c, i, k);
    Halves(0.0, 0.0, 0.0, 0.0);
    if k == 0 || k == 2 * i {
      RowEnds(o, f, par, i);
    } else {
      InnerRowIsProduct(f, par, m, i, k, c);
    }
  }

  lemma {:induction false} InnerRowIsProduct(f: seq<real>, par: nat, m: nat, i: nat, k: nat, c: seq<real>)
    requires par <= 1 && 1 <= i <= m && 2 * m <= |f| && 0 < k < 2 * i && c == Every(f, par, m)
    ensures Row(ExactOps(), f, par, i, k) == Mult(0.5, Prod(c, i, k))
    decreases i, 0
  {
    hide Row, Prod, Mult;
    var g := f[2 * (i - 1) + par];
    ProdUnfolds(c, i, k);
    ProdEnds(c, i - 1, k);
    ProdEnds(c, i - 1, k - 2);
    Halves(g, Prod(c, i - 1, k), Prod(c, i - 1, k - 1), Prod(c, i - 1, k - 2));
    if i == 1 {
      ProdEnds(c, 0, k - 1);
      FirstInner(f, par);
    } else {
      RowIsProduct(f, par, m, i - 1, k - 1);
      if k >= 2 { RowIsProduct(f, par, m, i - 1, k - 2); }
      if k <= 2 * i - 2 { RowIsProduct(f, par, m, i - 1, k); }
      ExactRow(f, par, i, k);
    }
  }

  lemma ExactRow(f: seq<real>, par: nat, i: nat, k: nat)
    requires par <= 1 && i >= 2 && 2 * i <= |f| && 0 < k < 2 * i
    ensures var o, g := ExactOps(), f[2 * (i - 1) + par];
            Row(o, f, par, i, k) == (if k == 2 * i - 1 then 0.0 else Row(o, f, par, i - 1, k))
                                    - Mult(g, Row(o, f, par, i - 1, k - 1))
                                    + (if k == 1 then 0.0 else Row(o, f, par, i - 1, k - 2))
  {
    hide Row;
    RowUnfolds(ExactOps(), f, par, i, k);
  }

  lemma FirstInner(f: seq<real>, par: nat)
    requires par <= 1 && 2 <= |f|
    ensures Row(ExactOps(), f, par, 1, 1) == 0.0 - Mult(f[par], 0.5)
  {
  }

  lemma ProdUnfolds(c: seq<real>, i: nat, k: nat)
    requires 0 < i <= |c|
    ensures Prod(c, i, k) == Prod(c, i - 1, k) - Mult(c[i - 1], Prod(c, i - 1, k - 1)) + Prod(c, i - 1, k - 2)
  {
  }

  lemma Halves(g: real, a: real, b: real, c: real)
    ensures Mult(0.5, a - Mult(g, b) + c) == Mult(0.5, a) - Mult(g, Mult(0.5, b)) + Mult(0.5, c)
    ensures Mult(0.5, 0.0) == 0.0 && Mult(0.5, 1.0) == 0.5
  {
    assert 0.5 * (g * b) == g * (0.5 * b);
  }

  // Half the sum of a symmetric and an antisymmetric polynomial: coefficient j of the filter.
  function Half(p: seq<real>, q: seq<real>, m: nat, j: nat): real
    requires |p| == |q| == m
  {
    Mult(0.5, Prod(p, m, j) + Prod(p, m, j - 1) + Prod(q, m, j) - Prod(q, m, j - 1))
  }

  // The triangle, in exact arithmetic.
  lemma TriangleIsHalf(f: seq<real>, m: nat, j: nat)
    requires |f| == 2 * m && 1 <= j <= 2 * m
    ensures Coefficient(ExactOps(), f, m, j) == Half(Every(f, 0, m), Every(f, 1, m), m, j)
  {
    hide Row, Prod;
    RowIsProduct(f, 0, m, m, j);
    RowIsProduct(f, 1, m, m, j);
    if j > 1 {
      RowIsProduct(f, 0, m, m, j - 1);
      RowIsProduct(f, 1, m, m, j - 1);
    } else {
      ProdEnds(Every(f, 0, m), m, 0);
      ProdEnds(Every(f, 1, m), m, 0);
    }
  }

  // ---------- the cascade ----------

  // The two values that section i remembers of each polynomial, before time j.
  ghost predicate Section(w: seq<real>, p: seq<real>, q: seq<real>, i: nat, j: nat)
    requires i < |p| == |q| && 4 * i + 4 <= |w|
  {
    && w[4 * i] == Prod(p, i, j - 1) && w[4 * i + 1] == Prod(p, i, j - 2)
    && w[4 * i + 2] == Prod(q, i, j - 1) && w[4 * i + 3] == Prod(q, i, j - 2)
  }

  ghost predicate AllSections(w: seq<real>, p: seq<real>, q: seq<real>, from: nat, end: nat, j: nat)
    requires end <= |p| == |q| && 4 * end <= |w|
  {
    forall i :: from <= i < end ==> Section(w, p, q, i, j)
  }

  lemma SectionsKept(was: seq<real>, now: seq<real>, p: seq<real>, q: seq<real>, from: nat, end: nat, j: nat)
    requires end <= |p| == |q| && 4 * end <= |was| == |now| && AllSections(was, p, q, from, end, j)
    requires forall x :: 4 * from <= x < 4 * end ==> now[x] == was[x]
    ensures AllSections(now, p, q, from, end, j)
  {
    hide Prod;
    forall i | from <= i < end ensures Section(now, p, q, i, j) {
      assert Section(was, p, q, i, j);
    }
  }

  // The cascaded second-order sections at time j.
  method Sections(w: array<real>, f: seq<real>, m: nat, j: nat, in1: real, in2: real, ghost p: seq<real>,
                  ghost q: seq<real>)
    returns (xin1: real, xin2: real)
    requires |f| == 2 * m && w.Length == 4 * m + 2 && p == Every(f, 0, m) && q == Every(f, 1, m)
    requires in1 == Prod(p, 0, j) && in2 == Prod(q, 0, j) && AllSections(w[..], p, q, 0, m, j)
    modifies w
    ensures xin1 == Prod(p, m, j) && xin2 == Prod(q, m, j) && AllSections(w[..], p, q, 0, m, j + 1)
    ensures w[4 * m] == old(w[4 * m]) && w[4 * m + 1] == old(w[4 * m + 1])
  {
    hide Prod, Section;
    xin1, xin2 := in1, in2;
    for i := 0 to m
      invariant xin1 == Prod(p, i, j) && xin2 == Prod(q, i, j)
      invariant AllSections(w[..], p, q, 0, i, j + 1) && AllSections(w[..], p, q, i, m, j)
      invariant w[4 * m] == old(w[4 * m]) && w[4 * m + 1] == old(w[4 * m + 1])
    {
      ghost var was := w[..];
      xin1, xin2 := OneSection(w, f, m, i, j, xin1, xin2, p, q);
      SectionsKept(was, w[..], p, q, 0, i, j + 1);
      assert AllSections(was, p, q, i + 1, m, j);
      SectionsKept(was, w[..], p, q, i + 1, m, j);
    }
  }

  method OneSection(w: array<real>, f: seq<real>, m: nat, i: nat, j: nat, xin1: real, xin2: real, ghost p: seq<real>,
                    ghost q: seq<real>)
    returns (xout1: real, xout2: real)
    requires |f| == 2 * m && w.Length == 4 * m + 2 && i < m && p == Every(f, 0, m) && q == Every(f, 1, m)
    requires xin1 == Prod(p, i, j) && xin2 == Prod(q, i, j) && Section(w[..], p, q, i, j)
    modifies w
    ensures xout1 == Prod(p, i + 1, j) && xout2 == Prod(q, i + 1, j) && Section(w[..], p, q, i, j + 1)
    ensures forall x :: 0 <= x < w.Length && !(4 * i <= x < 4 * i + 4) ==> w[x] == old(w[x])
  {
    hide Prod, Mult;
    ProdUnfolds(p, i + 1, j);
    ProdUnfolds(q, i + 1, j);
    xout1 := xin1 - Mult(f[2 * i], w[4 * i]) + w[4 * i + 1];
    xout2 := xin2 - Mult(f[2 * i + 1], w[4 * i + 2]) + w[4 * i + 3];
    w[4 * i + 1] := w[4 * i];
    w[4 * i + 3] := w[4 * i + 2];
    w[4 * i] := xin1;
    w[4 * i + 2] := xin2;
  }

  // lsp_to_lpc of the floating-point build, with twice the cosines of the frequencies in f
  method Cascade(f: seq<real>, m: nat) returns (ak: seq<real>)
    requires m >= 1 && |f| == 2 * m
    ensures |ak| == 2 * m && forall j: nat :: 1 <= j <= 2 * m ==>
            ak[j - 1] == Half(Every(f, 0, m), Every(f, 1, m), m, j)
  {
    ghost var p, q := Every(f, 0, m), Every(f, 1, m);
    var w := new real[4 * m + 2](_ => 0.0);
    Silent(w[..], p, q, m);
    hide Prod, Mult, Section;
    var xin1, xin2 := 1.0, 1.0;
    ak := [];
    for j := 0 to 2 * m + 1
      invariant xin1 == xin2 == (if j == 0 then 1.0 else 0.0) && |ak| == if j == 0 then 0 else j - 1
      invariant forall k: nat :: 1 <= k < j ==> ak[k - 1] == Half(p, q, m, k)
      invariant AllSections(w[..], p, q, 0, m, j)
      invariant w[4 * m] == Prod(p, m, j - 1) && w[4 * m + 1] == Prod(q, m, j - 1)
    {
      Impulse(p, q, j);
      var out1, out2 := Sections(w, f, m, j, xin1, xin2, p, q);
      var xout1, xout2 := out1 + w[4 * m], out2 - w[4 * m + 1];
      if j > 0 { ak := ak + [Mult(0.5, xout1 + xout2)]; }
      SetLast(w, m, j + 1, out1, out2, p, q);
      xin1, xin2 := 0.0, 0.0;
    }
  }

  method SetLast(w: array<real>, m: nat, j: nat, out1: real, out2: real, ghost p: seq<real>, ghost q: seq<real>)
    requires w.Length == 4 * m + 2 && |p| == |q| == m && AllSections(w[..], p, q, 0, m, j)
    modifies w
    ensures w[4 * m] == out1 && w[4 * m + 1] == out2 && AllSections(w[..], p, q, 0, m, j)
  {
    ghost var was := w[..];
    w[4 * m] := out1;
    w[4 * m + 1] := out2;
    SectionsKept(was, w[..], p, q, 0, m, j);
  }

  lemma Impulse(p: seq<real>, q: seq<real>, j: nat)
    ensures Prod(p, 0, j) == Prod(q, 0, j) == if j == 0 then 1.0 else 0.0
  {
  }

  lemma Silent(w: seq<real>, p: seq<real>, q: seq<real>, m: nat)
    requires |w| == 4 * m + 2 && |p| == |q| == m && forall k :: 0 <= k < |w| ==> w[k] == 0.0
    ensures AllSections(w, p, q, 0, m, 0)
    ensures w[4 * m] == Prod(p, m, -1) && w[4 * m + 1] == Prod(q, m, -1)
  {
    forall i | 0 <= i <= m
      ensures Prod(p, i, -1) == Prod(q, i, -1) == Prod(p, i, -2) == Prod(q, i, -2) == 0.0
    {
      ProdEnds(p, i, -1);
      ProdEnds(q, i, -1);
      ProdEnds(p, i, -2);
      ProdEnds(q, i, -2);
    }
  }

  // In exact arithmetic, both give the same filter.
  method BothWays(f: seq<real>, m: nat) returns (a: seq<real>, b: seq<real>)
    requires m >= 1 && |f| == 2 * m
    ensures a == b && |a| == 2 * m
    ensures forall j: nat :: 1 <= j <= 2 * m ==> a[j - 1] == Half(Every(f, 0, m), Every(f, 1, m), m, j)
  {
    hide Half, Coefficient;
    a := Triangle(ExactOps(), f, m);
    b := Cascade(f, m);
    forall k: nat | k < 2 * m ensures a[k] == b[k] {
      var j := k + 1;
      TriangleIsHalf(f, m, j);
      assert a[j - 1] == Coefficient(ExactOps(), f, m, j) == b[j - 1];
    }
  }
}
