/** The filters in transposed form (filters.c, scalar versions), in the arithmetic of either build. */
module Filters {
  import opened Arith
  import opened Fixed

  // The arithmetic: an output from a sample and the first memory, and products and sums for the others.
  datatype Ops<!T> = Ops(zero: T, out: (T, T) -> T, neg: T -> T, mul: (T, T) -> T, add: (T, T) -> T)

  // The coefficients; a filter without zeros has no num, one without poles has no den.
  datatype Taps<T> = Taps(num: seq<T>, den: seq<T>, ord: nat)

  predicate IsFilter<T>(t: Taps<T>) { t.ord > 0 && (t.num == [] || |t.num| == t.ord)
                        && (t.den == [] || |t.den| == t.ord) }

  // What an input x and an output y add to c at tap j.
  function Term<T>(o: Ops<T>, t: Taps<T>, j: nat, c: T, x: T, y: T): T
    requires IsFilter(t) && j < t.ord
  {
    var c1 := if t.num == [] then c else o.add(c, o.mul(t.num[j], x));
    if t.den == [] then c1 else o.add(c1, o.mul(t.den[j], o.neg(y)))
  }

  // The memories after one sample.
  function Next<T>(o: Ops<T>, t: Taps<T>, mem: seq<T>, x: T, y: T): (r: seq<T>)
    requires IsFilter(t) && |mem| == t.ord
    ensures |r| == t.ord
  {
    seq(t.ord, j requires 0 <= j < t.ord => Term(o, t, j, if j + 1 < t.ord then mem[j + 1] else o.zero, x, y))
  }

  datatype Run<T> = Run(y: seq<T>, mem: seq<T>)

  // The outputs for a signal, and the memories after it.
  function Filtered<T>(o: Ops<T>, t: Taps<T>, mem: seq<T>, x: seq<T>): (r: Run<T>)
    requires IsFilter(t) && |mem| == t.ord
    ensures |r.y| == |x| && |r.mem| == t.ord
  {
    if x == [] then Run([], mem) else
      var r := Filtered(o, t, mem, x[..|x| - 1]);
      var y := o.out(x[|x| - 1], r.mem[0]);
      Run(r.y + [y], Next(o, t, r.mem, x[|x| - 1], y))
  }

  // ---------- the difference equation ----------

  // The last x and y that tap d of memory j has seen after n samples, from depth on back: what the
  // memory held in the beginning, and then one term for each sample since.
  function Direct<T>(o: Ops<T>, t: Taps<T>, mem: seq<T>, x: seq<T>, y: seq<T>, n: nat, j: nat, d: nat): T
    requires IsFilter(t) && |mem| == t.ord && n <= |x| && n <= |y| && j <= t.ord && d <= Depth(t, n, j)
    decreases Depth(t, n, j) - d
  {
    if d == Depth(t, n, j) then (if j + n < t.ord then mem[j + n] else o.zero)
    else Term(o, t, j + d, Direct(o, t, mem, x, y, n, j, d + 1), x[n - 1 - d], y[n - 1 - d])
  }

  function Depth<T>(t: Taps<T>, n: nat, j: nat): (d: nat)
    requires j <= t.ord
  {
    if n < t.ord - j then n else t.ord - j
  }

  lemma {:induction false} Diagonal<T>(o: Ops<T>, t: Taps<T>, mem: seq<T>, x: seq<T>, y: seq<T>, n: nat, j: nat, d: nat)
    requires IsFilter(t) && |mem| == t.ord && 0 < n <= |x| && n <= |y| && j < t.ord && 0 < d <= Depth(t, n, j)
    ensures Direct(o, t, mem, x, y, n, j, d) == Direct(o, t, mem, x, y, n - 1, j + 1, d - 1)
    decreases Depth(t, n, j) - d
  {
    if d < Depth(t, n, j) {
      Diagonal(o, t, mem, x, y, n, j, d + 1);
    }
  }

  lemma {:induction false} DirectLocal<T>(o: Ops<T>, t: Taps<T>, mem: seq<T>, x: seq<T>, y: seq<T>, x': seq<T>,
                                          y': seq<T>, n: nat, j: nat, d: nat)
    requires IsFilter(t) && |mem| == t.ord && n <= |x| && n <= |y| && n <= |x'| && n <= |y'| && j <= t.ord
             && d <= Depth(t, n, j)
    requires x[..n] == x'[..n] && y[..n] == y'[..n]
    ensures Direct(o, t, mem, x, y, n, j, d) == Direct(o, t, mem, x', y', n, j, d)
    decreases Depth(t, n, j) - d
  {
    if d < Depth(t, n, j) {
      assert x[n - 1 - d] == x[..n][n - 1 - d] == x'[n - 1 - d] && y[n - 1 - d] == y[..n][n - 1 - d] == y'[n - 1 - d];
      DirectLocal(o, t, mem, x, y, x', y', n, j, d + 1);
    }
  }

  // The memories hold the sums of the difference equation.
  lemma {:induction false} MemoryIsDirect<T>(o: Ops<T>, t: Taps<T>, mem: seq<T>, x: seq<T>, j: nat)
    requires IsFilter(t) && |mem| == t.ord && j < t.ord
    ensures var r := Filtered(o, t, mem, x); r.mem[j] == Direct(o, t, mem, x, r.y, |x|, j, 0)
  {
    if x != [] {
      var n, r := |x|, Filtered(o, t, mem, x);
      var front := x[..n - 1];
      var s := Filtered(o, t, mem, front);
      if j + 1 < t.ord {
        MemoryIsDirect(o, t, mem, front, j + 1);
        DirectLocal(o, t, mem, front, s.y, x, r.y, n - 1, j + 1, 0);
        Diagonal(o, t, mem, x, r.y, n, j, 1);
      }
      hide Filtered, Term, Direct;
      DirectUnfolds(o, t, mem, x, r.y, n, j);
    }
  }

  lemma DirectUnfolds<T>(o: Ops<T>, t: Taps<T>, mem: seq<T>, x: seq<T>, y: seq<T>, n: nat, j: nat)
    requires IsFilter(t) && |mem| == t.ord && 0 < n <= |x| && n <= |y| && j < t.ord
    ensures Direct(o, t, mem, x, y, n, j, 0) == Term(o, t, j, Direct(o, t, mem, x, y, n, j, 1), x[n - 1], y[n - 1])
    ensures j + 1 == t.ord ==> Direct(o, t, mem, x, y, n, j, 1) == o.zero
  {
  }

  // Every output is that of the difference equation in direct form.
  lemma DifferenceEquation<T>(o: Ops<T>, t: Taps<T>, mem: seq<T>, x: seq<T>, n: nat)
    requires IsFilter(t) && |mem| == t.ord && n < |x|
    ensures var y := Filtered(o, t, mem, x).y; y[n] == o.out(x[n], Direct(o, t, mem, x, y, n, 0, 0))
  {
    var r, s := Filtered(o, t, mem, x), Filtered(o, t, mem, x[..n]);
    MemoryIsDirect(o, t, mem, x[..n], 0);
    Prefix(o, t, mem, x, n);
    DirectLocal(o, t, mem, x[..n], s.y, x, r.y, n, 0, 0);
  }

  lemma {:induction false} Prefix<T>(o: Ops<T>, t: Taps<T>, mem: seq<T>, x: seq<T>, n: nat)
    requires IsFilter(t) && |mem| == t.ord && n <= |x|
    ensures Filtered(o, t, mem, x).y[..n] == Filtered(o, t, mem, x[..n]).y
    ensures n < |x| ==> Filtered(o, t, mem, x).y[n] == o.out(x[n], Filtered(o, t, mem, x[..n]).mem[0])
    decreases |x|
  {
    if n < |x| {
      var front := x[..|x| - 1];
      Prefix(o, t, mem, front, n);
      assert front[..n] == x[..n];
    } else {
      assert x[..n] == x;
    }
  }

  // ---------- chunks ----------

  // A signal in two parts, the memories carried over.
  lemma {:induction false} Chunks<T>(o: Ops<T>, t: Taps<T>, mem: seq<T>, a: seq<T>, b: seq<T>)
    requires IsFilter(t) && |mem| == t.ord
    ensures var r := Filtered(o, t, mem, a);
            var s := Filtered(o, t, r.mem, b);
            Filtered(o, t, mem, a + b) == Run(r.y + s.y, s.mem)
    decreases |b|
  {
    var r := Filtered(o, t, mem, a);
    if b == [] {
      assert a + b == a && r.y + [] == r.y;
    } else {
      var front, last := b[..|b| - 1], b[|b| - 1];
      Chunks(o, t, mem, a, front);
      assert (a + b)[..|a + b| - 1] == a + front && (a + b)[|a + b| - 1] == last;
      var s := Filtered(o, t, r.mem, front);
      assert r.y + (s.y + [o.out(last, s.mem[0])]) == (r.y + s.y) + [o.out(last, s.mem[0])];
    }
  }

  // ---------- the loops ----------

  ghost predicate ZeroAdds<T(!new)>(o: Ops<T>) { forall a, b :: o.add(o.zero, o.mul(a, b)) == o.mul(a, b) }

  // The last memory has nothing behind it.
  function Last<T>(o: Ops<T>, t: Taps<T>, x: T, y: T): T
    requires IsFilter(t)
  {
    var j := t.ord - 1;
    if t.num == [] then (if t.den == [] then o.zero else o.mul(t.den[j], o.neg(y)))
    else if t.den == [] then o.mul(t.num[j], x)
    else o.add(o.mul(t.num[j], x), o.mul(t.den[j], o.neg(y)))
  }

  lemma LastIsTerm<T(!new)>(o: Ops<T>, t: Taps<T>, x: T, y: T)
    requires IsFilter(t) && ZeroAdds(o)
    ensures Last(o, t, x, y) == Term(o, t, t.ord - 1, o.zero, x, y)
  {
  }

  // The loop over the memories.
  method Advance<T(!new)>(o: Ops<T>, t: Taps<T>, mem: array<T>, x: T, y: T)
    requires IsFilter(t) && mem.Length == t.ord && ZeroAdds(o)
    modifies mem
    ensures mem[..] == Next(o, t, old(mem[..]), x, y)
  {
    for j := 0 to t.ord - 1
      invariant forall k :: 0 <= k < j ==> mem[k] == Next(o, t, old(mem[..]), x, y)[k]
      invariant forall k :: j <= k < t.ord ==> mem[k] == old(mem[k])
    {
      mem[j] := Term(o, t, j, mem[j + 1], x, y);
    }
    mem[t.ord - 1] := Last(o, t, x, y);
    LastIsTerm(o, t, x, y);
    forall k | 0 <= k < t.ord ensures mem[k] == Next(o, t, old(mem[..]), x, y)[k] {
    }
  }

  // filter_mem16, and without num iir_mem16, and without den fir_mem16. The output may go where the
  // input comes from.
  method Filter<T(!new)>(o: Ops<T>, t: Taps<T>, x: array<T>, y: array<T>, n: nat, mem: array<T>)
    requires IsFilter(t) && mem.Length == t.ord && n <= x.Length && n <= y.Length && mem != x && mem != y && ZeroAdds(o)
    modifies y, mem
    ensures Run(y[..n], mem[..]) == Filtered(o, t, old(mem[..]), old(x[..n]))
    ensures y[n..] == old(y[n..])
  {
    hide Next, ZeroAdds;
    ghost var signal, start := x[..n], mem[..];
    for i := 0 to n
      invariant Run(y[..i], mem[..]) == Filtered(o, t, start, signal[..i])
      invariant y[n..] == old(y[n..]) && forall k :: i <= k < n ==> x[k] == signal[k]
    {
      var xi := x[i];
      var yi := o.out(xi, mem[0]);
      assert signal[..i + 1][..i] == signal[..i];
      Advance(o, t, mem, xi, yi);
      y[i] := yi;
      assert y[..i + 1] == y[..i] + [yi];
    }
    assert signal[..n] == signal;
  }

  // ---------- the two builds ----------

  // PSHR32(mem[0], LPC_SHIFT), added, saturated and cut to 16 bits
  function FixedOut(x: int, mem: int): int { Wrap16(Saturate(Add32(x, Add32(mem, 0x1000) / 0x2000), 32767)) }

  function FixedOps(): Ops<int> { Ops(0, FixedOut, a => -a, Mult16_16, Add32) }

  function ExactOps(): Ops<real> { Ops(0.0, (x, mem) => x + mem, a => -a, (a, b) => Mult(a, b), (a, b) => a + b) }

  lemma BothZeroAdd()
    ensures ZeroAdds(FixedOps()) && ZeroAdds(ExactOps())
  {
    forall a, b ensures Add32(0, Mult16_16(a, b)) == Mult16_16(a, b) {
      SmallProduct(Wrap16(a), Wrap16(b));
    }
    hide Add32, Mult16_16;
  }

  lemma SmallProduct(a: int, b: int)
    requires -0x8000 <= a < 0x8000 && -0x8000 <= b < 0x8000
    ensures -0x4000_0000 <= a * b <= 0x4000_0000
  {
    var c := if b >= 0 then b else -b;
    MulLe(-0x8000, a, c);
    MulLe(a, 0x8000, c);
    assert b < 0 ==> a * b == -(a * c);
  }

  // The output of the fixed-point build is a 16-bit number that is never the least one.
  lemma FixedOutFits(x: int, mem: int)
    ensures -32767 <= FixedOut(x, mem) <= 32767
  {
  }

  // It is the input plus the memory over 2^13, rounded to the nearest and saturated.
  lemma FixedOutRounds(x: int, mem: int) returns (v: int)
    requires -0x8000 <= x < 0x8000 && -0x8000_0000 <= mem < 0x7fff_f000
    ensures -0x1000 <= 0x2000 * v - mem <= 0x1000 && FixedOut(x, mem) == Saturate(x + v, 32767)
  {
    v := (mem + 0x1000) / 0x2000;
    assert Add32(mem, 0x1000) == mem + 0x1000 && Add32(x, v) == x + v;
    assert -32767 <= Saturate(x + v, 32767) <= 32767;
  }

  // The sum of a memory as an exact integer: what it held in the beginning and the products since.
  function Exactly(t: Taps<int>, mem: seq<int>, x: seq<int>, y: seq<int>, n: nat, j: nat, d: nat): int
    requires IsFilter(t) && |mem| == t.ord && n <= |x| && n <= |y| && j <= t.ord && d <= Depth(t, n, j)
    decreases Depth(t, n, j) - d
  {
    if d == Depth(t, n, j) then (if j + n < t.ord then mem[j + n] else 0)
    else
      Exactly(t, mem, x, y, n, j, d + 1) + Zero(t, j + d, x[n - 1 - d]) + Pole(t, j + d, y[n - 1 - d])
  }

  // What an input and an output add to the sum at tap j.
  function Zero(t: Taps<int>, j: nat, x: int): int
    requires IsFilter(t) && j < t.ord
  {
    if t.num == [] then 0 else Mult16_16(t.num[j], x)
  }

  function Pole(t: Taps<int>, j: nat, y: int): int
    requires IsFilter(t) && j < t.ord
  {
    if t.den == [] then 0 else Mult16_16(t.den[j], -y)
  }

  // The memories are exact but for the width of their type.
  lemma {:induction false} OnlyTheWidth(t: Taps<int>, mem: seq<int>, x: seq<int>, y: seq<int>, n: nat, j: nat, d: nat)
    requires IsFilter(t) && |mem| == t.ord && n <= |x| && n <= |y| && j <= t.ord && d <= Depth(t, n, j)
    requires forall k :: 0 <= k < t.ord ==> -0x8000_0000 <= mem[k] < 0x8000_0000
    ensures Direct(FixedOps(), t, mem, x, y, n, j, d) == Wrap32(Exactly(t, mem, x, y, n, j, d))
    decreases Depth(t, n, j) - d
  {
    if d < Depth(t, n, j) {
      hide Mult16_16, Add32, Wrap32, Exactly, Direct;
      OnlyTheWidth(t, mem, x, y, n, j, d + 1);
      OneMoreTerm(t, mem, x, y, n, j, d);
      var e := Exactly(t, mem, x, y, n, j, d + 1);
      WrapSum(e, Zero(t, j + d, x[n - 1 - d]));
      WrapSum(e + Zero(t, j + d, x[n - 1 - d]), Pole(t, j + d, y[n - 1 - d]));
    }
  }

  lemma OneMoreTerm(t: Taps<int>, mem: seq<int>, x: seq<int>, y: seq<int>, n: nat, j: nat, d: nat)
    requires IsFilter(t) && |mem| == t.ord && n <= |x| && n <= |y| && j <= t.ord && d < Depth(t, n, j)
    ensures Exactly(t, mem, x, y, n, j, d)
         == Exactly(t, mem, x, y, n, j, d + 1) + Zero(t, j + d, x[n - 1 - d]) + Pole(t, j + d, y[n - 1 - d])
    ensures var c := Direct(FixedOps(), t, mem, x, y, n, j, d + 1);
            var c1 := if t.num == [] then c else Add32(c, Zero(t, j + d, x[n - 1 - d]));
            Direct(FixedOps(), t, mem, x, y, n, j, d) == if t.den == [] then c1
                else Add32(c1, Pole(t, j + d, y[n - 1 - d]))
  {
    hide Mult16_16, Add32, Wrap32, FixedOut;
  }

  // The fixed-point build, direct form: every output is the saturated sum of its input and of the
  // rounded memory, and the memory is an exact sum but for its width.
  lemma FixedEquation(t: Taps<int>, mem: seq<int>, x: seq<int>, n: nat)
    requires IsFilter(t) && |mem| == t.ord && n < |x|
    requires forall k :: 0 <= k < t.ord ==> -0x8000_0000 <= mem[k] < 0x8000_0000
    ensures var y := Filtered(FixedOps(), t, mem, x).y;
            y[n] == FixedOut(x[n], Wrap32(Exactly(t, mem, x, y, n, 0, 0))) && -32767 <= y[n] <= 32767
  {
    hide Filtered, Direct, Exactly, FixedOut, Wrap32;
    var y := Filtered(FixedOps(), t, mem, x).y;
    DifferenceEquation(FixedOps(), t, mem, x, n);
    OnlyTheWidth(t, mem, x, y, n, 0, 0);
    FixedOutFits(x[n], Wrap32(Exactly(t, mem, x, y, n, 0, 0)));
  }

  // filter_mem16, fir_mem16 and iir_mem16 of the fixed-point build.
  method FixedFilter(t: Taps<int>, x: array<int>, y: array<int>, n: nat, mem: array<int>)
    requires IsFilter(t) && mem.Length == t.ord && n <= x.Length && n <= y.Length && mem != x && mem != y
    requires forall k :: 0 <= k < t.ord ==> -0x8000_0000 <= mem[k] < 0x8000_0000
    modifies y, mem
    ensures forall i :: 0 <= i < n ==> -32767 <= y[i] <= 32767
    ensures forall i :: 0 <= i < n ==>
      y[i] == FixedOut(old(x[i]), Wrap32(Exactly(t, old(mem[..]), old(x[..n]), y[..n], i, 0, 0)))
    ensures y[n..] == old(y[n..])
  {
    hide Filtered, Exactly, FixedOut, Wrap32, ZeroAdds;
    ghost var signal, start := x[..n], mem[..];
    BothZeroAdd();
    Filter(FixedOps(), t, x, y, n, mem);
    forall i: nat | i < n
      ensures y[i] == FixedOut(signal[i], Wrap32(Exactly(t, start, signal, y[..n], i, 0, 0))) && -32767 <= y[i] <= 32767
    {
      FixedEquation(t, start, signal, i);
    }
  }

  // ---------- exact arithmetic ----------

  // num[d]*x[n-1-d] - den[d]*y[n-1-d] and so on, as far back as the filter and the signal reach.
  function Weighted(t: Taps<real>, x: seq<real>, y: seq<real>, n: nat, d: nat): real
    requires IsFilter(t) && n <= |x| && n <= |y|
    decreases n - d
  {
    if d >= n || d >= t.ord then 0.0
    else
      Weighted(t, x, y, n, d + 1) + (if t.num == [] then 0.0 else Mult(t.num[d], x[n - 1 - d]))
      - (if t.den == [] then 0.0 else Mult(t.den[d], y[n - 1 - d]))
  }

  lemma {:induction false} DirectIsWeighted(t: Taps<real>, mem: seq<real>, x: seq<real>, y: seq<real>, n: nat, d: nat)
    requires IsFilter(t) && |mem| == t.ord && n <= |x| && n <= |y| && d <= Depth(t, n, 0)
    requires forall k :: 0 <= k < t.ord ==> mem[k] == 0.0
    ensures Direct(ExactOps(), t, mem, x, y, n, 0, d) == Weighted(t, x, y, n, d)
    decreases Depth(t, n, 0) - d
  {
    if d < Depth(t, n, 0) {
      DirectIsWeighted(t, mem, x, y, n, d + 1);
      if t.den != [] { TimesMinus(t.den[d], y[n - 1 - d]); }
      hide Mult;
    }
  }

  // From silence, an output is its input plus the zeros' share of the inputs before it and less the
  // poles' share of the outputs before it.
  lemma ExactEquation(t: Taps<real>, mem: seq<real>, x: seq<real>, n: nat)
    requires IsFilter(t) && |mem| == t.ord && n < |x| && forall k :: 0 <= k < t.ord ==> mem[k] == 0.0
    ensures var y := Filtered(ExactOps(), t, mem, x).y; y[n] == x[n] + Weighted(t, x, y, n, 0)
  {
    hide Filtered, Direct, Weighted;
    DifferenceEquation(ExactOps(), t, mem, x, n);
    DirectIsWeighted(t, mem, x, Filtered(ExactOps(), t, mem, x).y, n, 0);
  }

  // ---------- the inverse ----------

  // The memories of the one are those of the other with the sign changed.
  ghost predicate Opposite(a: seq<real>, b: seq<real>) { |a| == |b| && forall j :: 0 <= j < |a| ==> a[j] == -b[j] }

  // In exact arithmetic, the filter with poles takes back what the one with the same coefficients as
  // zeros has done, from opposite memories and so from silent ones.
  lemma {:induction false} PolesUndoZeros(c: seq<real>, zeros: seq<real>, poles: seq<real>, x: seq<real>)
    requires |c| == |zeros| > 0 && Opposite(poles, zeros)
    ensures var r := Filtered(ExactOps(), Taps(c, [], |c|), zeros, x);
            var s := Filtered(ExactOps(), Taps([], c, |c|), poles, r.y);
            s.y == x && Opposite(s.mem, r.mem)
    decreases |x|
  {
    if x != [] {
      var front, last := x[..|x| - 1], x[|x| - 1];
      PolesUndoZeros(c, zeros, poles, front);
      var fir, iir, o := Taps(c, [], |c|), Taps([], c, |c|), ExactOps();
      var r, s := Filtered(o, fir, zeros, front), Filtered(o, iir, poles, Filtered(o, fir, zeros, front).y);
      var y := o.out(last, r.mem[0]);
      assert Filtered(o, fir, zeros, x).y == r.y + [y];
      assert (r.y + [y])[..|r.y + [y]| - 1] == r.y && (r.y + [y])[|r.y + [y]| - 1] == y;
      assert o.out(y, s.mem[0]) == last;
      assert s.y + [last] == x;
      NextOpposite(c, r.mem, s.mem, last, y);
    }
  }

  lemma NextOpposite(c: seq<real>, a: seq<real>, b: seq<real>, x: real, y: real)
    requires |c| == |a| > 0 && Opposite(b, a)
    ensures Opposite(Next(ExactOps(), Taps([], c, |c|), b, y, x), Next(ExactOps(), Taps(c, [], |c|), a, x, y))
  {
    var o, fir, iir := ExactOps(), Taps(c, [], |c|), Taps([], c, |c|);
    forall j | 0 <= j < |c| ensures Next(o, iir, b, y, x)[j] == -Next(o, fir, a, x, y)[j] {
      TimesMinus(c[j], x);
      hide Mult;
      var u, v := if j + 1 < |c| then a[j + 1] else 0.0, if j + 1 < |c| then b[j + 1] else 0.0;
      assert Term(o, fir, j, u, x, y) == u + Mult(c[j], x);
      assert Term(o, iir, j, v, y, x) == v + Mult(c[j], -x);
    }
  }

  lemma TimesMinus(a: real, b: real)
    ensures Mult(a, -b) == -Mult(a, b)
  {
  }

  // fir_mem16 in place and then iir_mem16 in place, both from silence: the signal is back.
  method ThereAndBack(c: seq<real>, x: array<real>)
    requires |c| > 0
    modifies x
    ensures x[..] == old(x[..])
  {
    hide Filtered, ZeroAdds;
    ghost var was := x[..];
    BothZeroAdd();
    var zeros, poles := new real[|c|](_ => 0.0), new real[|c|](_ => 0.0);
    ghost var start := zeros[..];
    Filter(ExactOps(), Taps(c, [], |c|), x, x, x.Length, zeros);
    ghost var mid := x[..];
    assert was[..x.Length] == was && mid[..x.Length] == mid && poles[..] == start;
    Filter(ExactOps(), Taps([], c, |c|), x, x, x.Length, poles);
    assert x[..x.Length] == x[..];
    PolesUndoZeros(c, start, start, was);
  }
}
