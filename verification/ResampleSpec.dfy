/** What a fixed polyphase filter makes of a whole signal, and where the k-th output stands. */
module ResampleSpec {
  import opened Arith

  // Numerator and denominator of the rate, the filter length and the table of den filters of
  // that length, one behind the other; and where the stream starts: the samples before it, and
  // the position and phase of its first output.
  datatype Filter = Filter(num: nat, den: nat, len: nat, sinc: seq<real>, past: seq<real>, start: nat, phase: nat)

  predicate HasPast(f: Filter) { f.len > 0 && |f.past| == f.len - 1 }

  predicate IsFilter(f: Filter) {
    f.num > 0 && f.den > 0 && f.len % 4 == 0 && |f.sinc| == f.den * f.len && HasPast(f) && f.phase < f.den
  }

  // Nothing before the stream, as speex_resampler_init leaves it.
  predicate FromSilence(f: Filter) { HasPast(f) && f.past == Zeros(f.len - 1) && f.start == 0 && f.phase == 0 }

  // The phase of output k with all its carries.
  function Way(f: Filter, k: nat): int { f.phase + k * f.num }

  // The input sample that output k starts at, and the phase of the filter for it.
  function Pos(f: Filter, k: nat): int
    requires f.den > 0
  {
    f.start + Way(f, k) / f.den
  }

  function Frac(f: Filter, k: nat): int
    requires f.den > 0
  {
    Way(f, k) % f.den
  }

  lemma PosFrac(f: Filter, k: nat)
    requires f.den > 0
    ensures f.start <= Pos(f, k) && 0 <= Frac(f, k) < f.den && Way(f, k) == (Pos(f, k) - f.start) * f.den + Frac(f, k)
  {
    MulLe(0, k, f.num);
    NonNegative(Way(f, k), f.den);
  }

  lemma NonNegative(x: int, d: nat)
    requires d > 0 && x >= 0
    ensures x / d >= 0 && x == x / d * d + x % d
  {
    if x / d < 0 { MulLe(x / d, -1, d); }
  }

  // int_advance, frac_advance and the carry.
  lemma NextOutput(f: Filter, k: nat)
    requires f.den > 0
    ensures var frac := Frac(f, k) + f.num % f.den;
            && Frac(f, k + 1) == (if frac >= f.den then frac - f.den else frac)
            && Pos(f, k + 1) == Pos(f, k) + f.num / f.den + (if frac >= f.den then 1 else 0)
            && f.num / f.den >= 0
  {
    var d, n := f.den, f.num;
    PosFrac(f, k);
    NonNegative(n, d);
    NextWay(f, k);
    Carry(Way(f, k), Pos(f, k) - f.start, Frac(f, k), n, d);
  }

  lemma NextWay(f: Filter, k: nat)
    ensures Way(f, k + 1) == Way(f, k) + f.num
  {
    assert (k + 1) * f.num == k * f.num + f.num;
  }

  lemma Carry(w: int, pos: int, frac: nat, n: nat, d: nat)
    requires d > 0 && frac < d && w == pos * d + frac && n == n / d * d + n % d
    ensures var r := frac + n % d;
            && (w + n) % d == (if r >= d then r - d else r)
            && (w + n) / d == pos + n / d + (if r >= d then 1 else 0)
  {
    var r, q := frac + n % d, pos + n / d;
    assert q * d == pos * d + n / d * d by { MulDiff(q, pos, d); }
    if r >= d {
      MulDiff(q + 1, q, d);
      DivModUnique(w + n, q + 1, r - d, d);
    } else {
      DivModUnique(w + n, q, r, d);
    }
  }

  lemma {:induction false} PosMonotone(f: Filter, j: nat, k: nat)
    requires f.den > 0 && j <= k
    ensures Pos(f, j) <= Pos(f, k)
    decreases k
  {
    if j < k {
      NextOutput(f, k - 1);
      PosMonotone(f, j, k - 1);
    }
  }

  function At(s: seq<real>, i: int): real { if 0 <= i < |s| then s[i] else 0.0 }

  // c[ci]*w[0] + c[ci+1]*w[1] + ... over n terms
  function Inner(c: seq<real>, ci: int, w: seq<real>, n: nat): real {
    if n == 0 then 0.0 else Inner(c, ci, w, n - 1) + Mult(At(c, ci + n - 1), At(w, n - 1))
  }

  function Window(x: seq<real>, pos: int, n: nat): (w: seq<real>)
    ensures |w| == n
  {
    seq(n, j => At(x, pos + j))
  }

  function Zeros(n: nat): (z: seq<real>)
    ensures |z| == n
  {
    seq(n, _ => 0.0)
  }

  // The input with the past before it.
  function Padded(f: Filter, x: seq<real>): seq<real>
    requires HasPast(f)
  {
    f.past + x
  }

  // Output k of the whole signal in one go.
  ghost function Output(f: Filter, x: seq<real>, k: nat): real
    requires f.den > 0 && HasPast(f)
  {
    Inner(f.sinc, Frac(f, k) * f.len, Window(Padded(f, x), Pos(f, k), f.len), f.len)
  }

  ghost function Outputs(f: Filter, x: seq<real>, from: nat, n: nat): (y: seq<real>)
    requires f.den > 0 && HasPast(f)
    ensures |y| == n
  {
    seq(n, i requires 0 <= i < n => Output(f, x, from + i))
  }

  lemma OutputsConcat(f: Filter, x: seq<real>, from: nat, n: nat, m: nat)
    requires f.den > 0 && HasPast(f)
    ensures Outputs(f, x, from, n) + Outputs(f, x, from + n, m) == Outputs(f, x, from, n + m)
  {
    var a, b, c := Outputs(f, x, from, n), Outputs(f, x, from + n, m), Outputs(f, x, from, n + m);
    forall i | 0 <= i < n + m ensures (a + b)[i] == c[i] {
      if i >= n { assert from + n + (i - n) == from + i; }
    }
  }

  // The last output made starts no later than behind the used samples.
  ghost predicate Reached(f: Filter, done: nat, made: nat)
    requires f.den > 0
  {
    made == 0 || Pos(f, made - 1) <= done
  }

  // Never more than that.
  lemma ReachedBound(f: Filter, done: nat, made: nat)
    requires f.den > 0 && f.num > 0 && Reached(f, done, made)
    ensures made <= (done + 1) * f.den
  {
    if made > 0 {
      PosCompare(f, made - 1, done + 1);
      assert (made - 1) * f.num >= made - 1 by { MulLe(1, f.num, made - 1); }
    }
  }

  // It starts at a sample that has been used.
  ghost predicate Passed(f: Filter, done: nat, made: nat)
    requires f.den > 0
  {
    made == 0 || Pos(f, made - 1) < done
  }

  // Where output k stands, in den-ths of a sample.
  function Stand(f: Filter, k: nat): int { f.start * f.den + Way(f, k) }

  // Just as many outputs as start before the end of the samples that have been used.
  ghost predicate IsCeiling(f: Filter, done: nat, made: nat) {
    done * f.den <= Stand(f, made) && (made == 0 || Stand(f, made - 1) < done * f.den)
  }

  // From the beginning, that is done * den / num, rounded up.
  lemma CeilingFromStart(f: Filter, done: nat, made: nat)
    requires f.start == f.phase == 0 && IsCeiling(f, done, made)
    ensures done * f.den <= made * f.num && (made == 0 || (made - 1) * f.num < done * f.den)
  {
  }

  // Using used of n samples and making more outputs.
  lemma Progress(f: Filter, done: nat, made: nat, used: nat, n: nat, more: nat)
    requires f.den > 0 && used <= n && Reached(f, done, made)
    requires more > 0 && used == n ==> Pos(f, made + more - 1) < done + used
    requires used == n || done + used == Pos(f, made + more)
    ensures Reached(f, done + used, made + more)
    ensures used == n > 0 ==> Passed(f, done + used, made + more)
  {
    hide Pos;
    if more > 0 { PosMonotone(f, made + more - 1, made + more); }
  }

  lemma PosCompare(f: Filter, k: nat, d: nat)
    requires f.den > 0
    ensures Pos(f, k) < d <==> Stand(f, k) < d * f.den
  {
    PosFrac(f, k);
    Standing(f, k);
    var p := Pos(f, k);
    hide Pos, Stand;
    if p < d {
      MulLe(p + 1, d, f.den);
      MulDiff(p + 1, p, f.den);
    } else {
      MulLe(d, p, f.den);
    }
  }

  lemma Standing(f: Filter, k: nat)
    requires f.den > 0
    ensures Stand(f, k) == Pos(f, k) * f.den + Frac(f, k)
  {
    PosFrac(f, k);
    MulDiff(Pos(f, k), f.start, f.den);
  }

  lemma CeilingReached(f: Filter, done: nat, made: nat)
    requires f.den > 0 && f.num > 0 && Passed(f, done, made) && done <= Pos(f, made)
    ensures IsCeiling(f, done, made)
  {
    hide Pos, Stand;
    PosCompare(f, made, done);
    if made > 0 { PosCompare(f, made - 1, done); }
  }

  // Samples used, position and phase account for all the outputs made.
  lemma Conservation(f: Filter, done: nat, last: nat, frac: nat, made: nat)
    requires f.den > 0 && done + last == Pos(f, made) && frac == Frac(f, made)
    ensures done * f.den + last * f.den + frac == Stand(f, made) && frac < f.den
  {
    PosFrac(f, made);
    Standing(f, made);
    assert (done + last) * f.den == done * f.den + last * f.den;
  }
}
