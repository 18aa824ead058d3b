/** The streaming resampler on one channel with a fixed filter (resample.c, direct method over exact reals),
    from any state on. */
module Resample {
  import opened Arith
  import opened ResampleSpec

  // n samples from o on.
  ghost function Held(s: seq<real>, o: nat, n: nat): (h: seq<real>)
    requires o + n <= |s|
    ensures |h| == n
  {
    s[o..o + n]
  }

  // The memory of a channel starts at index o of the block mem: history, then pending samples.
  class Channel {
    const f: Filter
    const mem: array<real>
    const o: nat
    const size: nat
    var lastSample: int
    var sampFracNum: nat
    var magic: nat

    ghost predicate Valid()
      reads this
    {
      && IsFilter(f) && o + size <= mem.Length && f.len - 1 + magic <= size && f.len <= size
      && lastSample >= 0
    }

    // A channel over part of a block that holds the filter's past and the pending samples, with
    // which the signal x begins.
    constructor (f: Filter, mem: array<real>, o: nat, size: nat, magic: nat, ghost x: seq<real>)
      requires IsFilter(f) && o + size <= mem.Length && f.len - 1 + magic <= size && f.len <= size
      requires Held(mem[..], o, f.len - 1) == f.past && magic <= |x|
               && x[..magic] == Held(mem[..], o + (f.len - 1), magic)
      ensures Valid() && this.f == f && this.mem == mem && this.o == o && this.size == size && this.magic == magic
      ensures lastSample == f.start && sampFracNum == f.phase && Synced(x, 0, 0)
    {
      this.f, this.mem, this.o, this.size, this.magic := f, mem, o, size, magic;
      lastSample, sampFracNum := f.start, f.phase;
      new;
      StartsSynced(f, mem[..], o, magic, x);
    }

    // A channel of its own, with nothing before the stream.
    constructor Fresh(f: Filter, alloc: nat)
      requires IsFilter(f) && FromSilence(f) && alloc >= f.len
      ensures Valid() && this.f == f && magic == 0 && fresh(mem)
      ensures forall x: seq<real> :: Synced(x, 0, 0)
    {
      this.f, o, size, magic := f, 0, alloc, 0;
      mem := new real[alloc](_ => 0.0);
      lastSample, sampFracNum := 0, 0;
      new;
      assert Held(mem[..], 0, f.len - 1) == f.past;
      forall x: seq<real> ensures Synced(x, 0, 0) {
        StartsSynced(f, mem[..], 0, 0, x);
      }
    }

    // After done input samples and made outputs of the signal x: the memory holds the history and the pending
    // samples, and the position and phase are those of the next output.
    ghost predicate Synced(x: seq<real>, done: nat, made: nat)
      requires Valid()
      reads this, mem
    {
      && done + magic <= |x|
      && Held(mem[..], o, f.len - 1 + magic) == Held(Padded(f, x), done, f.len - 1 + magic)
      && done + lastSample == Pos(f, made) && sampFracNum == Frac(f, made)
    }

    // The loop over the filter taps, with its four accumulators.
    method FilterOne(from: nat, frac: nat, ghost w: seq<real>) returns (sum: real)
      requires Valid() && frac < f.den && o + from + f.len <= mem.Length && w == Held(mem[..], o + from, f.len)
      ensures sum == Inner(f.sinc, frac * f.len, w, f.len)
    {
      hide Mult, Inner;
      NothingSummed(f.sinc, frac * f.len, w);
      var a0, a1, a2, a3 := 0.0, 0.0, 0.0, 0.0;
      var start, j := frac * f.len, 0;
      FlatIndex(frac, 0, f.den, f.len);
      FlatIndex(frac, f.len - 1, f.den, f.len);
      while j < f.len
        invariant 0 <= j <= f.len && j % 4 == 0
        invariant a0 + a1 + a2 + a3 == Inner(f.sinc, start, w, j)
      {
        FourTaps(f.sinc, start, w, j);
        a0 := a0 + Mult(f.sinc[start + j], mem[o + from + j]);
        a1 := a1 + Mult(f.sinc[start + j + 1], mem[o + from + j + 1]);
        a2 := a2 + Mult(f.sinc[start + j + 2], mem[o + from + j + 2]);
        a3 := a3 + Mult(f.sinc[start + j + 3], mem[o + from + j + 3]);
        j := j + 4;
      }
      sum := a0 + a1 + a2 + a3;
    }

    // resampler_basic_direct_single: outputs for as long as there is input to start from and room to write.
    method BasicDirect(inLen: nat, outLen: nat, ghost x: seq<real>, ghost done: nat, ghost made: nat)
                       returns (out: seq<real>)
      requires Valid() && f.len - 1 + inLen <= size && done + inLen <= |x|
      requires Held(mem[..], o, f.len - 1 + inLen) == Held(Padded(f, x), done, f.len - 1 + inLen)
      requires done + lastSample == Pos(f, made) && sampFracNum == Frac(f, made)
      modifies this`lastSample, this`sampFracNum
      ensures Valid() && |out| <= outLen && out == Outputs(f, x, made, |out|)
      ensures done + lastSample == Pos(f, made + |out|) && sampFracNum == Frac(f, made + |out|)
      ensures lastSample >= inLen || |out| == outLen
      ensures |out| > 0 ==> Pos(f, made + |out| - 1) < done + inLen
    {
      hide Pos, Frac, Output, Padded, Held, Inner, Window;
      out := [];
      while !(lastSample >= inLen || |out| >= outLen)
        invariant Valid() && |out| <= outLen && out == Outputs(f, x, made, |out|)
        invariant done + lastSample == Pos(f, made + |out|) && sampFracNum == Frac(f, made + |out|)
        invariant |out| > 0 ==> Pos(f, made + |out| - 1) < done + inLen
        decreases outLen - |out|
      {
        ghost var k := made + |out|;
        PosFrac(f, k);
        NextOutput(f, k);
        ghost var w := Held(mem[..], o + lastSample, f.len);
        SameWindow(f, x, mem[..], o, f.len - 1 + inLen, done, lastSample);
        var sum := FilterOne(lastSample, sampFracNum, w);
        IsOutput(f, x, k, w, sum);
        out := out + [sum];
        lastSample := lastSample + f.num / f.den;
        sampFracNum := sampFracNum + f.num % f.den;
        if sampFracNum >= f.den {
          sampFracNum := sampFracNum - f.den;
          lastSample := lastSample + 1;
        }
      }
    }

    // The loop that moves n samples towards the front of the memory.
    method MoveDown(at: nat, n: nat, shift: nat)
      requires o + at + n + shift <= mem.Length
      modifies mem
      ensures mem[..] == MovedDown(old(mem[..]), o + at, n, shift)
    {
      hide MovedDown;
      var base := o + at;
      ghost var was := mem[..];
      NothingMoved(was, base, shift);
      for j := 0 to n
        invariant mem[..] == MovedDown(was, base, j, shift)
      {
        OneMoved(was, base, j, shift);
        mem[base + j] := mem[base + j + shift];
      }
    }

    // speex_resampler_process_native
    method ProcessNative(inLen: nat, outLen: nat, ghost x: seq<real>, ghost done: nat, ghost made: nat)
      returns (used: nat, out: seq<real>)
      requires Valid() && f.len - 1 + inLen <= size && done + inLen <= |x|
      requires Held(mem[..], o, f.len - 1 + inLen) == Held(Padded(f, x), done, f.len - 1 + inLen)
      requires done + lastSample == Pos(f, made) && sampFracNum == Frac(f, made)
      modifies this`lastSample, this`sampFracNum, mem
      ensures Valid() && used <= inLen && |out| <= outLen && out == Outputs(f, x, made, |out|)
      ensures done + used + lastSample == Pos(f, made + |out|) && sampFracNum == Frac(f, made + |out|)
      ensures Held(mem[..], o, f.len - 1) == Held(Padded(f, x), done + used, f.len - 1)
      ensures mem[..o] == old(mem[..o]) && mem[o + f.len - 1..] == old(mem[o + f.len - 1..])
      ensures used == inLen || (|out| == outLen && lastSample == 0)
      ensures |out| > 0 && used == inLen ==> Pos(f, made + |out| - 1) < done + used
      ensures inLen > 0 && outLen > 0 ==> used > 0 || |out| > 0
    {
      hide Pos, Frac, Output, Outputs, Padded, MovedDown, Held;
      ghost var before := mem[..];
      out := BasicDirect(inLen, outLen, x, done, made);
      used := inLen;
      if lastSample < inLen { used := lastSample; }
      lastSample := lastSample - used;
      MoveDown(0, f.len - 1, used);
      HistoryMoved(f, before, mem[..], o, x, done, inLen, used);
    }

    // What a call makes of the pending samples; used of them are gone, the rest stays.
    method ProcessMagic(outLen: nat, ghost x: seq<real>, ghost done: nat, ghost made: nat)
                        returns (used: nat, out: seq<real>)
      requires Valid() && Synced(x, done, made)
      modifies this`lastSample, this`sampFracNum, mem
      ensures Valid() && used <= magic && |out| <= outLen && out == Outputs(f, x, made, |out|)
      ensures done + used + lastSample == Pos(f, made + |out|) && sampFracNum == Frac(f, made + |out|)
      ensures used == magic || |out| == outLen
      ensures used == magic || done + used == Pos(f, made + |out|)
      ensures |out| > 0 && used == magic ==> Pos(f, made + |out| - 1) < done + used
      ensures mem[..o] == old(mem[..o]) && mem[o + size..] == old(mem[o + size..])
      ensures Held(mem[..], o, f.len - 1 + (magic - used))
              == Held(Padded(f, x), done + used, f.len - 1 + (magic - used))
    {
      hide Pos, Frac, Outputs, Padded, MovedDown, Held;
      ghost var before, m := mem[..], magic;
      used, out := ProcessNative(magic, outLen, x, done, made);
      ghost var mid := mem[..];
      if magic > used {
        MoveDown(f.len - 1, magic - used, used);
        RestMoved(f, mid, mem[..], o, size, m, used);
      }
      RestSynced(f, before, mid, mem[..], o, x, done, m, used);
      Unaffected(before, mid, mem[..], o, f.len - 1, size);
    }

    // speex_resampler_magic: the samples left over from a longer filter go through as input.
    method Magic(outLen: nat, ghost x: seq<real>, ghost done: nat, ghost made: nat)
                 returns (out: seq<real>, ghost used: nat)
      requires Valid() && Synced(x, done, made)
      modifies this, mem
      ensures Valid() && |out| <= outLen && out == Outputs(f, x, made, |out|)
      ensures used + magic == old(magic) && Synced(x, done + used, made + |out|)
      ensures magic == 0 || |out| == outLen
      ensures magic == 0 || done + used == Pos(f, made + |out|)
      ensures |out| > 0 && magic == 0 ==> Pos(f, made + |out| - 1) < done + used
      ensures mem[..o] == old(mem[..o]) && mem[o + size..] == old(mem[o + size..])
    {
      hide Pos, Frac, Outputs, Padded, Held;
      var n;
      n, out := ProcessMagic(outLen, x, done, made);
      used := n;
      magic := magic - n;
    }

    // The loop that puts a chunk of the input behind the history.
    method Feed(input: seq<real>)
      requires Valid() && f.len - 1 + |input| <= size
      modifies mem
      ensures mem[..] == Overwritten(old(mem[..]), o + (f.len - 1), input)
    {
      hide Overwritten;
      ghost var was, base := mem[..], o + (f.len - 1);
      NothingWritten(was, base, input);
      for j := 0 to |input|
        invariant mem[..] == Overwritten(was, base, input[..j])
      {
        OneWritten(was, base, input, j);
        mem[o + (f.len - 1) + j] := input[j];
      }
      assert input[..|input|] == input;
    }

    // One pass of the loop of speex_resampler_process_float.
    method ProcessChunk(input: seq<real>, outLen: nat, ghost x: seq<real>, ghost done: nat, ghost made: nat)
                        returns (used: nat, out: seq<real>)
      requires Valid() && magic == 0 && Synced(x, done, made) && f.len - 1 + |input| <= size
      requires done + |input| <= |x| && input == x[done..done + |input|] && |input| > 0 && outLen > 0
      modifies this`lastSample, this`sampFracNum, mem
      ensures Valid() && used <= |input| && |out| <= outLen && out == Outputs(f, x, made, |out|)
      ensures Synced(x, done + used, made + |out|)
      ensures used > 0 || |out| > 0
      ensures |out| < outLen ==> used == |input|
      ensures used == |input| || done + used == Pos(f, made + |out|)
      ensures |out| > 0 && used == |input| ==> Pos(f, made + |out| - 1) < done + used
      ensures mem[..o] == old(mem[..o]) && mem[o + size..] == old(mem[o + size..])
    {
      hide Pos, Frac, Outputs, Padded, Held, Overwritten;
      ghost var before := mem[..];
      Feed(input);
      ghost var mid := mem[..];
      Fed(f, before, mid, o, size, input, x, done);
      used, out := ProcessNative(|input|, outLen, x, done, made);
      Unaffected2(before, mid, mem[..], o, f.len - 1, size);
    }

    // The loop of speex_resampler_process_float, chunk by chunk. x is the whole signal, of
    // which input is the next part.
    method ProcessLoop(input: seq<real>, outLen: nat, ghost x: seq<real>, ghost done: nat, ghost made: nat)
      returns (inUsed: nat, out: seq<real>)
      requires Valid() && magic == 0 && Synced(x, done, made) && done + |input| <= |x|
               && input == x[done..done + |input|]
      modifies this`lastSample, this`sampFracNum, mem
      ensures Valid() && inUsed <= |input| && |out| <= outLen && out == Outputs(f, x, made, |out|)
      ensures Synced(x, done + inUsed, made + |out|)
      ensures |out| < outLen ==> inUsed == |input|
      ensures input == [] || outLen == 0 ==> inUsed == 0 && |out| == 0
      ensures mem[..o] == old(mem[..o]) && mem[o + size..] == old(mem[o + size..])
      ensures Reached(f, done, made) ==> Reached(f, done + inUsed, made + |out|)
      ensures Reached(f, done, made) && |out| < outLen && |input| > 0 ==> Passed(f, done + inUsed, made + |out|)
    {
      hide Pos, Frac, Outputs, Padded, Held;
      var xlen := size - (f.len - 1);
      inUsed, out := 0, [];
      while inUsed < |input| && |out| < outLen
        invariant Valid() && inUsed <= |input| && |out| <= outLen && out == Outputs(f, x, made, |out|)
        invariant Synced(x, done + inUsed, made + |out|)
        invariant (inUsed == 0 && |out| == 0) || (|input| > 0 && outLen > 0)
        invariant mem[..o] == old(mem[..o]) && mem[o + size..] == old(mem[o + size..])
        invariant Reached(f, done, made) ==> Reached(f, done + inUsed, made + |out|)
        invariant Reached(f, done, made) && |out| < outLen && inUsed > 0 ==> Passed(f, done + inUsed, made + |out|)
        decreases |input| - inUsed + (outLen - |out|)
      {
        var left := |input| - inUsed;
        var ichunk := if left > xlen then xlen else left;
        ghost var d, k := done + inUsed, made + |out|;
        Part(input, x, done, inUsed, ichunk);
        var used, more := ProcessChunk(input[inUsed..inUsed + ichunk], outLen - |out|, x, d, k);
        OutputsConcat(f, x, made, |out|, |more|);
        if Reached(f, d, k) { Progress(f, d, k, used, ichunk, |more|); }
        out := out + more;
        inUsed := inUsed + used;
      }
    }

    // speex_resampler_process_float: first the pending samples, then the input.
    // x is the whole signal, of which input is the part behind the pending samples.
    method Process(input: seq<real>, outLen: nat, ghost x: seq<real>, ghost done: nat, ghost made: nat)
      returns (inUsed: nat, out: seq<real>, ghost done': nat)
      requires Valid() && Synced(x, done, made) && done + magic + |input| <= |x|
      requires input == x[done + magic..done + magic + |input|]
      modifies this, mem
      ensures Valid() && inUsed <= |input| && |out| <= outLen && out == Outputs(f, x, made, |out|)
      ensures done' + magic == done + old(magic) + inUsed && done' >= done && Synced(x, done', made + |out|)
      ensures |out| < outLen ==> inUsed == |input| && magic == 0
      ensures old(magic) == 0 && (input == [] || outLen == 0) ==> inUsed == 0 && |out| == 0
      ensures magic <= old(magic)
      ensures mem[..o] == old(mem[..o]) && mem[o + size..] == old(mem[o + size..])
      ensures Reached(f, done, made) ==> Reached(f, done', made + |out|)
      ensures Reached(f, done, made) && |out| < outLen && |input| > 0 ==> IsCeiling(f, done', made + |out|)
    {
      hide Pos, Frac, Outputs, Padded, Held, Reached, Passed;
      inUsed, out, done' := 0, [], done;
      if magic > 0 {
        ghost var m, used := magic, 0;
        out, used := Magic(outLen, x, done, made);
        done' := done + used;
        if Reached(f, done, made) { Progress(f, done, made, used, m, |out|); }
      }
      if magic == 0 {
        ghost var d, k := done', made + |out|;
        var more;
        inUsed, more := ProcessLoop(input, outLen - |out|, x, d, k);
        OutputsConcat(f, x, made, |out|, |more|);
        out := out + more;
        done' := d + inUsed;
        if Passed(f, done', made + |out|) { CeilingReached(f, done', made + |out|); }
      }
    }
  }

  lemma Part(input: seq<real>, x: seq<real>, done: nat, used: nat, n: nat)
    requires done + |input| <= |x| && input == x[done..done + |input|] && used + n <= |input|
    ensures input[used..used + n] == x[done + used..done + used + n]
  {
    SliceOfSlice(x, done, done + |input|, used, used + n);
  }

  // The elements of v placed at base.
  ghost function Overwritten(s: seq<real>, base: nat, v: seq<real>): (r: seq<real>)
    requires base + |v| <= |s|
    ensures |r| == |s|
  {
    s[..base] + v + s[base + |v|..]
  }

  lemma NothingWritten(s: seq<real>, base: nat, v: seq<real>)
    requires base <= |s|
    ensures Overwritten(s, base, v[..0]) == s
  {
  }

  lemma OneWritten(s: seq<real>, base: nat, v: seq<real>, j: nat)
    requires j < |v| && base + |v| <= |s|
    ensures Overwritten(s, base, v[..j + 1]) == Overwritten(s, base, v[..j])[base + j := v[j]]
  {
  }

  // History and chunk together are a stretch of the padded signal.
  lemma Fed(f: Filter, before: seq<real>, now: seq<real>, o: nat, size: nat, v: seq<real>, x: seq<real>, done: nat)
    requires HasPast(f) && f.len - 1 + |v| <= size && o + size <= |before| && done + |v| <= |x|
    requires Held(before, o, f.len - 1) == Held(Padded(f, x), done, f.len - 1) && v == x[done..done + |v|]
    requires now == Overwritten(before, o + (f.len - 1), v)
    ensures Held(now, o, f.len - 1 + |v|) == Held(Padded(f, x), done, f.len - 1 + |v|)
    ensures now[..o] == before[..o] && now[o + size..] == before[o + size..]
  {
    hide Held, Padded, Overwritten;
    var h, p := f.len - 1, Padded(f, x);
    OnlyThere(before, now, o + h, v);
    SamePrefix(now, before, o, h);
    ChunkPadded(f, x, done, |v|);
    HeldSplit(now, o, h, |v|);
    HeldSplit(p, done, h, |v|);
    Outside(before, now, o + h, v, o, size);
  }

  lemma OnlyThere(before: seq<real>, now: seq<real>, base: nat, v: seq<real>)
    requires base + |v| <= |before| && now == Overwritten(before, base, v)
    ensures now[..base] == before[..base] && Held(now, base, |v|) == v
  {
  }

  lemma Outside(before: seq<real>, now: seq<real>, base: nat, v: seq<real>, o: nat, size: nat)
    requires o <= base && base + |v| <= o + size <= |before| && now == Overwritten(before, base, v)
    ensures now[..o] == before[..o] && now[o + size..] == before[o + size..]
  {
    forall k | o + size <= k < |before| ensures now[k] == before[k] {
    }
  }

  lemma ChunkPadded(f: Filter, x: seq<real>, done: nat, n: nat)
    requires HasPast(f) && done + n <= |x|
    ensures done + (f.len - 1) + n <= |Padded(f, x)|
    ensures Held(Padded(f, x), done + (f.len - 1), n) == x[done..done + n]
  {
  }

  lemma Unaffected2(before: seq<real>, mid: seq<real>, now: seq<real>, o: nat, h: nat, size: nat)
    requires h <= size && o + size <= |before| == |mid| == |now|
    requires mid[..o] == before[..o] && mid[o + size..] == before[o + size..]
    requires now[..o] == mid[..o] && now[o + h..] == mid[o + h..]
    ensures now[..o] == before[..o] && now[o + size..] == before[o + size..]
  {
    assert now[o + size..] == now[o + h..][size - h..] && mid[o + size..] == mid[o + h..][size - h..];
  }

  lemma Unaffected(before: seq<real>, mid: seq<real>, now: seq<real>, o: nat, h: nat, size: nat)
    requires h <= size && o + size <= |before| == |mid| == |now|
    requires mid[..o] == before[..o] && mid[o + h..] == before[o + h..]
    requires now[..o + h] == mid[..o + h] && now[o + size..] == mid[o + size..]
    ensures now[..o] == before[..o] && now[o + size..] == before[o + size..]
  {
    assert now[..o] == now[..o + h][..o] && mid[..o] == mid[..o + h][..o];
    assert mid[o + size..] == mid[o + h..][size - h..] && before[o + size..] == before[o + h..][size - h..];
  }

  lemma RestMoved(f: Filter, mid: seq<real>, now: seq<real>, o: nat, size: nat, m: nat, n: nat)
    requires HasPast(f) && n <= m && f.len - 1 + m <= size && o + size <= |mid|
    requires now == MovedDown(mid, o + (f.len - 1), m - n, n)
    ensures now[..o + f.len - 1] == mid[..o + f.len - 1] && now[o + size..] == mid[o + size..]
    ensures Held(now, o + (f.len - 1), m - n) == Held(mid, o + (f.len - 1) + n, m - n)
  {
  }

  lemma HeldSplit(s: seq<real>, o: nat, a: nat, b: nat)
    requires o + a + b <= |s|
    ensures Held(s, o, a + b) == Held(s, o, a) + Held(s, o + a, b)
  {
  }

  // Equal stretches have equal parts.
  lemma HeldPart(s: seq<real>, o: nat, r: seq<real>, q: nat, n: nat, a: nat, k: nat)
    requires o + n <= |s| && q + n <= |r| && a + k <= n && Held(s, o, n) == Held(r, q, n)
    ensures Held(s, o + a, k) == Held(r, q + a, k)
  {
    SliceOfSlice(s, o, o + n, a, a + k);
    SliceOfSlice(r, q, q + n, a, a + k);
  }

  lemma SamePrefix(s: seq<real>, r: seq<real>, o: nat, n: nat)
    requires o + n <= |s| && o + n <= |r| && s[..o + n] == r[..o + n]
    ensures Held(s, o, n) == Held(r, o, n)
  {
    HeldPart(s, 0, r, 0, o + n, o, n);
  }

  lemma SameSuffix(s: seq<real>, r: seq<real>, o: nat, a: nat, n: nat)
    requires o + a + n <= |s| == |r| && s[o..] == r[o..]
    ensures Held(s, o + a, n) == Held(r, o + a, n)
  {
    HeldPart(s, o, r, o, |s| - o, a, n);
  }

  // History moved by the filter and the rest moved after it make the new pending buffer.
  lemma PaddedLength(f: Filter, x: seq<real>)
    requires HasPast(f)
    ensures |Padded(f, x)| == f.len - 1 + |x|
  {
  }

  lemma AllUsed(f: Filter, mid: seq<real>, now: seq<real>, o: nat, x: seq<real>, d: nat, k: nat)
    requires HasPast(f) && k == 0 && d <= |x| && o + f.len - 1 <= |mid| && now == mid
    requires Held(mid, o, f.len - 1) == Held(Padded(f, x), d, f.len - 1)
    ensures Held(now, o, f.len - 1 + k) == Held(Padded(f, x), d, f.len - 1 + k)
  {
    hide Held;
  }

  lemma RestSynced(f: Filter, before: seq<real>, mid: seq<real>, now: seq<real>, o: nat, x: seq<real>, done: nat,
                   m: nat, n: nat)
    requires HasPast(f) && n <= m && done + m <= |x| && o + f.len - 1 + m <= |before| == |mid| == |now|
    requires Held(before, o, f.len - 1 + m) == Held(Padded(f, x), done, f.len - 1 + m)
    requires Held(mid, o, f.len - 1) == Held(Padded(f, x), done + n, f.len - 1)
    requires mid[o + f.len - 1..] == before[o + f.len - 1..]
    requires if n == m then now == mid
             else now[..o + f.len - 1] == mid[..o + f.len - 1]
                  && Held(now, o + (f.len - 1), m - n) == Held(mid, o + (f.len - 1) + n, m - n)
    ensures Held(now, o, f.len - 1 + (m - n)) == Held(Padded(f, x), done + n, f.len - 1 + (m - n))
  {
    hide Padded, Held;
    var p, h := Padded(f, x), f.len - 1;
    PaddedLength(f, x);
    if n == m {
      AllUsed(f, mid, now, o, x, done + n, m - n);
    } else {
      SamePrefix(now, mid, o, h);
      SameSuffix(mid, before, o + h, n, m - n);
      HeldPart(before, o, p, done, h + m, h + n, m - n);
      HeldSplit(now, o, h, m - n);
      HeldSplit(p, done + n, h, m - n);
      assert done + (h + n) == done + n + h && o + (h + n) == o + h + n;
    }
  }

  // n elements from base + shift on are copied to base.
  ghost function MovedDown(s: seq<real>, base: nat, n: nat, shift: nat): (r: seq<real>)
    requires base + n + shift <= |s|
    ensures |r| == |s|
  {
    s[..base] + s[base + shift..base + shift + n] + s[base + n..]
  }

  lemma NothingMoved(s: seq<real>, base: nat, shift: nat)
    requires base + shift <= |s|
    ensures MovedDown(s, base, 0, shift) == s
  {
  }

  lemma OneMoved(s: seq<real>, base: nat, n: nat, shift: nat)
    requires base + n + 1 + shift <= |s|
    ensures MovedDown(s, base, n, shift)[base + n + shift] == s[base + n + shift]
    ensures MovedDown(s, base, n + 1, shift) == MovedDown(s, base, n, shift)[base + n := s[base + n + shift]]
  {
  }

  lemma SliceOfSlice<T>(s: seq<T>, a: nat, b: nat, c: nat, d: nat)
    requires a <= b <= |s| && c <= d <= b - a
    ensures s[a..b][c..d] == s[a + c..a + d]
  {
    forall i | 0 <= i < d - c ensures s[a..b][c..d][i] == s[a + c..a + d][i] {
    }
  }

  lemma SameWindow(f: Filter, x: seq<real>, s: seq<real>, o: nat, n: nat, done: nat, last: nat)
    requires HasPast(f) && o + n <= |s| && done + n <= f.len - 1 + |x| && last + f.len <= n
    requires Held(s, o, n) == Held(Padded(f, x), done, n)
    ensures Held(s, o + last, f.len) == Window(Padded(f, x), done + last, f.len)
  {
    var p, d := Padded(f, x), done + last;
    HeldPart(s, o, p, done, n, last, f.len);
    forall j | 0 <= j < f.len ensures Held(p, d, f.len)[j] == At(p, d + j) {
    }
  }

  lemma IsOutput(f: Filter, x: seq<real>, k: nat, w: seq<real>, sum: real)
    requires f.den > 0 && HasPast(f) && w == Window(Padded(f, x), Pos(f, k), f.len)
    requires sum == Inner(f.sinc, Frac(f, k) * f.len, w, f.len)
    ensures sum == Output(f, x, k)
  {
  }

  lemma HistoryMoved(f: Filter, before: seq<real>, now: seq<real>, o: nat, x: seq<real>, done: nat, inLen: nat,
                     used: nat)
    requires HasPast(f) && used <= inLen && done + inLen <= |x| && o + f.len - 1 + inLen <= |before| == |now|
    requires Held(before, o, f.len - 1 + inLen) == Held(Padded(f, x), done, f.len - 1 + inLen)
    requires now == MovedDown(before, o + 0, f.len - 1, used)
    ensures now[..o] == before[..o] && now[o + f.len - 1..] == before[o + f.len - 1..]
    ensures Held(now, o, f.len - 1) == Held(Padded(f, x), done + used, f.len - 1)
  {
    var p := Padded(f, x);
    hide Padded;
    assert now[o..o + f.len - 1] == before[o + used..o + used + f.len - 1];
    HeldPart(before, o, p, done, f.len - 1 + inLen, used, f.len - 1);
  }

  lemma NothingSummed(c: seq<real>, ci: int, w: seq<real>)
    ensures Inner(c, ci, w, 0) == 0.0
  {
  }

  lemma FourTaps(c: seq<real>, ci: nat, w: seq<real>, n: nat)
    requires ci + n + 3 < |c| && n + 3 < |w|
    ensures Inner(c, ci, w, n + 4) == Inner(c, ci, w, n) + Mult(c[ci + n], w[n]) + Mult(c[ci + n + 1], w[n + 1])
                                      + Mult(c[ci + n + 2], w[n + 2]) + Mult(c[ci + n + 3], w[n + 3])
  {
    assert Inner(c, ci, w, n + 1) == Inner(c, ci, w, n) + Mult(c[ci + n], w[n]);
    assert Inner(c, ci, w, n + 2) == Inner(c, ci, w, n + 1) + Mult(c[ci + n + 1], w[n + 1]);
    assert Inner(c, ci, w, n + 3) == Inner(c, ci, w, n + 2) + Mult(c[ci + n + 2], w[n + 2]);
  }

  // The state that a stream starts from: the past behind, something perhaps pending.
  lemma Started(f: Filter, x: seq<real>, block: seq<real>, pending: seq<real>)
    requires IsFilter(f) && block == f.past + pending && |pending| <= |x| && x[..|pending|] == pending
    ensures Held(block, 0, |block|) == Held(Padded(f, x), 0, |block|)
    ensures Pos(f, 0) == f.start && Frac(f, 0) == f.phase && Reached(f, 0, 0)
  {
    DivModUnique(f.phase, 0, f.phase, f.den);
    assert Padded(f, x)[..|block|] == f.past + x[..|pending|];
  }

  lemma StartsSynced(f: Filter, mem: seq<real>, o: nat, magic: nat, x: seq<real>)
    requires IsFilter(f) && o + f.len - 1 + magic <= |mem| && Held(mem, o, f.len - 1) == f.past
    requires magic <= |x| && x[..magic] == Held(mem, o + (f.len - 1), magic)
    ensures Held(mem, o, f.len - 1 + magic) == Held(Padded(f, x), 0, f.len - 1 + magic)
    ensures Pos(f, 0) == f.start && Frac(f, 0) == f.phase
  {
    var block := Held(mem, o, f.len - 1 + magic);
    HeldSplit(mem, o, f.len - 1, magic);
    Started(f, x, block, x[..magic]);
  }

  // What the calls of a stream offer: an amount of input and room for output.
  datatype Call = Call(inLen: nat, outLen: nat)

  // Every call has room for all that the signal can give.
  predicate Ample(calls: seq<Call>, n: nat, den: nat) {
    forall i :: 0 <= i < |calls| ==> calls[i].outLen > (n + 1) * den
  }

  // The input that the calls offer, of avail samples in all.
  function Offered(calls: seq<Call>, avail: nat): (n: nat)
    ensures n <= avail
  {
    if calls == [] then 0
    else
      var before := Offered(calls[..|calls| - 1], avail);
      if calls[|calls| - 1].inLen <= avail - before then before + calls[|calls| - 1].inLen else avail
  }

  lemma OfferedMore(calls: seq<Call>, i: nat, avail: nat)
    requires i < |calls|
    ensures Offered(calls[..i + 1], avail)
         == var before := Offered(calls[..i], avail);
            before + if calls[i].inLen <= avail - before then calls[i].inLen else avail - before
  {
    assert calls[..i + 1][..i] == calls[..i];
  }

  // Any sequence of calls, each offering what follows the input used so far, yields a prefix
  // of the one-shot result. The signal x begins with the samples that were pending.
  method Stream(c: Channel, x: seq<real>, calls: seq<Call>) returns (out: seq<real>, used: nat, ghost done: nat)
    requires c.Valid() && c.magic <= |x| && c.Synced(x, 0, 0)
    modifies c, c.mem
    ensures c.Valid() && out == Outputs(c.f, x, 0, |out|)
    ensures done + c.magic == old(c.magic) + used <= |x| && c.Synced(x, done, |out|)
    ensures done * c.f.den + c.lastSample * c.f.den + c.sampFracNum == Stand(c.f, |out|) && c.sampFracNum < c.f.den
    ensures Ample(calls, |x|, c.f.den) ==> used == Offered(calls, |x| - old(c.magic))
    ensures Ample(calls, |x|, c.f.den) && used > 0 ==> done == old(c.magic) + used && IsCeiling(c.f, done, |out|)
  {
    hide Outputs, Pos, Frac, Padded, Held, Reached, IsCeiling, Stand, Offered;
    ghost var pending := c.magic;
    var from := c.magic;
    used, out, done := 0, [], 0;
    StartOutputs(c.f, x);
    NothingReached(c.f, calls, |x| - pending);
    ghost var ample := Ample(calls, |x|, c.f.den);
    for i := 0 to |calls|
      invariant c.Valid() && out == Outputs(c.f, x, 0, |out|)
      invariant done + c.magic == pending + used <= |x| && from == pending && c.Synced(x, done, |out|)
      invariant Reached(c.f, done, |out|)
      invariant ample ==> used == Offered(calls[..i], |x| - pending)
      invariant ample && used > 0 ==> c.magic == 0 && IsCeiling(c.f, done, |out|)
    {
      var n := if calls[i].inLen <= |x| - (from + used) then calls[i].inLen else |x| - (from + used);
      ghost var made := |out|;
      OfferedMore(calls, i, |x| - pending);
      var inUsed, more;
      inUsed, more, done := c.Process(x[from + used..from + used + n], calls[i].outLen, x, done, made);
      OutputsConcat(c.f, x, 0, made, |more|);
      if ample { RoomLeft(c.f, done, made + |more|, |x|); }
      out := out + more;
      used := used + inUsed;
    }
    assert calls[..|calls|] == calls;
    Conservation(c.f, done, c.lastSample, c.sampFracNum, |out|);
  }

  lemma NothingReached(f: Filter, calls: seq<Call>, avail: nat)
    requires f.den > 0
    ensures Reached(f, 0, 0) && Offered(calls[..0], avail) == 0
  {
  }

  lemma RoomLeft(f: Filter, done: nat, made: nat, n: nat)
    requires f.den > 0 && f.num > 0 && Reached(f, done, made) && done <= n
    ensures made <= (n + 1) * f.den
  {
    hide Reached;
    ReachedBound(f, done, made);
    MulLe(done + 1, n + 1, f.den);
  }

  lemma StartOutputs(f: Filter, x: seq<real>)
    requires f.den > 0 && HasPast(f)
    ensures Outputs(f, x, 0, 0) == []
  {
  }
}
