/** The resampler with all its channels: processing on any channel, changes of the filter length and of
    the rate, in any order (resample.c). */
module ResampleRuns {
  import opened Arith
  import opened ResampleSpec
  import opened Resample
  import opened ResampleRate
  import opened ResampleMemory
  import opened ResampleTrace

  class Resampler {
    const memory: Memory
    const sampFracNum: array<nat>
    // The values of the filter table, by filter length, denominator and index.
    const tap: (nat, nat, nat) -> real
    var num: nat
    var den: nat
    var started: bool

    ghost predicate Sized()
      reads this, memory, memory.magic, memory.lastSample, sampFracNum
    {
      && memory.Valid() && memory.filtLen % 4 == 0 && num > 0 && den > 0 && sampFracNum != memory.magic
      && sampFracNum.Length == memory.nbChannels == memory.magic.Length == memory.lastSample.Length
      && (forall i :: 0 <= i < memory.nbChannels ==> memory.lastSample[i] >= 0 && sampFracNum[i] < den)
    }

    ghost predicate Valid()
      reads this, memory, memory.mem, memory.magic, memory.lastSample, sampFracNum
    {
      Sized() && (started || Silent())
    }

    // Nothing has been processed yet.
    ghost predicate Silent()
      requires Sized()
      reads this, memory, memory.mem, memory.magic, memory.lastSample, sampFracNum
    {
      forall i :: 0 <= i < memory.nbChannels ==>
        memory.magic[i] == 0 && memory.Buffered(i) == Zeros(memory.filtLen - 1)
    }

    ghost function ChanOf(i: nat): (c: Chan)
      requires Sized() && i < memory.nbChannels
      reads this, memory, memory.mem, memory.magic, memory.lastSample, sampFracNum
    {
      Chan(memory.Buffered(i), memory.magic[i], memory.lastSample[i], sampFracNum[i])
    }

    ghost function Chans(): (s: seq<Chan>)
      requires Sized()
      reads this, memory, memory.mem, memory.magic, memory.lastSample, sampFracNum
      ensures |s| == memory.nbChannels && forall i :: 0 <= i < |s| ==> s[i] == ChanOf(i)
    {
      seq(memory.nbChannels, i requires 0 <= i < memory.nbChannels && Sized()
                               reads this, memory, memory.mem, memory.magic, memory.lastSample, sampFracNum
                               => ChanOf(i))
    }

    ghost function View(): (s: Snapshot)
      requires Valid()
      reads this, memory, memory.mem, memory.magic, memory.lastSample, sampFracNum
      ensures IsSnapshot(s)
    {
      Snapshot(num, den, memory.filtLen, memory.longest, started, Chans())
    }

    constructor (nbChannels: nat, num: nat, den: nat, len: nat, tap: (nat, nat, nat) -> real)
      requires num > 0 && den > 0 && 0 < len && len % 4 == 0
      ensures Valid() && fresh(memory) && fresh(memory.mem) && fresh(memory.lastSample) && fresh(memory.magic)
              && fresh(sampFracNum)
      ensures this.tap == tap && View() == Snapshot(num, den, len, len, false, View().chans)
      ensures |View().chans| == nbChannels && forall i :: 0 <= i < nbChannels ==>
              View().chans[i] == Chan(Zeros(len - 1), 0, 0, 0)
    {
      hide Held, Zeros, Memory.Buffered, Memory.Valid, IsSnapshot;
      sampFracNum := new nat[nbChannels](_ => 0);
      memory := new Memory(nbChannels, len);
      this.num, this.den, this.tap, started := num, den, tap, false;
      new;
      assert Sized();
      forall i | 0 <= i < nbChannels ensures ChanOf(i) == Chan(Zeros(len - 1), 0, 0, 0) {
      }
    }

    // The call on one channel, as far as the memory goes.
    method ProcessMemory(i: nat, input: seq<real>, outLen: nat) returns (inUsed: nat, out: seq<real>)
      requires Valid() && i < memory.nbChannels
      modifies memory.mem, memory.lastSample, memory.magic, sampFracNum
      ensures Sized() && |Chans()| == memory.nbChannels && inUsed <= |input|
      ensures var c, c' := old(ChanOf(i)), ChanOf(i);
              && RunEnds(old(FilterIn(tap, View(), i)), c.buffered, c.magic, input, outLen, inUsed, out, c'.magic,
                  c'.last, c'.frac)
              && c'.buffered == Latest(c.buffered + input[..inUsed], memory.filtLen - 1 + c'.magic)
      ensures forall j :: 0 <= j < memory.nbChannels && j != i ==> ChanOf(j) == old(ChanOf(j))
    {
      hide Held, Outputs, Latest, OnlyIn, IsFilter, FilterIn;
      var m, magic, last, frac := memory, 0, 0, 0;
      ghost var before := m.mem[..];
      inUsed, out, magic, last, frac := RunChannel(i, input, outLen);
      m.lastSample[i], m.magic[i], sampFracNum[i] := last, magic, frac;
      forall j | 0 <= j < m.nbChannels && j != i ensures m.Buffered(j) == old(m.Buffered(j)) {
        Untouched(before, m.mem[..], i, j, m.nbChannels, m.memAllocSize, m.filtLen - 1 + m.magic[j]);
      }
    }

    method RunChannel(i: nat, input: seq<real>, outLen: nat)
      returns (inUsed: nat, out: seq<real>, magic: nat, last: nat, frac: nat)
      requires Valid() && i < memory.nbChannels
      modifies memory.mem
      ensures RunEnds(old(FilterIn(tap, View(), i)), old(memory.Buffered(i)), memory.magic[i], input, outLen,
                      inUsed, out, magic, last, frac)
      ensures 0 <= i * memory.memAllocSize && i * memory.memAllocSize + memory.memAllocSize <= memory.mem.Length
      ensures memory.filtLen - 1 + magic <= memory.memAllocSize
      ensures Held(memory.mem[..], i * memory.memAllocSize, memory.filtLen - 1 + magic)
           == Latest(old(memory.Buffered(i)) + input[..inUsed], memory.filtLen - 1 + magic)
      ensures OnlyIn(old(memory.mem[..]), memory.mem[..], i * memory.memAllocSize, memory.memAllocSize)
    {
      hide Held, Outputs, Latest, OnlyIn, RunEnds;
      var m := memory;
      var o, hist := i * m.memAllocSize, m.filtLen - 1;
      Layout(i, i, m.nbChannels, m.memAllocSize, m.memAllocSize);
      Parts(m.mem[..], o, hist, m.magic[i]);
      var f := Filter(num, den, m.filtLen, Table(tap, den, m.filtLen), m.mem[o..o + hist], m.lastSample[i],
                      sampFracNum[i]);
      inUsed, out, magic, last, frac := RunBlock(f, m.mem, o, m.memAllocSize, m.magic[i], input, outLen);
    }

    // A call without input or without room leaves the silence before the start.
    method ProcessQuietly(i: nat, input: seq<real>, outLen: nat) returns (inUsed: nat, out: seq<real>)
      requires Valid() && i < memory.nbChannels
      modifies memory.mem, memory.lastSample, memory.magic, sampFracNum
      ensures Sized() && |Chans()| == memory.nbChannels && inUsed <= |input|
      ensures var c, c' := old(ChanOf(i)), ChanOf(i);
              && RunEnds(old(FilterIn(tap, View(), i)), c.buffered, c.magic, input, outLen, inUsed, out, c'.magic,
                  c'.last, c'.frac)
              && c'.buffered == Latest(c.buffered + input[..inUsed], memory.filtLen - 1 + c'.magic)
      ensures forall j :: 0 <= j < memory.nbChannels && j != i ==> ChanOf(j) == old(ChanOf(j))
      ensures started || Silent() || (input != [] && outLen > 0)
    {
      hide RunEnds, Latest, IsFilter, Memory.Valid, FilterIn;
      inUsed, out := ProcessMemory(i, input, outLen);
      if !started && (input == [] || outLen == 0) {
        StillSilent(memory.filtLen - 1);
        NothingDone(old(FilterIn(tap, View(), i)), old(memory.Buffered(i)), input, outLen, inUsed, out,
                    memory.magic[i], memory.lastSample[i], sampFracNum[i]);
        forall j | 0 <= j < memory.nbChannels
          ensures memory.magic[j] == 0 && memory.Buffered(j) == Zeros(memory.filtLen - 1)
        {
          if j != i { assert ChanOf(j) == old(ChanOf(j)); }
        }
      }
    }

    // speex_resampler_process_float on one channel.
    method Process(i: nat, input: seq<real>, outLen: nat) returns (inUsed: nat, out: seq<real>)
      requires Valid() && i < memory.nbChannels
      modifies this`started, memory.mem, memory.lastSample, memory.magic, sampFracNum
      ensures Valid() && Processed(tap, old(View()), i, input, outLen, Result(inUsed, out), View())
    {
      hide RunEnds, Latest, IsFilter, Memory.Valid, FilterIn;
      inUsed, out := ProcessQuietly(i, input, outLen);
      if input != [] && outLen > 0 { started := true; }
    }

    // The end of update_filter, for a filter of the given length. Before the start the block is made anew.
    method ChangeLength(len: nat)
      requires Valid() && 0 < len && len % 4 == 0
      modifies memory, memory.mem, memory.lastSample, memory.magic
      ensures Valid() && (memory.mem == old(memory.mem) || fresh(memory.mem)) && Relength(old(View()), len, View())
    {
      hide Latest, NewMagic, NewLast, Memory.Valid;
      if started {
        memory.ChangeLength(len);
      } else {
        memory.Restart(len);
        LatestSilence();
      }
      forall i | 0 <= i < memory.nbChannels ensures Relaid(old(View()), old(ChanOf(i)), len, ChanOf(i)) {
      }
    }

    // The loop of speex_resampler_set_rate_frac over the phases.
    method RescaleAll(newDen: nat)
      requires Sized() && newDen > 0
      modifies sampFracNum
      ensures forall i :: 0 <= i < memory.nbChannels ==>
              sampFracNum[i] == Rescale(old(sampFracNum[i]), newDen, den) < newDen
    {
      hide Rescale, Memory.Valid;
      for i := 0 to memory.nbChannels
        invariant den > 0
        invariant forall k :: i <= k < memory.nbChannels ==> sampFracNum[k] == old(sampFracNum[k])
        invariant forall k :: 0 <= k < i ==> sampFracNum[k] == Rescale(old(sampFracNum[k]), newDen, den) < newDen
      {
        RescaleInRange(sampFracNum[i], newDen, den);
        sampFracNum[i] := Rescale(sampFracNum[i], newDen, den);
      }
    }

    method Rephase(newNum: nat, newDen: nat)
      requires Valid() && newNum > 0 && newDen > 0
      modifies this`num, this`den, sampFracNum
      ensures Valid() && PhasesFit(old(View()))
      ensures var s := old(View());
              View() == s.(num := newNum, den := newDen, chans := Rescaled(s.chans, newDen, s.den))
    {
      hide Rescale, Memory.Valid;
      ghost var s := View();
      Phases();
      RescaleAll(newDen);
      num, den := newNum, newDen;
      assert Sized();
      forall i | 0 <= i < memory.nbChannels ensures ChanOf(i) == Rescaled(s.chans, newDen, s.den)[i] {
        assert s.chans[i] == old(ChanOf(i));
      }
      assert Chans() == Rescaled(s.chans, newDen, s.den);
    }

    lemma Phases()
      requires Valid()
      ensures PhasesFit(View())
    {
    }

    // speex_resampler_set_rate_frac, with the filter length that goes with the new rate.
    method SetRate(ratioNum: nat, ratioDen: nat, len: nat)
      requires Valid() && ratioNum > 0 && ratioDen > 0 && 0 < len && len % 4 == 0
      modifies this`num, this`den, memory, memory.mem, memory.lastSample, memory.magic, sampFracNum
      ensures Valid() && (memory.mem == old(memory.mem) || fresh(memory.mem))
      ensures Rerated(old(View()), ratioNum, ratioDen, len, View())
    {
      hide LowestTerms, Valid, View, Relength, Rescaled;
      var n, d;
      ghost var c;
      n, d, c := Reduce(ratioNum, ratioDen);
      SameRatio(n, d, c);
      Rephase(n, d);
      ghost var mid := View();
      ChangeLength(len);
      RelengthKeepsRate(mid, len, View());
    }

    method Play(e: Event) returns (r: Result)
      requires Valid() && Callable(e, memory.nbChannels)
      modifies this, memory, memory.mem, memory.lastSample, memory.magic, sampFracNum
      ensures Valid() && (memory.mem == old(memory.mem) || fresh(memory.mem)) && Step(tap, old(View()), e, r, View())
    {
      hide Valid, View, Processed, Relength, Rerated;
      r := Result(0, []);
      ChannelCount();
      match e
      case Feed(i, input, outLen) =>
        var inUsed, out := Process(i, input, outLen);
        r := Result(inUsed, out);
      case Length(len) =>
        ChangeLength(len);
      case Rate(ratioNum, ratioDen, len) =>
        SetRate(ratioNum, ratioDen, len);
    }

    lemma ViewHolds(i: nat)
      requires Valid() && i < memory.nbChannels
      ensures |View().chans| == memory.nbChannels && View().chans[i].buffered == memory.Buffered(i)
    {
    }

    lemma ChannelCount()
      requires Valid()
      ensures |View().chans| == memory.nbChannels
    {
    }

    // Any calls in any order. What each channel holds at the end is what it keeps by the rule of Kept, and
    // every output on the way is that of its filter over what it kept so far and the new input.
    method PlayAll(events: seq<Event>) returns (results: seq<Result>, ghost trace: seq<Snapshot>)
      requires Valid() && forall k :: 0 <= k < |events| ==> Callable(events[k], memory.nbChannels)
      modifies this, memory, memory.mem, memory.lastSample, memory.magic, sampFracNum
      ensures Valid() && IsTrace(tap, events, results, trace) && trace[0] == old(View())
      ensures trace[|events|] == View() && (memory.mem == old(memory.mem) || fresh(memory.mem))
      ensures forall k :: 0 <= k <= |events| ==> |trace[k].chans| == memory.nbChannels
      ensures forall i: nat :: i < memory.nbChannels ==>
        memory.Buffered(i) == Kept(old(memory.Buffered(i)), events, results, trace, i, |events|)
      ensures forall k: nat :: k < |events| && events[k].Feed? ==> PutsOut(tap, events, results, trace, k)
    {
      hide Memory.Valid, Silent, View, Step, IsSnapshot, Kept, PutsOut;
      ChannelCount();
      forall i | 0 <= i < memory.nbChannels ensures View().chans[i].buffered == memory.Buffered(i) { ViewHolds(i); }
      results, trace := [], [View()];
      for k := 0 to |events|
        invariant Valid() && IsTrace(tap, events[..k], results, trace) && trace[0] == old(View()) && trace[k] == View()
        invariant memory.mem == old(memory.mem) || fresh(memory.mem)
      {
        var r := Play(events[k]);
        TraceMore(tap, events, k, results, trace, r, View());
        results, trace := results + [r], trace + [View()];
      }
      assert events[..|events|] == events;
      forall k | 0 <= k <= |events| ensures |trace[k].chans| == memory.nbChannels {
        SameChannels(tap, events, results, trace, k);
      }
      forall i: nat | i < memory.nbChannels
        ensures memory.Buffered(i) == Kept(old(memory.Buffered(i)), events, results, trace, i, |events|)
      {
        BufferIsKept(tap, events, results, trace, i, |events|);
        ViewHolds(i);
      }
      forall k: nat | k < |events| && events[k].Feed? ensures PutsOut(tap, events, results, trace, k) {
        OutputsOfTrace(tap, events, results, trace, k);
      }
    }
  }

  method RunBlock(f: Filter, mem: array<real>, o: nat, size: nat, pending: nat, input: seq<real>, outLen: nat)
    returns (inUsed: nat, out: seq<real>, magic: nat, last: nat, frac: nat)
    requires IsFilter(f) && o + size <= mem.Length && f.len - 1 + pending <= size && f.len <= size
    requires Held(mem[..], o, f.len - 1) == f.past
    modifies mem
    ensures RunEnds(f, old(Held(mem[..], o, f.len - 1 + pending)), pending, input, outLen, inUsed, out, magic, last,
            frac)
    ensures magic <= pending && inUsed <= |input|
    ensures Held(mem[..], o, f.len - 1 + magic)
            == Latest(old(Held(mem[..], o, f.len - 1 + pending)) + input[..inUsed], f.len - 1 + magic)
    ensures OnlyIn(old(mem[..]), mem[..], o, size)
  {
    hide Held, Outputs, Latest, Pos, Frac, Padded, Reached, IsCeiling, RunEnds, OnlyIn, Signal;
    ghost var buffered := Held(mem[..], o, f.len - 1 + pending);
    Parts(mem[..], o, f.len - 1, pending);
    ghost var x := Signal(buffered, f.len - 1, input);
    Joined(buffered, f.len - 1, input);
    var c := new Channel(f, mem, o, size, pending, x);
    ghost var done;
    NothingReached(f);
    inUsed, out, done := c.Process(input, outLen, x, 0, 0);
    magic, last, frac := c.magic, c.lastSample, c.sampFracNum;
    Rest(f, x, buffered, input, inUsed, done, magic);
    Ended(f, buffered, pending, input, outLen, inUsed, out, magic, last, frac, done);
    Within(old(mem[..]), mem[..], o, size);
  }

  lemma NothingReached(f: Filter)
    requires f.den > 0
    ensures Reached(f, 0, 0)
  {
  }

  lemma Joined(buffered: seq<real>, hist: nat, input: seq<real>)
    requires hist <= |buffered|
    ensures var x, n := Signal(buffered, hist, input), |buffered| - hist;
            x[..n] == buffered[hist..] && x[n..n + |input|] == input
  {
  }

  lemma Within(was: seq<real>, now: seq<real>, o: nat, size: nat)
    requires o + size <= |was| == |now| && now[..o] == was[..o] && now[o + size..] == was[o + size..]
    ensures OnlyIn(was, now, o, size)
  {
  }

  lemma Ended(f: Filter, buffered: seq<real>, pending: nat, input: seq<real>, outLen: nat,
              inUsed: nat, out: seq<real>, magic: nat, last: nat, frac: nat, done: nat)
    requires IsFilter(f) && |buffered| == f.len - 1 + pending && inUsed <= |input| && |out| <= outLen
             && magic <= pending
    requires out == Outputs(f, Signal(buffered, f.len - 1, input), 0, |out|)
    requires |out| < outLen ==> inUsed == |input| && magic == 0
    requires pending == 0 && (input == [] || outLen == 0) ==> inUsed == 0 && |out| == 0
    requires done + last == Pos(f, |out|) && frac == Frac(f, |out|) && done + magic == pending + inUsed
    requires Reached(f, done, |out|) && (|out| < outLen && |input| > 0 ==> IsCeiling(f, done, |out|))
    ensures RunEnds(f, buffered, pending, input, outLen, inUsed, out, magic, last, frac)
  {
    CentreMoves(f, |out|, done, last, frac);
    if |out| > 0 { PosCompare(f, |out| - 1, done + 1); }
    hide Pos, Frac, Outputs, IsCeiling, Stand;
    assert inUsed + pending - magic + last - f.start == done + last - f.start;
  }

  lemma NothingDone(f: Filter, buffered: seq<real>, input: seq<real>, outLen: nat, inUsed: nat, out: seq<real>,
                    magic: nat, last: nat, frac: nat)
    requires RunEnds(f, buffered, 0, input, outLen, inUsed, out, magic, last, frac) && (input == [] || outLen == 0)
    ensures magic == 0 && input[..inUsed] == []
  {
  }

  lemma SameRatio(n: nat, d: nat, c: nat)
    ensures n * (c * d) == (c * n) * d
  {
    assert n * (c * d) == (n * c) * d;
  }

  lemma RelengthKeepsRate(s: Snapshot, len: nat, s': Snapshot)
    requires Relength(s, len, s')
    ensures s'.num == s.num && s'.den == s.den
  {
  }

  lemma LatestSilence()
    ensures forall m: nat, n: nat :: Latest(Zeros(m), n) == Zeros(n)
  {
  }

  lemma StillSilent(n: nat)
    ensures Latest(Zeros(n) + [], n) == Zeros(n)
  {
  }

  lemma Untouched(before: seq<real>, now: seq<real>, i: nat, j: nat, count: nat, alloc: nat, n: nat)
    requires i < count && j < count && i != j && n <= alloc && |before| == count * alloc
    requires 0 <= i * alloc && i * alloc + alloc <= |before| && OnlyIn(before, now, i * alloc, alloc)
    ensures 0 <= j * alloc && j * alloc + n <= |before| == |now|
            && Held(now, j * alloc, n) == Held(before, j * alloc, n)
  {
    Layout(i, j, count, alloc, alloc);
    Layout(j, i, count, alloc, alloc);
    OutsideKept(before, now, i * alloc, alloc, j * alloc, n);
  }

  lemma Parts(s: seq<real>, o: nat, h: nat, magic: nat)
    requires o + h + magic <= |s|
    ensures Held(s, o, h + magic)[..h] == s[o..o + h] == Held(s, o, h)
    ensures Held(s, o, h + magic)[h..] == Held(s, o + h, magic)
  {
  }

  // What is left is the end of what was there and of the input that was used.
  lemma Rest(f: Filter, x: seq<real>, buffered: seq<real>, input: seq<real>, inUsed: nat, done: nat, magic: nat)
    requires HasPast(f) && |buffered| >= f.len - 1 && f.past == buffered[..f.len - 1]
             && x == Signal(buffered, f.len - 1, input)
    requires inUsed <= |input| && done + f.len - 1 + magic == |buffered| + inUsed
    ensures Held(Padded(f, x), done, f.len - 1 + magic) == Latest(buffered + input[..inUsed], f.len - 1 + magic)
  {
    assert Padded(f, x) == buffered + input;
    assert (buffered + input[..inUsed])[done..] == (buffered + input)[done..done + f.len - 1 + magic];
  }

  lemma CentreMoves(f: Filter, made: nat, done: nat, last: int, frac: nat)
    requires f.den > 0 && done + last == Pos(f, made) && frac == Frac(f, made)
    ensures (done + last - f.start) * f.den + frac == f.phase + made * f.num && frac < f.den
  {
    PosFrac(f, made);
    hide Pos;
  }
}
