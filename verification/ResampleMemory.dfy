/** Changing the filter length in mid-stream: the last part of update_filter, over all channels
    of the one memory block. */
module ResampleMemory {
  import opened Arith
  import opened ResampleSpec
  import opened Resample

  const BUFFER_SIZE := 160

  // ---------- copying inside the block ----------

  // n elements from src on are copied to dst.
  ghost function Copied(s: seq<real>, src: nat, dst: nat, n: nat): (r: seq<real>)
    requires src + n <= |s| && dst + n <= |s|
    ensures |r| == |s|
  {
    s[..dst] + s[src..src + n] + s[dst + n..]
  }

  lemma CopyDownStep(s: seq<real>, src: nat, dst: nat, n: nat)
    requires dst <= src && src + n + 1 <= |s|
    ensures Copied(s, src, dst, n)[src + n] == s[src + n]
    ensures Copied(s, src, dst, n + 1) == Copied(s, src, dst, n)[dst + n := s[src + n]]
  {
  }

  // Copying towards the front, first element first.
  method CopyDown(mem: array<real>, src: nat, dst: nat, n: nat)
    requires dst <= src && src + n <= mem.Length
    modifies mem
    ensures mem[..] == Copied(old(mem[..]), src, dst, n)
  {
    hide Copied;
    ghost var was := mem[..];
    NothingCopied(was, src, dst);
    for j := 0 to n
      invariant mem[..] == Copied(was, src, dst, j)
    {
      CopyDownStep(was, src, dst, j);
      mem[dst + j] := mem[src + j];
    }
  }

  lemma NothingCopied(s: seq<real>, src: nat, dst: nat)
    requires src <= |s| && dst <= |s|
    ensures Copied(s, src, dst, 0) == s
  {
  }

  lemma CopyUpStep(s: seq<real>, src: nat, dst: nat, n: nat)
    requires 0 < src + 1 <= dst + 1 && dst + 1 + n <= |s|
    ensures Copied(s, src + 1, dst + 1, n)[src] == s[src]
    ensures Copied(s, src, dst, n + 1) == Copied(s, src + 1, dst + 1, n)[dst := s[src]]
  {
  }

  // Copying towards the back, last element first.
  method CopyUp(mem: array<real>, src: nat, dst: nat, n: nat)
    requires src <= dst && dst + n <= mem.Length
    modifies mem
    ensures mem[..] == Copied(old(mem[..]), src, dst, n)
  {
    hide Copied;
    ghost var was := mem[..];
    NothingCopied(was, src + n, dst + n);
    var j := n;
    while j > 0
      invariant 0 <= j <= n && mem[..] == Copied(was, src + j, dst + j, n - j)
    {
      j := j - 1;
      CopyUpStep(was, src + j, dst + j, n - (j + 1));
      mem[dst + j] := mem[src + j];
    }
  }

  method Silence(mem: array<real>, at: nat, n: nat)
    requires at + n <= mem.Length
    modifies mem
    ensures mem[..] == Overwritten(old(mem[..]), at, Zeros(n))
  {
    hide Overwritten;
    ghost var was, z := mem[..], Zeros(n);
    NothingWritten(was, at, z);
    for j := 0 to n
      invariant mem[..] == Overwritten(was, at, z[..j])
    {
      OneWritten(was, at, z, j);
      mem[at + j] := 0.0;
    }
    assert z[..n] == z;
  }

  // ---------- what happens to one channel ----------

  // The last n samples of d, with silence before them if there are not enough.
  ghost function Latest(d: seq<real>, n: nat): (r: seq<real>)
    ensures |r| == n
  {
    if n <= |d| then d[|d| - n..] else Zeros(n - |d|) + d
  }

  lemma LatestOfLatest(d: seq<real>, m: nat, n: nat)
    requires n <= m || |d| <= m
    ensures Latest(Latest(d, m), n) == Latest(d, n)
  {
  }

  // Samples kept beyond the history, and the next position, when the filter length goes from
  // old to len.
  function NewMagic(prev: nat, magic: nat, len: nat): nat {
    if len > prev then (if len > prev + 2 * magic then 0 else (prev + 2 * magic - len) / 2)
    else if len < prev then (prev - len) / 2 + magic else magic
  }

  function NewLast(prev: nat, magic: nat, len: nat, last: int): int {
    if len > prev + 2 * magic then last + (len - (prev + 2 * magic)) / 2 else last
  }

  // Nothing grows beyond the longest filter so far, and the centre of the filter keeps its
  // distance from the newest sample.
  lemma LengthChange(prev: nat, magic: nat, len: nat, last: int, longest: nat)
    requires prev % 2 == 0 && len % 2 == 0 && prev + 2 * magic <= longest
    ensures len + 2 * NewMagic(prev, magic, len) <= (if len > longest then len else longest)
    ensures len / 2 + NewMagic(prev, magic, len) - NewLast(prev, magic, len, last) == prev / 2 + magic - last
    ensures NewLast(prev, magic, len, last) >= last
  {
  }

  // ---------- one channel ----------

  // Only the size elements from nb on differ.
  ghost predicate OnlyIn(was: seq<real>, now: seq<real>, nb: nat, size: nat)
    requires nb + size <= |was|
  {
    |now| == |was| && now[..nb] == was[..nb] && now[nb + size..] == was[nb + size..]
  }

  lemma OnlyInTrans(a: seq<real>, b: seq<real>, c: seq<real>, nb: nat, size: nat)
    requires nb + size <= |a| && OnlyIn(a, b, nb, size) && OnlyIn(b, c, nb, size)
    ensures OnlyIn(a, c, nb, size)
  {
  }

  lemma CopiedHeld(s: seq<real>, src: nat, dst: nat, n: nat, nb: nat, size: nat)
    requires src + n <= |s| && nb <= dst && dst + n <= nb + size <= |s|
    ensures Held(Copied(s, src, dst, n), dst, n) == Held(s, src, n) && OnlyIn(s, Copied(s, src, dst, n), nb, size)
  {
  }

  // Silence in front of n kept samples.
  lemma SilencedHeld(s: seq<real>, nb: nat, z: nat, n: nat, size: nat)
    requires z + n <= size && nb + size <= |s|
    ensures Held(Overwritten(s, nb, Zeros(z)), nb, z + n) == Zeros(z) + Held(s, nb + z, n)
    ensures OnlyIn(s, Overwritten(s, nb, Zeros(z)), nb, size)
  {
  }

  // Samples moved up and silence put before them.
  method MoveBehindSilence(mem: array<real>, src: nat, nb: nat, z: nat, n: nat, ghost size: nat)
    requires src <= nb + z && z + n <= size && nb + size <= mem.Length
    modifies mem
    ensures OnlyIn(old(mem[..]), mem[..], nb, size)
    ensures Held(mem[..], nb, z + n) == Zeros(z) + Held(old(mem[..]), src, n)
  {
    hide Copied, Overwritten, Held, OnlyIn, Zeros;
    ghost var was := mem[..];
    CopyUp(mem, src, nb + z, n);
    ghost var mid := mem[..];
    CopiedHeld(was, src, nb + z, n, nb, size);
    Silence(mem, nb, z);
    SilencedHeld(mid, nb, z, n, size);
    OnlyInTrans(was, mid, mem[..], nb, size);
  }

  lemma LatestIsSilenced(d: seq<real>, z: nat)
    ensures Latest(d, z + |d|) == Zeros(z) + d
  {
    if z == 0 { assert Zeros(0) + d == d; }
  }

  lemma LatestIsRest(s: seq<real>, nb: nat, n: nat, k: nat)
    requires k <= n && nb + n <= |s|
    ensures Latest(Held(s, nb, n), k) == Held(s, nb + (n - k), k)
  {
    HeldPart(s, nb, s, nb, n, n - k, k);
    assert Held(s, nb, n)[n - k..] == Held(s, nb + (n - k), k);
  }

  // The body of the loop over the channels when the length grows: from the old layout at ob
  // to the new one at nb.
  method GrowChannel(mem: array<real>, ob: nat, nb: nat, ghost size: nat, prev: nat, len: nat, magic: nat, last: int)
    returns (magic': nat, last': int)
    requires ob <= nb && nb + size <= mem.Length && prev % 2 == len % 2 == 0 && 0 < prev < len
    requires prev - 1 + 2 * magic <= size && len - 1 <= size
    modifies mem
    ensures magic' == NewMagic(prev, magic, len) && last' == NewLast(prev, magic, len, last) && len - 1 + magic' <= size
    ensures OnlyIn(old(mem[..]), mem[..], nb, size)
    ensures Held(mem[..], nb, len - 1 + magic') == Latest(Held(old(mem[..]), ob, prev - 1 + magic), len - 1 + magic')
  {
    hide Held, OnlyIn, Zeros, Latest, Copied;
    ghost var was, d := mem[..], Held(mem[..], ob, prev - 1 + magic);
    MoveBehindSilence(mem, ob, nb, magic, prev - 1 + magic, size);
    LatestIsSilenced(d, magic);
    ghost var mid, e := mem[..], Latest(d, prev - 1 + 2 * magic);
    assert e == Held(mid, nb, prev - 1 + 2 * magic);
    var olen := prev + 2 * magic;
    magic', last' := 0, last;
    if len > olen {
      MoveBehindSilence(mem, nb, nb, len - olen, olen - 1, size);
      LatestIsSilenced(e, len - olen);
      LatestOfLatest(d, olen - 1, len - 1);
      last' := last + (len - olen) / 2;
    } else {
      magic' := (olen - len) / 2;
      CopyDown(mem, nb + magic', nb, len - 1 + magic');
      CopiedHeld(mid, nb + magic', nb, len - 1 + magic', nb, size);
      LatestIsRest(mid, nb, olen - 1, len - 1 + magic');
      LatestOfLatest(d, olen - 1, len - 1 + magic');
    }
    OnlyInTrans(was, mid, mem[..], nb, size);
  }

  // The body of the loop over the channels when the length shrinks.
  method ShrinkChannel(mem: array<real>, nb: nat, ghost size: nat, prev: nat, len: nat, magic: nat, ghost last: int)
                       returns (magic': nat)
    requires nb + size <= mem.Length && prev % 2 == len % 2 == 0 && 0 < len < prev && prev - 1 + magic <= size
    modifies mem
    ensures magic' == NewMagic(prev, magic, len) && last == NewLast(prev, magic, len, last) && len - 1 + magic' <= size
    ensures OnlyIn(old(mem[..]), mem[..], nb, size)
    ensures Held(mem[..], nb, len - 1 + magic') == Latest(Held(old(mem[..]), nb, prev - 1 + magic), len - 1 + magic')
  {
    hide Held, OnlyIn, Zeros, Latest, Copied;
    ghost var was := mem[..];
    magic' := (prev - len) / 2;
    CopyDown(mem, nb + magic', nb, len - 1 + magic' + magic);
    CopiedHeld(was, nb + magic', nb, len - 1 + magic' + magic, nb, size);
    LatestIsRest(was, nb, prev - 1 + magic, len - 1 + magic' + magic);
    magic' := magic' + magic;
  }

  // ---------- all channels ----------

  lemma OutsideKept(was: seq<real>, now: seq<real>, nb: nat, size: nat, o: nat, n: nat)
    requires nb + size <= |was| && OnlyIn(was, now, nb, size) && o + n <= |was| && (o + n <= nb || nb + size <= o)
    ensures Held(now, o, n) == Held(was, o, n)
  {
    if o + n <= nb {
      HeldPart(now, 0, was, 0, nb, o, n);
    } else {
      HeldPart(now, nb + size, was, nb + size, |was| - (nb + size), o - (nb + size), n);
    }
  }

  // Where the blocks of two channels lie, in the old and in the new layout.
  lemma Layout(i: nat, c: nat, count: nat, prevAlloc: nat, alloc: nat)
    requires i < count && c < count && prevAlloc <= alloc
    ensures 0 <= i * prevAlloc <= i * alloc && i * alloc + alloc <= count * alloc
            && i * prevAlloc + prevAlloc <= count * prevAlloc
    ensures c < i ==> c * prevAlloc + prevAlloc <= i * alloc
    ensures c > i ==> i * alloc + alloc <= c * alloc
  {
    MulLe(0, i, prevAlloc);
    Grows(i, prevAlloc, alloc);
    NextBlock(i, count, alloc);
    NextBlock(i, count, prevAlloc);
    if c < i {
      NextBlock(c, i, prevAlloc);
    }
    if c > i {
      NextBlock(i, c, alloc);
    }
  }

  lemma Grows(i: nat, a: nat, b: nat)
    requires a <= b
    ensures i * a <= i * b
  {
    MulLe(0, i, b - a);
    assert i * (b - a) == i * b - i * a;
  }

  lemma NextBlock(i: nat, c: nat, alloc: nat)
    requires i < c
    ensures i * alloc + alloc <= c * alloc
  {
    MulLe(i + 1, c, alloc);
    MulDiff(i + 1, i, alloc);
  }

  class Memory {
    const nbChannels: nat
    var filtLen: nat
    var memAllocSize: nat
    var mem: array<real>
    const lastSample: array<int>
    const magic: array<nat>
    // The longest filter so far.
    ghost var longest: nat

    ghost predicate Valid()
      reads this, magic
    {
      && 0 < filtLen <= longest && filtLen % 2 == 0 && longest - 1 + BUFFER_SIZE <= memAllocSize
      && mem.Length == nbChannels * memAllocSize && lastSample.Length == magic.Length == nbChannels
      && forall i :: 0 <= i < nbChannels ==> filtLen + 2 * magic[i] <= longest
    }

    // The history and the pending samples of a channel.
    ghost function Buffered(i: nat): (d: seq<real>)
      requires Valid() && i < nbChannels
      reads this, mem, magic
      ensures |d| == filtLen - 1 + magic[i]
    {
      Layout(i, i, nbChannels, memAllocSize, memAllocSize);
      Held(mem[..], i * memAllocSize, filtLen - 1 + magic[i])
    }

    // speex_resampler_init with a filter of the given length: silence everywhere.
    constructor (nbChannels: nat, len: nat)
      requires 0 < len && len % 2 == 0
      ensures Valid() && filtLen == longest == len && this.nbChannels == nbChannels
      ensures fresh(mem) && fresh(lastSample) && fresh(magic)
      ensures forall i :: 0 <= i < nbChannels ==> Buffered(i) == Zeros(len - 1) && lastSample[i] == 0 && magic[i] == 0
    {
      var alloc := len - 1 + BUFFER_SIZE;
      MulLe(0, nbChannels, alloc);
      this.nbChannels, filtLen, longest, memAllocSize := nbChannels, len, len, alloc;
      mem := new real[nbChannels * alloc](_ => 0.0);
      lastSample := new int[nbChannels](_ => 0);
      magic := new nat[nbChannels](_ => 0);
      new;
      forall i | 0 <= i < nbChannels ensures Buffered(i) == Zeros(len - 1) {
        Layout(i, i, nbChannels, memAllocSize, memAllocSize);
      }
    }

    // The realloc of the whole block: the old samples stay in front.
    method Reallocate(alloc: nat)
      requires alloc >= memAllocSize && mem.Length == nbChannels * memAllocSize
      modifies this`mem, this`memAllocSize
      ensures memAllocSize == alloc && mem.Length == nbChannels * alloc && old(mem.Length) <= mem.Length
      ensures mem[..old(mem.Length)] == old(mem[..]) && (mem == old(mem) || fresh(mem))
    {
      Grows(nbChannels, memAllocSize, alloc);
      MulLe(0, nbChannels, alloc);
      var bigger := new real[nbChannels * alloc];
      forall i | 0 <= i < mem.Length {
        bigger[i] := mem[i];
      }
      mem, memAllocSize := bigger, alloc;
    }

    method GrowOne(i: nat, prev: nat, len: nat, prevAlloc: nat, ghost was: seq<real>)
      requires prev % 2 == len % 2 == 0 && 0 < prev < len && prevAlloc <= memAllocSize && len - 1 <= memAllocSize
      requires mem.Length == nbChannels * memAllocSize && lastSample.Length == magic.Length == nbChannels
               && i < nbChannels
      requires prev - 1 + 2 * magic[i] <= prevAlloc
               && Unmoved(was, mem[..], i, nbChannels, prevAlloc, prev - 1 + magic[i])
      modifies mem, lastSample, magic
      ensures 0 <= i * memAllocSize && i * memAllocSize + memAllocSize <= mem.Length
      ensures OnlyIn(old(mem[..]), mem[..], i * memAllocSize, memAllocSize)
      ensures magic[..] == old(magic[..])[i := NewMagic(prev, old(magic[i]), len)]
      ensures lastSample[..] == old(lastSample[..])[i := NewLast(prev, old(magic[i]), len, old(lastSample[i]))]
      ensures Moved(was, mem[..], i, nbChannels, prevAlloc, memAllocSize, prev - 1 + old(magic[i]), len - 1 + magic[i])
    {
      hide Held, OnlyIn, Latest, Moved, NewMagic, NewLast;
      ghost var before := mem[..];
      Layout(i, i, nbChannels, prevAlloc, memAllocSize);
      var m, l := GrowChannel(mem, i * prevAlloc, i * memAllocSize, memAllocSize, prev, len, magic[i], lastSample[i]);
      ChannelMoved(was, before, mem[..], i, nbChannels, prevAlloc, memAllocSize, prev - 1 + magic[i], len - 1 + m);
      magic[i] := m;
      lastSample[i] := l;
    }

    // The loop over the channels when the length grows, last channel first, since the new
    // layout of a channel may reach into the old one of the channels behind it.
    method GrowAll(prev: nat, len: nat, prevAlloc: nat, ghost was: seq<real>)
      requires prev % 2 == len % 2 == 0 && 0 < prev < len && prevAlloc <= memAllocSize && len - 1 <= memAllocSize
      requires mem.Length == nbChannels * memAllocSize && lastSample.Length == magic.Length == nbChannels
      requires forall i :: 0 <= i < nbChannels ==> prev - 1 + 2 * magic[i] <= prevAlloc
      requires |was| == nbChannels * prevAlloc <= mem.Length && mem[..|was|] == was
      modifies mem, lastSample, magic
      ensures forall i :: 0 <= i < nbChannels ==>
        && magic[i] == NewMagic(prev, old(magic[i]), len)
            && lastSample[i] == NewLast(prev, old(magic[i]), len, old(lastSample[i]))
        && Moved(was, mem[..], i, nbChannels, prevAlloc, memAllocSize, prev - 1 + old(magic[i]), len - 1 + magic[i])
    {
      hide Held, OnlyIn, Latest, Moved, Unmoved, NewMagic, NewLast, Resized;
      var i := nbChannels;
      ghost var magics, lasts := magic[..], lastSample[..];
      NoneResized(was, mem[..], nbChannels, nbChannels, prevAlloc, memAllocSize, prev, len, magics, lasts);
      while i > 0
        invariant 0 <= i <= nbChannels && |was| == nbChannels * prevAlloc && mem.Length == nbChannels * memAllocSize
        invariant Resized(was, mem[..], i, nbChannels, nbChannels, prevAlloc, memAllocSize, prev, len, magics, lasts,
                  magic[..],
                        lastSample[..])
      {
        i := i - 1;
        ghost var before, m, l := mem[..], magic[..], lastSample[..];
        NextIsThere(was, before, i + 1, nbChannels, i, nbChannels, prevAlloc, memAllocSize, prev, len, magics, lasts,
            m, l);
        GrowOne(i, prev, len, prevAlloc, was);
        OneMoreResized(was, before, mem[..], i + 1, nbChannels, i, nbChannels, prevAlloc, memAllocSize, prev, len,
            magics, lasts, m, l,
                     magic[..], lastSample[..]);
      }
      AllResized(was, mem[..], nbChannels, prevAlloc, memAllocSize, prev, len, magics, lasts, magic[..],
          lastSample[..]);
    }

    // The loop over the channels when the length shrinks.
    method ShrinkAll(prev: nat, len: nat)
      requires prev % 2 == len % 2 == 0 && 0 < len < prev
      requires mem.Length == nbChannels * memAllocSize && lastSample.Length == magic.Length == nbChannels
      requires forall i :: 0 <= i < nbChannels ==> prev - 1 + 2 * magic[i] <= memAllocSize
      modifies mem, magic
      ensures forall i :: 0 <= i < nbChannels ==>
        && magic[i] == NewMagic(prev, old(magic[i]), len)
            && lastSample[i] == NewLast(prev, old(magic[i]), len, lastSample[i])
        && Moved(old(mem[..]), mem[..], i, nbChannels, memAllocSize, memAllocSize, prev - 1 + old(magic[i]),
            len - 1 + magic[i])
    {
      hide Held, OnlyIn, Latest, Moved, Unmoved, NewMagic, NewLast, Resized;
      ghost var was, magics, lasts := mem[..], magic[..], lastSample[..];
      NoneResized(was, was, 0, nbChannels, memAllocSize, memAllocSize, prev, len, magics, lasts);
      for i := 0 to nbChannels
        invariant mem.Length == |was| && lastSample[..] == lasts
        invariant Resized(was, mem[..], 0, i, nbChannels, memAllocSize, memAllocSize, prev, len, magics, lasts,
                          magic[..], lasts)
      {
        ghost var before, m := mem[..], magic[..];
        NextIsThere(was, before, 0, i, i, nbChannels, memAllocSize, memAllocSize, prev, len, magics, lasts, m, lasts);
        ShrinkOne(i, prev, len, was);
        LastStays(prev, m[i], len, lasts[i]);
        OneMoreResized(was, before, mem[..], 0, i, i, nbChannels, memAllocSize, memAllocSize, prev, len, magics, lasts,
                       m, lasts, magic[..], lasts);
      }
      AllResized(was, mem[..], nbChannels, memAllocSize, memAllocSize, prev, len, magics, lasts, magic[..], lasts);
    }

    method ShrinkOne(i: nat, prev: nat, len: nat, ghost was: seq<real>)
      requires mem.Length == nbChannels * memAllocSize && lastSample.Length == magic.Length == nbChannels
               && i < nbChannels
      requires prev % 2 == len % 2 == 0 && 0 < len < prev && prev - 1 + 2 * magic[i] <= memAllocSize
      requires Unmoved(was, mem[..], i, nbChannels, memAllocSize, prev - 1 + magic[i])
      modifies mem, magic
      ensures 0 <= i * memAllocSize && i * memAllocSize + memAllocSize <= mem.Length
      ensures OnlyIn(old(mem[..]), mem[..], i * memAllocSize, memAllocSize)
      ensures magic[..] == old(magic[..])[i := NewMagic(prev, old(magic[i]), len)]
      ensures Moved(was, mem[..], i, nbChannels, memAllocSize, memAllocSize, prev - 1 + old(magic[i]),
              len - 1 + magic[i])
    {
      hide Held, OnlyIn, Latest, Moved, NewMagic, NewLast;
      ghost var before := mem[..];
      Layout(i, i, nbChannels, memAllocSize, memAllocSize);
      var m := ShrinkChannel(mem, i * memAllocSize, memAllocSize, prev, len, magic[i], lastSample[i]);
      ChannelMoved(was, before, mem[..], i, nbChannels, memAllocSize, memAllocSize, prev - 1 + magic[i], len - 1 + m);
      magic[i] := m;
    }

    // Before any sample has been processed: a fresh block of silence.
    method Restart(len: nat)
      requires lastSample.Length == magic.Length == nbChannels && 0 < len && len % 2 == 0
      requires forall i :: 0 <= i < nbChannels ==> magic[i] == 0
      modifies this`filtLen, this`memAllocSize, this`mem, this`longest
      ensures Valid() && filtLen == longest == len && fresh(mem)
      ensures forall i :: 0 <= i < nbChannels ==> Buffered(i) == Zeros(len - 1)
    {
      filtLen, longest, memAllocSize := len, len, len - 1 + BUFFER_SIZE;
      MulLe(0, nbChannels, memAllocSize);
      mem := new real[nbChannels * memAllocSize](_ => 0.0);
      forall i | 0 <= i < nbChannels ensures Buffered(i) == Zeros(len - 1) {
        Layout(i, i, nbChannels, memAllocSize, memAllocSize);
      }
    }

    // The three branches, for a filter that gets longer, shorter or stays as long.
    method MoveAll(prev: nat, len: nat)
      requires prev % 2 == len % 2 == 0 && 0 < prev && 0 < len
      requires mem.Length == nbChannels * memAllocSize && lastSample.Length == magic.Length == nbChannels
      requires forall i :: 0 <= i < nbChannels ==> prev - 1 + 2 * magic[i] <= memAllocSize
      modifies this`memAllocSize, this`mem, mem, lastSample, magic
      ensures mem == old(mem) || fresh(mem)
      ensures memAllocSize == if len > prev && len - 1 + BUFFER_SIZE > old(memAllocSize) then len - 1 + BUFFER_SIZE
              else old(memAllocSize)
      ensures mem.Length == nbChannels * memAllocSize
      ensures forall i :: 0 <= i < nbChannels ==>
        && magic[i] == NewMagic(prev, old(magic[i]), len)
            && lastSample[i] == NewLast(prev, old(magic[i]), len, old(lastSample[i]))
        && Moved(old(mem[..]), mem[..], i, nbChannels, old(memAllocSize), memAllocSize, prev - 1 + old(magic[i]),
            len - 1 + magic[i])
    {
      hide Held, OnlyIn, Latest, Moved;
      ghost var was := mem[..];
      var prevAlloc := memAllocSize;
      if len > prev {
        if len - 1 + BUFFER_SIZE > memAllocSize {
          Reallocate(len - 1 + BUFFER_SIZE);
        }
        GrowAll(prev, len, prevAlloc, was);
      } else if len < prev {
        ShrinkAll(prev, len);
      } else {
        forall i | 0 <= i < nbChannels
          ensures Moved(was, mem[..], i, nbChannels, prevAlloc, prevAlloc, prev - 1 + magic[i], len - 1 + magic[i])
        {
          MovedNowhere(was, i, nbChannels, prevAlloc, prev - 1 + magic[i]);
        }
      }
    }

    // The end of update_filter once the resampler has been used: every channel keeps its latest
    // samples in order, and the centre of its filter stays over the same one of them.
    method ChangeLength(len: nat)
      requires Valid() && 0 < len && len % 2 == 0
      modifies this`filtLen, this`memAllocSize, this`mem, this`longest, mem, lastSample, magic
      ensures Valid() && filtLen == len && longest == if len > old(longest) then len else old(longest)
      ensures mem == old(mem) || fresh(mem)
      ensures forall i :: 0 <= i < nbChannels ==>
        && Buffered(i) == Latest(old(Buffered(i)), len - 1 + magic[i])
        && magic[i] == NewMagic(old(filtLen), old(magic[i]), len)
        && filtLen / 2 + magic[i] - lastSample[i] == old(filtLen) / 2 + old(magic[i]) - old(lastSample[i])
        && lastSample[i] == NewLast(old(filtLen), old(magic[i]), len, old(lastSample[i])) >= old(lastSample[i])
    {
      hide Held, OnlyIn, Latest, NewMagic, NewLast;
      ghost var prevMagic, prevLast := magic[..], lastSample[..];
      var prev := filtLen;
      MoveAll(prev, len);
      filtLen := len;
      longest := if len > longest then len else longest;
      forall i | 0 <= i < nbChannels
        ensures magic[i] == NewMagic(prev, prevMagic[i], len) && len + 2 * magic[i] <= longest
        ensures lastSample[i] == NewLast(prev, prevMagic[i], len, prevLast[i])
        ensures len / 2 + magic[i] - lastSample[i] == prev / 2 + prevMagic[i] - prevLast[i]
                && lastSample[i] >= prevLast[i]
      {
        LengthChange(prev, prevMagic[i], len, prevLast[i], old(longest));
      }
    }
  }

  // The channels from lo up to hi have their new length; the others are where they were.
  ghost predicate Resized(was: seq<real>, now: seq<real>, lo: nat, hi: nat, count: nat, prevAlloc: nat, alloc: nat,
                          prev: nat, len: nat, magics: seq<nat>, lasts: seq<int>, magic: seq<nat>, last: seq<int>)
    requires prev > 0 && len > 0
  {
    && |magics| == |lasts| == |magic| == |last| == count
    && (forall c :: 0 <= c < count && !(lo <= c < hi) ==>
          magic[c] == magics[c] && last[c] == lasts[c]
          && Unmoved(was, now, c, count, prevAlloc, prev - 1 + magics[c]))
    && (forall c :: lo <= c < hi && c < count ==>
          && magic[c] == NewMagic(prev, magics[c], len) && last[c] == NewLast(prev, magics[c], len, lasts[c])
          && Moved(was, now, c, count, prevAlloc, alloc, prev - 1 + magics[c], len - 1 + magic[c]))
  }

  lemma NoneResized(was: seq<real>, now: seq<real>, lo: nat, count: nat, prevAlloc: nat, alloc: nat, prev: nat,
                    len: nat, magics: seq<nat>, lasts: seq<int>)
    requires prev > 0 && len > 0 && |magics| == |lasts| == count
    requires |was| == count * prevAlloc <= |now| && now[..|was|] == was
    requires forall c :: 0 <= c < count ==> prev - 1 + 2 * magics[c] <= prevAlloc
    ensures Resized(was, now, lo, lo, count, prevAlloc, alloc, prev, len, magics, lasts, magics, lasts)
  {
    hide Unmoved, Moved, NewMagic, NewLast;
    forall c | 0 <= c < count ensures Unmoved(was, now, c, count, prevAlloc, prev - 1 + magics[c]) {
      StillThere(was, now, c, count, prevAlloc, prev - 1 + magics[c]);
    }
  }

  lemma NextIsThere(was: seq<real>, now: seq<real>, lo: nat, hi: nat, i: nat, count: nat, prevAlloc: nat, alloc: nat,
                    prev: nat, len: nat, magics: seq<nat>, lasts: seq<int>, magic: seq<nat>, last: seq<int>)
    requires prev > 0 && len > 0 && i < count && !(lo <= i < hi)
    requires Resized(was, now, lo, hi, count, prevAlloc, alloc, prev, len, magics, lasts, magic, last)
    ensures magic[i] == magics[i] && last[i] == lasts[i]
    ensures Unmoved(was, now, i, count, prevAlloc, prev - 1 + magics[i])
  {
    hide Unmoved, Moved, NewMagic, NewLast;
  }

  // Channel i comes next: in front of the others, or behind them in a layout that stays.
  lemma OneMoreResized(was: seq<real>, before: seq<real>, now: seq<real>, lo: nat, hi: nat, i: nat, count: nat,
                       prevAlloc: nat, alloc: nat, prev: nat, len: nat, magics: seq<nat>, lasts: seq<int>, m: seq<nat>,
                       l: seq<int>, magic: seq<nat>, last: seq<int>)
    requires prev > 0 && len > 0 && i < count && prevAlloc <= alloc && |before| == count * alloc
    requires (lo == i + 1 && hi == count) || (lo == 0 && hi == i && prevAlloc == alloc)
    requires Resized(was, before, lo, hi, count, prevAlloc, alloc, prev, len, magics, lasts, m, l)
    requires 0 <= i * alloc && i * alloc + alloc <= |before| && OnlyIn(before, now, i * alloc, alloc)
    requires magic == m[i := NewMagic(prev, m[i], len)] && last == l[i := NewLast(prev, m[i], len, l[i])]
    requires Moved(was, now, i, count, prevAlloc, alloc, prev - 1 + m[i], len - 1 + magic[i])
    ensures Resized(was, now, if lo == i + 1 then i else lo, if lo == i + 1 then hi else i + 1, count, prevAlloc, alloc,
                    prev, len, magics, lasts, magic, last)
  {
    hide Unmoved, Moved, NewMagic, NewLast, OnlyIn;
    forall c | 0 <= c < count && c != i && !(lo <= c < hi)
      ensures Unmoved(was, now, c, count, prevAlloc, prev - 1 + magics[c])
    {
      if c < i {
        UnmovedKept(was, before, now, c, i, count, prevAlloc, alloc, prev - 1 + magics[c]);
      } else {
        UnmovedAfter(was, before, now, c, i, count, alloc, prev - 1 + magics[c]);
      }
    }
    forall c | lo <= c < hi
      ensures Moved(was, now, c, count, prevAlloc, alloc, prev - 1 + magics[c], len - 1 + magic[c])
    {
      if i < c {
        MovedKept(was, before, now, c, i, count, prevAlloc, alloc, prev - 1 + magics[c], len - 1 + magic[c]);
      } else {
        MovedBefore(was, before, now, c, i, count, alloc, prev - 1 + magics[c], len - 1 + magic[c]);
      }
    }
  }

  lemma AllResized(was: seq<real>, now: seq<real>, count: nat, prevAlloc: nat, alloc: nat, prev: nat, len: nat,
                   magics: seq<nat>, lasts: seq<int>, magic: seq<nat>, last: seq<int>)
    requires prev > 0 && len > 0
    requires Resized(was, now, 0, count, count, prevAlloc, alloc, prev, len, magics, lasts, magic, last)
    ensures |magics| == |lasts| == |magic| == |last| == count
    ensures forall c :: 0 <= c < count ==>
          && magic[c] == NewMagic(prev, magics[c], len) && last[c] == NewLast(prev, magics[c], len, lasts[c])
          && Moved(was, now, c, count, prevAlloc, alloc, prev - 1 + magics[c], len - 1 + magic[c])
  {
    hide Unmoved, Moved, NewMagic, NewLast;
  }

  // A shorter filter leaves the position of the next output alone.
  lemma LastStays(prev: nat, magic: nat, len: nat, last: int)
    requires len < prev
    ensures NewLast(prev, magic, len, last) == last
  {
  }

  lemma MovedNowhere(was: seq<real>, c: nat, count: nat, alloc: nat, n: nat)
    requires c < count && n <= alloc && |was| == count * alloc
    ensures Moved(was, was, c, count, alloc, alloc, n, n)
  {
    Layout(c, c, count, alloc, alloc);
  }

  lemma UnmovedAfter(was: seq<real>, before: seq<real>, now: seq<real>, c: nat, i: nat, count: nat, alloc: nat, n: nat)
    requires Unmoved(was, before, c, count, alloc, n) && i < c < count && |before| == count * alloc
    requires 0 <= i * alloc && i * alloc + alloc <= |before| && OnlyIn(before, now, i * alloc, alloc)
    ensures Unmoved(was, now, c, count, alloc, n)
  {
    Layout(i, c, count, alloc, alloc);
    OutsideKept(before, now, i * alloc, alloc, c * alloc, n);
  }

  lemma MovedBefore(was: seq<real>, before: seq<real>, now: seq<real>, c: nat, i: nat, count: nat, alloc: nat, n: nat,
                    k: nat)
    requires Moved(was, before, c, count, alloc, alloc, n, k) && c < i < count
    requires 0 <= i * alloc && i * alloc + alloc <= |before| && OnlyIn(before, now, i * alloc, alloc)
    ensures Moved(was, now, c, count, alloc, alloc, n, k)
  {
    Layout(i, c, count, alloc, alloc);
    OutsideKept(before, now, i * alloc, alloc, c * alloc, k);
  }

  // Channel c still lies where it lay in the old layout.
  ghost predicate Unmoved(was: seq<real>, now: seq<real>, c: nat, count: nat, prevAlloc: nat, n: nat) {
    && c < count && n <= prevAlloc && |was| == count * prevAlloc <= |now|
    && 0 <= c * prevAlloc && c * prevAlloc + n <= |was|
    && Held(now, c * prevAlloc, n) == Held(was, c * prevAlloc, n)
  }

  // Channel c lies in the new layout and holds its latest k samples.
  ghost predicate Moved(was: seq<real>, now: seq<real>, c: nat, count: nat, prevAlloc: nat, alloc: nat, n: nat,
                        k: nat) {
    && c < count && n <= prevAlloc <= alloc && k <= alloc && |was| == count * prevAlloc && |now| == count * alloc
    && 0 <= c * prevAlloc && c * prevAlloc + n <= |was| && 0 <= c * alloc && c * alloc + k <= |now|
    && Held(now, c * alloc, k) == Latest(Held(was, c * prevAlloc, n), k)
  }

  lemma StillThere(was: seq<real>, now: seq<real>, c: nat, count: nat, prevAlloc: nat, n: nat)
    requires c < count && n <= prevAlloc && |was| == count * prevAlloc <= |now| && now[..|was|] == was
    ensures Unmoved(was, now, c, count, prevAlloc, n)
  {
    Layout(c, c, count, prevAlloc, prevAlloc);
    HeldPart(now, 0, was, 0, |was|, c * prevAlloc, n);
  }

  lemma ChannelMoved(was: seq<real>, before: seq<real>, now: seq<real>, i: nat, count: nat, prevAlloc: nat, alloc: nat,
                     n: nat, k: nat)
    requires Unmoved(was, before, i, count, prevAlloc, n) && prevAlloc <= alloc && k <= alloc
             && |before| == |now| == count * alloc
    requires 0 <= i * alloc && i * alloc + k <= |now|
             && Held(now, i * alloc, k) == Latest(Held(before, i * prevAlloc, n), k)
    ensures Moved(was, now, i, count, prevAlloc, alloc, n, k)
  {
  }

  lemma UnmovedKept(was: seq<real>, before: seq<real>, now: seq<real>, c: nat, i: nat, count: nat, prevAlloc: nat,
                    alloc: nat, n: nat)
    requires Unmoved(was, before, c, count, prevAlloc, n) && c < i < count && prevAlloc <= alloc
             && |before| == count * alloc
    requires 0 <= i * alloc && i * alloc + alloc <= |before| && OnlyIn(before, now, i * alloc, alloc)
    ensures Unmoved(was, now, c, count, prevAlloc, n)
  {
    Layout(i, c, count, prevAlloc, alloc);
    OutsideKept(before, now, i * alloc, alloc, c * prevAlloc, n);
  }

  lemma MovedKept(was: seq<real>, before: seq<real>, now: seq<real>, c: nat, i: nat, count: nat, prevAlloc: nat,
                  alloc: nat, n: nat, k: nat)
    requires Moved(was, before, c, count, prevAlloc, alloc, n, k) && i < c < count
    requires 0 <= i * alloc && i * alloc + alloc <= |before| && OnlyIn(before, now, i * alloc, alloc)
    ensures Moved(was, now, c, count, prevAlloc, alloc, n, k)
  {
    Layout(i, c, count, prevAlloc, alloc);
    OutsideKept(before, now, i * alloc, alloc, c * alloc, k);
  }
}
