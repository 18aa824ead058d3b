/** The timing statistics of the jitter buffer: three sub-windows of bounded sorted lists (jitter.c). */
module JitterTimings {
  import opened Fixed
  import opened SmallestLists
  import opened JitterMerge
  import opened JitterCost

  const MAX_BUFFERS := 3

  class TimingBuffer {
    const timing: array<int>
    const counts: array<int>
    var filled: nat
    var currCount: nat
    // Every timing received since the window was opened.
    ghost var all: seq<int>

    ghost predicate Valid()
      reads this, timing
    {
      && timing.Length == counts.Length == MAX_TIMINGS && timing != counts && filled <= MAX_TIMINGS
      && currCount == |all| && Smallest(timing[..filled], multiset(all), MAX_TIMINGS)
    }

    constructor ()
      ensures Valid() && all == [] && fresh(timing) && fresh(counts)
    {
      timing := new int[MAX_TIMINGS];
      counts := new int[MAX_TIMINGS];
      filled, currCount, all := 0, 0, [];
    }

    // tb_init
    method Init()
      requires timing.Length == counts.Length == MAX_TIMINGS && timing != counts
      modifies this
      ensures Valid() && all == []
    {
      filled, currCount, all := 0, 0, [];
    }

    // All timings of the window shifted by the same amount.
    method Shift(amount: int)
      requires Valid()
      modifies this`all, timing
      ensures Valid() && all == Shifted(old(all), amount)
    {
      hide Smallest;
      ghost var was := timing[..filled];
      ShiftKeepsSmallest(was, all, amount, MAX_TIMINGS);
      for j := 0 to filled
        invariant forall k :: 0 <= k < filled ==> timing[k] == was[k] + (if k < j then amount else 0)
        invariant all == old(all)
      {
        timing[j] := timing[j] + amount;
      }
      assert timing[..filled] == Shifted(was, amount);
      all := Shifted(all, amount);
    }

    // SPEEX_MOVE of n elements one place up, and a value put in the gap.
    method OpenUp(a: array<int>, pos: nat, n: nat, x: int)
      requires pos + n < a.Length
      modifies a
      ensures a[..] == OpenedUp(old(a[..]), pos, n, x)
    {
      ghost var was := a[..];
      forall i | pos <= i < pos + n {
        a[i + 1] := a[i];
      }
      a[pos] := x;
      ghost var now := OpenedUp(was, pos, n, x);
      forall k | 0 <= k < a.Length ensures a[k] == now[k] {
        if pos < k <= pos + n { assert a[k] == was[k - 1]; }
      }
      assert a[..] == now;
    }

    // tb_add
    method Add(t: int)
      requires Valid()
      modifies this, timing, counts
      ensures Valid() && all == old(all) + [t]
    {
      hide Smallest, Sorted, Insert, Place, Capped;
      if filled >= MAX_TIMINGS && t >= timing[filled - 1] {
        Ignored(timing[..filled], all, t);
        currCount, all := currCount + 1, all + [t];
        return;
      }
      var pos: nat := 0;
      while pos < filled && t >= timing[pos]
        invariant pos <= filled && forall i :: 0 <= i < pos ==> timing[i] <= t
      {
        pos := pos + 1;
      }
      IsPlace(timing[..filled], t, pos);
      AddAt(pos, t);
    }

    // The insertion itself.
    method AddAt(pos: nat, t: int)
      requires Valid() && pos < MAX_TIMINGS && pos == Place(timing[..filled], t)
      modifies this, timing, counts
      ensures Valid() && all == old(all) + [t]
    {
      hide Smallest, Sorted, Insert, Place, Capped, OpenedUp;
      Kept(timing[..filled], all, t);
      var moveSize := filled - pos;
      if filled == MAX_TIMINGS { moveSize := moveSize - 1; }
      OpenUp(timing, pos, moveSize, t);
      OpenUp(counts, pos, moveSize, currCount);
      Inserted(old(timing[..]), timing[..], filled, t, pos, moveSize);
      currCount, all := currCount + 1, all + [t];
      if filled < MAX_TIMINGS { filled := filled + 1; }
    }
  }

  function OpenedUp(s: seq<int>, pos: nat, n: nat, x: int): (r: seq<int>)
    requires pos + n < |s|
    ensures |r| == |s|
  {
    s[..pos] + [x] + s[pos..pos + n] + s[pos + n + 1..]
  }

  lemma Kept(s: seq<int>, all: seq<int>, t: int)
    requires Smallest(s, multiset(all), MAX_TIMINGS)
    ensures Smallest(Capped(Insert(s, t), MAX_TIMINGS), multiset(all + [t]), MAX_TIMINGS)
  {
    AddedElements(all, t);
    InsertKeepsSmallest(s, multiset(all), t, MAX_TIMINGS);
  }

  lemma Ignored(s: seq<int>, all: seq<int>, t: int)
    requires Smallest(s, multiset(all), MAX_TIMINGS) && |s| == MAX_TIMINGS && t >= s[MAX_TIMINGS - 1]
    ensures Smallest(s, multiset(all + [t]), MAX_TIMINGS)
  {
    IsSorted(s, multiset(all), MAX_TIMINGS);
    TooLarge(s, t);
    Kept(s, all, t);
  }

  lemma AddedElements(all: seq<int>, t: int)
    ensures multiset(all + [t]) == multiset(all) + multiset{t}
  {
  }

  lemma Inserted(before: seq<int>, now: seq<int>, filled: nat, t: int, pos: nat, n: nat)
    requires |before| == MAX_TIMINGS && pos <= filled <= MAX_TIMINGS && pos == Place(before[..filled], t)
    requires n == (if filled == MAX_TIMINGS then filled - pos - 1 else filled - pos) && pos + n < MAX_TIMINGS
    requires now == OpenedUp(before, pos, n, t)
    ensures now[..if filled < MAX_TIMINGS then filled + 1 else filled]
            == Capped(Insert(before[..filled], t), MAX_TIMINGS)
  {
    hide Place;
    assert Insert(before[..filled], t) == before[..pos] + [t] + before[pos..filled];
  }

  function Clamped(t: int): int { if t < -32767 then -32767 else if t > 32767 then 32767 else t }

  // The objects that make up a sub-window.
  ghost function Own(b: TimingBuffer): set<object> { {b, b.timing, b.counts} }

  // The three sub-windows: tb in memory order, timeBuffers from the youngest to the oldest.
  class Timings {
    const tb: seq<TimingBuffer>
    var timeBuffers: seq<TimingBuffer>
    var subwindowSize: int

    ghost predicate Apart()
    {
      && |tb| == MAX_BUFFERS && tb[0] != tb[1] && tb[0] != tb[2] && tb[1] != tb[2]
      && Own(tb[0]) !! Own(tb[1]) && Own(tb[0]) !! Own(tb[2]) && Own(tb[1]) !! Own(tb[2])
    }

    ghost function Repr(): set<object>
    {
      if |tb| == MAX_BUFFERS then Own(tb[0]) + Own(tb[1]) + Own(tb[2]) else {}
    }

    ghost predicate Valid()
      reads this, Repr()
    {
      && Apart() && tb[0].Valid() && tb[1].Valid() && tb[2].Valid()
      && |timeBuffers| == MAX_BUFFERS && timeBuffers[0] in tb && timeBuffers[1] in tb && timeBuffers[2] in tb
      && timeBuffers[0] != timeBuffers[1] && timeBuffers[0] != timeBuffers[2] && timeBuffers[1] != timeBuffers[2]
    }

    // What the i-th youngest sub-window has received.
    ghost function Window(i: nat): seq<int>
      requires Valid() && i < MAX_BUFFERS
      reads this, Repr()
    {
      timeBuffers[i].all
    }

    constructor (subwindowSize: int)
      ensures Valid() && this.subwindowSize == subwindowSize && fresh(Repr()) && forall i :: 0 <= i < MAX_BUFFERS ==>
              Window(i) == []
    {
      var a := new TimingBuffer();
      var b := new TimingBuffer();
      var c := new TimingBuffer();
      hide TimingBuffer.Valid;
      tb := [a, b, c];
      timeBuffers := [a, b, c];
      this.subwindowSize := subwindowSize;
    }

    // The oldest sub-window becomes the youngest, and empty.
    method Rotate()
      requires Valid()
      modifies this`timeBuffers, Own(timeBuffers[2])
      ensures Valid() && timeBuffers[0] == old(timeBuffers[2]) && Window(0) == [] && Window(1) == old(Window(0))
              && Window(2) == old(Window(1))
    {
      hide TimingBuffer.Valid;
      var oldest := timeBuffers[2];
      timeBuffers := [oldest, timeBuffers[0], timeBuffers[1]];
      Initialise(oldest);
    }

    method Push(t: int)
      requires Valid()
      modifies Own(timeBuffers[0])
      ensures Valid() && Window(0) == old(Window(0)) + [t] && Window(1) == old(Window(1)) && Window(2) == old(Window(2))
    {
      hide TimingBuffer.Valid;
      AddTo(timeBuffers[0], t);
    }

    // "If the current sub-window is full, perform a rotation"
    method MakeRoom()
      requires Valid()
      modifies this`timeBuffers, Own(timeBuffers[2])
      ensures Valid() && timeBuffers[0] in {old(timeBuffers[0]), old(timeBuffers[2])}
      ensures var rotated := |old(Window(0))| >= subwindowSize;
              && Window(0) == (if rotated then [] else old(Window(0)))
              && Window(1) == (if rotated then old(Window(0)) else old(Window(1)))
              && Window(2) == (if rotated then old(Window(1)) else old(Window(2)))
    {
      Counted(timeBuffers[0]);
      hide TimingBuffer.Valid;
      assert timeBuffers[0].currCount == |Window(0)|;
      if timeBuffers[0].currCount >= subwindowSize {
        Rotate();
      }
    }

    // update_timings
    method Update(timing: int)
      requires Valid()
      modifies this`timeBuffers, Repr()
      ensures Valid()
      ensures var rotated := |old(Window(0))| >= subwindowSize;
              && Window(0) == (if rotated then [] else old(Window(0))) + [Clamped(timing)]
              && Window(1) == (if rotated then old(Window(0)) else old(Window(1)))
              && Window(2) == (if rotated then old(Window(1)) else old(Window(2)))
    {
      hide TimingBuffer.Valid;
      MakeRoom();
      Push(Clamped(timing));
    }

    // A step on one sub-window leaves the others alone.
    method AddTo(b: TimingBuffer, t: int)
      requires Valid() && b in tb
      modifies Own(b)
      ensures Valid() && b.all == old(b.all) + [t]
      ensures forall c :: c in tb && c != b ==> c.all == old(c.all)
    {
      Separate(b);
      hide TimingBuffer.Valid;
      b.Add(t);
    }

    method Initialise(b: TimingBuffer)
      requires Valid() && b in tb
      modifies Own(b)
      ensures Valid() && b.all == []
      ensures forall c :: c in tb && c != b ==> c.all == old(c.all)
    {
      Separate(b);
      b.Init();
    }

    lemma Separate(b: TimingBuffer)
      requires Apart() && b in tb
      ensures forall c :: c in tb && c != b ==> Own(c) !! Own(b)
    {
    }

    lemma Counted(b: TimingBuffer)
      requires b.Valid()
      ensures b.currCount == |b.all|
    {
    }

    // shift_timings
    method Shift(amount: int)
      requires Valid()
      modifies Repr()
      ensures Valid() && forall i :: 0 <= i < MAX_BUFFERS ==> Window(i) == Shifted(old(Window(i)), amount)
    {
      hide TimingBuffer.Valid, Shifted;
      ShiftOne(timeBuffers[0], amount);
      ShiftOne(timeBuffers[1], amount);
      ShiftOne(timeBuffers[2], amount);
    }

    method ShiftOne(b: TimingBuffer, amount: int)
      requires Valid() && b in tb
      modifies Own(b)
      ensures Valid() && b.all == Shifted(old(b.all), amount)
      ensures forall c :: c in tb && c != b ==> c.all == old(c.all)
    {
      Separate(b);
      hide TimingBuffer.Valid;
      b.Shift(amount);
    }

    // ---------- the optimal delay ----------

    // The lists of the three sub-windows in memory order, and how far they have been read.
    ghost function Lists(pos: seq<nat>): (h: Heads)
      requires Valid() && |pos| == 3
      reads this, Repr()
    {
      Heads([tb[0].timing[..tb[0].filled], tb[1].timing[..tb[1].filled], tb[2].timing[..tb[2].filled]], pos)
    }

    ghost function Received(): seq<multiset<int>>
      requires Valid()
      reads this, Repr()
    {
      [multiset(tb[0].all), multiset(tb[1].all), multiset(tb[2].all)]
    }

    // The order of the sub-windows in memory does not matter.
    lemma AllReceived()
      requires Valid()
      ensures Received()[0] + Received()[1] + Received()[2]
              == multiset(Window(0)) + multiset(Window(1)) + multiset(Window(2))
    {
      hide TimingBuffer.Valid;
      assert forall i :: 0 <= i < 3 ==> timeBuffers[i] == tb[0] || timeBuffers[i] == tb[1] || timeBuffers[i] == tb[2];
    }

    // The statistics are forgotten, and the sub-windows taken in memory order.
    method Reset()
      requires Valid()
      modifies this`timeBuffers, Repr()
      ensures Valid() && forall i :: 0 <= i < MAX_BUFFERS ==> Window(i) == []
    {
      hide TimingBuffer.Valid;
      Initialise(tb[0]);
      Initialise(tb[1]);
      Initialise(tb[2]);
      timeBuffers := tb;
    }

    lemma ListsAre(pos: seq<nat>)
      requires Valid() && |pos| == 3 && forall j :: 0 <= j < 3 ==> pos[j] <= tb[j].filled
      ensures IsHeads(Lists(pos)) && AreSmallest(Lists(pos), Received()) && Lists(pos).pos == pos
    {
      IsSorted(tb[0].timing[..tb[0].filled], multiset(tb[0].all), MAX_TIMINGS);
      IsSorted(tb[1].timing[..tb[1].filled], multiset(tb[1].all), MAX_TIMINGS);
      IsSorted(tb[2].timing[..tb[2].filled], multiset(tb[2].all), MAX_TIMINGS);
    }

    // "Pick latest among all sub-windows"
    method PickLatest(pos: seq<nat>) returns (next: int, latest: int)
      requires Valid() && |pos| == 3 && forall j :: 0 <= j < 3 ==> pos[j] <= tb[j].filled
      ensures -1 <= next < 3 && Lists(pos) == old(Lists(pos)) && Received() == old(Received())
      ensures next == -1 ==> forall j :: 0 <= j < 3 && pos[j] < tb[j].filled ==> tb[j].timing[pos[j]] >= LIMIT
      ensures next >= 0 ==> pos[next] < tb[next].filled && latest == tb[next].timing[pos[next]] < LIMIT
      ensures next >= 0 ==> forall j :: 0 <= j < 3 && pos[j] < tb[j].filled ==> latest <= tb[j].timing[pos[j]]
    {
      next, latest := -1, LIMIT;
      for j := 0 to MAX_BUFFERS
        invariant -1 <= next < j
        invariant next == -1 ==> latest == LIMIT
        invariant next >= 0 ==> pos[next] < tb[next].filled && latest == tb[next].timing[pos[next]] < LIMIT
        invariant forall k :: 0 <= k < j && pos[k] < tb[k].filled ==> latest <= tb[k].timing[pos[k]]
      {
        if pos[j] < tb[j].filled && tb[j].timing[pos[j]] < latest {
          next, latest := j, tb[j].timing[pos[j]];
        }
      }
    }

    // The lists are read up to pos, and m holds what has been read.
    ghost predicate Merging(pos: seq<nat>, m: seq<int>)
      requires Valid() && |pos| == 3
      reads this, Repr()
    {
      IsHeads(Lists(pos)) && Merged(Lists(pos), m) && AreSmallest(Lists(pos), Received())
    }

    lemma HeadIs(pos: seq<nat>, j: nat)
      requires Valid() && |pos| == 3 && j < 3 && pos[j] <= tb[j].filled
      ensures var h := Lists(pos); |h.k| == |h.pos| == 3 && |h.k[j]| == tb[j].filled && h.pos[j] == pos[j]
      ensures pos[j] < tb[j].filled ==> Lists(pos).k[j][pos[j]] == tb[j].timing[pos[j]]
    {
      hide TimingBuffer.Valid;
      FilledUp(tb[0]);
      FilledUp(tb[1]);
      FilledUp(tb[2]);
      assert j == 0 || j == 1 || j == 2;
    }

    lemma FilledUp(b: TimingBuffer)
      requires b.Valid()
      ensures b.timing.Length == MAX_TIMINGS && b.filled <= MAX_TIMINGS
    {
    }

    // No head is below the limit: the merge is over.
    lemma NoHead(pos: seq<nat>, m: seq<int>)
      requires Valid() && |pos| == 3 && forall j :: 0 <= j < 3 ==> pos[j] <= tb[j].filled
      requires forall j :: 0 <= j < 3 && pos[j] < tb[j].filled ==> tb[j].timing[pos[j]] >= LIMIT
      requires IsHeads(Lists(pos))
      ensures Finished(Lists(pos), m)
    {
      forall j: nat | j < 3 ensures var h := Lists(pos); h.pos[j] < |h.k[j]| ==> h.k[j][h.pos[j]] >= LIMIT {
        HeadIs(pos, j);
      }
    }

    // The head that was picked goes to the merge.
    lemma TakeHead(pos: seq<nat>, m: seq<int>, next: nat, latest: int)
      requires Valid() && |pos| == 3 && forall j :: 0 <= j < 3 ==> pos[j] <= tb[j].filled
      requires Merging(pos, m)
      requires next < 3 && pos[next] < tb[next].filled && latest == tb[next].timing[pos[next]]
      requires forall j :: 0 <= j < 3 && pos[j] < tb[j].filled ==> latest <= tb[j].timing[pos[j]]
      ensures Merging(pos[next := pos[next] + 1], m + [latest])
      ensures m != [] ==> m[|m| - 1] <= latest
    {
      hide Valid, Merged, AreSmallest, IsHeads, TimingBuffer.Valid, Smallest, Sorted;
      IsLeast(pos, next, latest);
      MergeStep(Lists(pos), m, next);
      assert Lists(pos[next := pos[next] + 1]) == Advanced(Lists(pos), next);
      MergedUp(Advanced(Lists(pos), next), m, latest);
      StillSmallest(Lists(pos), next, Received());
    }

    lemma IsLeast(pos: seq<nat>, next: nat, latest: int)
      requires Valid() && |pos| == 3 && forall j :: 0 <= j < 3 ==> pos[j] <= tb[j].filled
      requires IsHeads(Lists(pos))
      requires next < 3 && pos[next] < tb[next].filled && latest == tb[next].timing[pos[next]]
      requires forall j :: 0 <= j < 3 && pos[j] < tb[j].filled ==> latest <= tb[j].timing[pos[j]]
      ensures |Lists(pos).k| == |Lists(pos).pos| == 3 && LeastHead(Lists(pos), next)
              && Lists(pos).k[next][pos[next]] == latest
    {
      HeadIs(pos, next);
      forall j: nat | j < 3 ensures var h := Lists(pos); h.pos[j] < |h.k[j]| ==> latest <= h.k[j][h.pos[j]] {
        HeadIs(pos, j);
      }
    }

    // The merge of the sub-windows, with the cost of every candidate.
    method BestDelay(delayStep: int, factor: real)
                     returns (opt: int, best: int, worst: int, ghost m: seq<int>, ghost cost: int)
      requires Valid() && delayStep > 0
      ensures IsCandidates(m, Received()[0] + Received()[1] + Received()[2])
      ensures IsBest(m, delayStep, factor, opt, cost)
      ensures if m == [] then worst == best == 0 else worst == m[0] && best == m[|m| - 1]
    {
      hide TimingBuffer.Valid, IsBest, Cost, RoundDown, Merged, LeastHead, AreSmallest, IsHeads, IsCandidates, Lists,
          Received;
      var bestCost, late, penaltyTaken := VERY_LARGE, 0, false;
      var pos: seq<nat> := [0, 0, 0];
      opt, best, worst, m := 0, 0, 0, [];
      NoCandidates(delayStep, factor);
      ListsAre(pos);
      NothingRead(Lists(pos));
      for i := 0 to TOP_DELAY
        invariant |pos| == 3 && (forall j :: 0 <= j < 3 ==> pos[j] <= tb[j].filled)
        invariant IsHeads(Lists(pos)) && Merged(Lists(pos), m) && AreSmallest(Lists(pos), Received())
        invariant |m| == i && late == i + (if penaltyTaken then 4 else 0)
        invariant penaltyTaken == (m != [] && m[|m| - 1] >= 0)
        invariant forall y :: y in m ==> y < LIMIT
        invariant IsBest(m, delayStep, factor, opt, bestCost)
        invariant if m == [] then worst == best == 0 else worst == m[0] && best == m[|m| - 1]
      {
        var next, latest := PickLatest(pos);
        if next == -1 {
          NoHead(pos, m);
          break;
        }
        if i == 0 { worst := latest; }
        best := latest;
        var rounded := RoundDown(latest, delayStep);
        TakeHead(pos, m, next, latest);
        RoundsDown(latest, delayStep);
        CostOfNext(m, latest, delayStep, factor, late);
        var cost := CostOf(rounded, factor, late);
        NextBest(m, latest, delayStep, factor, opt, bestCost, cost);
        if cost < bestCost { bestCost, opt := cost, rounded; }
        pos := pos[next := pos[next] + 1];
        m := m + [latest];
        late := late + 1;
        if rounded >= 0 && !penaltyTaken { penaltyTaken, late := true, late + 4; }
      }
      assert Finished(Lists(pos), m);
      cost := bestCost;
      MergeEnd(Lists(pos), Received(), m);
    }

    lemma CountedAll()
      requires Valid()
      ensures |tb| == |Received()| == 3
      ensures tb[0].currCount + tb[1].currCount + tb[2].currCount == |Received()[0] + Received()[1] + Received()[2]|
    {
      Counted(tb[0]);
      Counted(tb[1]);
      Counted(tb[2]);
    }

    // compute_opt_delay. m lists the candidates.
    method ComputeOptDelay(delayStep: int, latencyTradeoff: int, autoTradeoff: int, windowSize: int)
      returns (delay: int, tradeoff: int, ghost m: seq<int>)
      requires Valid() && delayStep > 0
      ensures IsOptimal(Received()[0] + Received()[1] + Received()[2], m, delayStep, latencyTradeoff, autoTradeoff,
              windowSize, delay, tradeoff)
    {
      hide TimingBuffer.Valid, IsBest, IsCandidates, LateFactor, CDiv, Wrap16, IsOptimal;
      CountedAll();
      ghost var u := Received()[0] + Received()[1] + Received()[2];
      var total := tb[0].currCount + tb[1].currCount + tb[2].currCount;
      if total == 0 {
        NothingReceived(u, delayStep, latencyTradeoff, autoTradeoff, windowSize);
        return 0, autoTradeoff, [];
      }
      var factor := LateFactor(latencyTradeoff, autoTradeoff, windowSize, total);
      var opt, best, worst;
      ghost var cost;
      opt, best, worst, m, cost := BestDelay(delayStep, factor);
      delay, tradeoff := Wrap16(opt), 1 + CDiv(best - worst, TOP_DELAY);
      if total < TOP_DELAY && delay > 0 { delay := 0; }
      OptimalFound(u, m, delayStep, latencyTradeoff, autoTradeoff, windowSize, opt, best, worst, cost);
    }
  }

  // The delay for the timings u: that of the candidate of least cost; zero without any timing, and no
  // shorter buffer with little data. The tradeoff for the next time is the spread of the candidates.
  ghost predicate IsOptimal(u: multiset<int>, m: seq<int>, delayStep: int, latencyTradeoff: int, autoTradeoff: int,
                            windowSize: int, delay: int, tradeoff: int)
    requires delayStep > 0
  {
    if |u| == 0 then delay == 0 && tradeoff == autoTradeoff
    else
      && IsCandidates(m, u)
      && tradeoff == 1 + (if m == [] then 0 else CDiv(m[|m| - 1] - m[0], TOP_DELAY))
      && exists opt, cost :: IsBest(m, delayStep, LateFactor(latencyTradeoff, autoTradeoff, windowSize, |u|), opt, cost)
                          && delay == if |u| < TOP_DELAY && Wrap16(opt) > 0 then 0 else Wrap16(opt)
  }

  lemma NothingReceived(u: multiset<int>, delayStep: int, latencyTradeoff: int, autoTradeoff: int, windowSize: int)
    requires |u| == 0 && delayStep > 0
    ensures IsOptimal(u, [], delayStep, latencyTradeoff, autoTradeoff, windowSize, 0, autoTradeoff)
  {
  }

  lemma OptimalFound(u: multiset<int>, m: seq<int>, delayStep: int, latencyTradeoff: int, autoTradeoff: int,
                     windowSize: int, opt: int, best: int, worst: int, cost: int)
    requires |u| > 0 && delayStep > 0 && IsCandidates(m, u)
    requires IsBest(m, delayStep, LateFactor(latencyTradeoff, autoTradeoff, windowSize, |u|), opt, cost)
    requires if m == [] then worst == best == 0 else worst == m[0] && best == m[|m| - 1]
    ensures IsOptimal(u, m, delayStep, latencyTradeoff, autoTradeoff, windowSize,
                      if |u| < TOP_DELAY && Wrap16(opt) > 0 then 0 else Wrap16(opt), 1 + CDiv(best - worst, TOP_DELAY))
  {
    hide IsCandidates, IsBest, LateFactor, Wrap16;
  }

  lemma NoCandidates(delayStep: int, factor: real)
    requires delayStep > 0
    ensures IsBest([], delayStep, factor, 0, VERY_LARGE)
  {
  }

  lemma StillSmallest(h: Heads, next: nat, u: seq<multiset<int>>)
    requires IsHeads(h) && AreSmallest(h, u) && next < 3 && IsHeads(Advanced(h, next))
    ensures AreSmallest(Advanced(h, next), u)
  {
  }

  lemma MergedUp(h: Heads, m: seq<int>, v: int)
    requires IsHeads(h) && Merged(h, m + [v])
    ensures m != [] ==> m[|m| - 1] <= v
  {
    if m != [] {
      assert (m + [v])[|m| - 1] == m[|m| - 1] && (m + [v])[|m|] == v;
    }
  }

  lemma CostOfNext(m: seq<int>, v: int, step: int, factor: real, late: nat)
    requires step > 0 && late == |m| + (if m != [] && m[|m| - 1] >= 0 then 4 else 0)
    ensures Cost(m + [v], step, factor, |m|) == CostOf(RoundDown(v, step), factor, late)
  {
    hide RoundDown, CostOf, Late, Cost;
    LateOfNext(m, v);
    CostIs(m + [v], step, factor, |m|, v, late);
  }

  lemma LateOfNext(m: seq<int>, v: int)
    ensures Late(m + [v], |m|) == |m| + (if m != [] && m[|m| - 1] >= 0 then 4 else 0)
  {
  }

  lemma CostIs(m: seq<int>, step: int, factor: real, i: nat, v: int, late: nat)
    requires step > 0 && i < |m| && m[i] == v && Late(m, i) == late
    ensures Cost(m, step, factor, i) == CostOf(RoundDown(v, step), factor, late)
  {
    hide RoundDown, CostOf, Late;
  }
}
