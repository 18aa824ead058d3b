/** How the jitter buffer keeps its accounts: every packet is timed once, the next call is due where the
    application runs out of samples, and what is returned accounts for the way of the pointer. */
module JitterLaws {
  import opened Fixed
  import opened SmallestLists
  import opened JitterMerge
  import opened JitterCost
  import opened JitterTimings
  import opened JitterState
  import opened JitterDelivery
  import opened JitterRun

  // ---------- the next call ----------

  // The pointer that a get starts from.
  function From(s: State): Time
    requires s.reset ==> Oldest(s.slots) != -1
  {
    if s.reset then s.slots[Oldest(s.slots)].p.timestamp else s.pointer
  }

  // A get and then a tick: the next call is due desired units after the beginning of what was returned, or
  // at the end of it if that is shorter, moved by the adjustment. A packet begins at the pointer as far as
  // the application has been told its offset.
  lemma StopsAtDesired(s: State, e: Event, r: Result, s1: State, s2: State, opt: int)
    requires s.Valid() && e.Get? && Step(s, e, r, s1) && s1.Valid() && Ticks(s1, s2, opt) && !s1.reset
    ensures s.reset ==> Oldest(s.slots) != -1
    ensures s2.buffered == 0
    ensures var end := Stamp(s1.pointer + opt);
            s1.buffered < 0 ==> s2.next == end
    ensures s1.buffered >= 0 && r.out.Got? ==>
            s2.next == Stamp((if e.wanted then From(s) else r.out.p.timestamp) + e.desired + opt)
    ensures s1.buffered >= 0 && r.out.Insertion? && s.interp != 0 ==> s2.next == Stamp(From(s) + e.desired + opt)
    ensures s1.buffered >= 0 && r.out.Insertion? && s.interp == 0 ==>
            s2.next == Stamp(From(s) - r.out.span + e.desired + opt)
    ensures r.out.Missing? ==> s2.next == Stamp(From(s) + r.out.span + opt)
  {
    hide Optimal, Oldest, NoneFits, Picked, Ticks, Delivered, Interpolated, Concealed, Concealment, Stamp, D, Wrap32;
    NextIs(s1, s2, opt);
    assert s.reset ==> Oldest(s.slots) != -1;
    var t := Synced(s);
    assert Gets(s, e.desired, e.wanted, e.capacity, s1, r.out) && t.Valid();
    if t.interp != 0 {
      InterpolatedTo(t, e.desired, opt);
    } else if !NoneFits(t.slots, t.pointer, e.desired) {
      var i: nat :| i < SLOTS && Delivers(t, i, e.desired, e.wanted, e.capacity, s1, r.out);
      DeliveredTo(t, i, e.desired, e.wanted, e.capacity, s1, r.out, opt);
    } else {
      var o, tradeoff :| s1 == Concealed(t, e.desired, o, tradeoff) && Optimal(t, o, tradeoff)
                         && r.out == Concealment(t, e.desired, o);
      ConcealedTo(t, e.desired, o, tradeoff, opt);
    }
  }

  lemma InterpolatedTo(t: State, desired: int, opt: int)
    ensures var c := Interpolated(t, desired);
            Stamp(c.pointer + opt - c.buffered) == Stamp(t.pointer + desired + opt)
  {
    PlayedTo(t.pointer, t.interp, desired, opt);
    hide Stamp, Wrap32;
  }

  lemma DeliveredTo(t: State, i: nat, desired: int, wanted: bool, capacity: nat, s': State, out: Outcome, opt: int)
    requires t.Valid() && i < SLOTS && Delivers(t, i, desired, wanted, capacity, s', out)
    ensures out.Got? && Stamp(s'.pointer + opt - s'.buffered)
                        == Stamp((if wanted then t.pointer else out.p.timestamp) + desired + opt)
  {
    hide Picked, Timed;
    PickedHeld(t.slots, t.pointer, desired, i);
    var p := t.slots[i].p;
    TakenAt(p.timestamp, p.span, t.pointer, desired, opt, wanted);
    hide Stamp, Wrap32;
  }

  lemma NextIs(s: State, s': State, opt: int)
    requires s.Valid() && Ticks(s, s', opt)
    ensures s'.buffered == 0
    ensures s'.next == Stamp(s.pointer + opt - if s.buffered >= 0 then s.buffered else 0)
  {
    hide Optimal, Shifted;
    StampSum(s.pointer + opt, if s.buffered >= 0 then -s.buffered else 0);
  }

  lemma StampSum(a: int, b: int)
    ensures Stamp(Stamp(a) + b) == Stamp(a + b) && (0 <= a < 0x1_0000_0000 ==> Stamp(a) == a)
  {
  }

  // Distances that have wrapped do not matter to a stamp.
  lemma StampLess(a: int, x: int)
    ensures Stamp(a - Wrap32(x)) == Stamp(a - x)
  {
  }

  lemma TakenAt(timestamp: Time, span: Time, pointer: Time, desired: int, opt: int, wanted: bool)
    ensures var offset := if wanted then D(timestamp, pointer) else 0;
            Stamp(Stamp(timestamp + span) + opt - Wrap32(span - desired + offset))
            == Stamp((if wanted then pointer else timestamp) + desired + opt)
  {
    var offset := if wanted then D(timestamp, pointer) else 0;
    StampLess(Stamp(timestamp + span) + opt, span - desired + offset);
    StampSum(timestamp + span, opt - (span - desired + offset));
    if wanted { StampLess(timestamp + span + opt - span + desired, timestamp - pointer); }
    hide Stamp, Wrap32;
  }

  lemma PlayedTo(pointer: Time, interp: int, desired: int, opt: int)
    ensures Stamp(Stamp(pointer + interp) + opt - Wrap32(interp - desired)) == Stamp(pointer + desired + opt)
  {
    StampLess(Stamp(pointer + interp) + opt, interp - desired);
    StampSum(pointer + interp, opt - (interp - desired));
    hide Stamp, Wrap32;
  }

  lemma ConcealedTo(t: State, desired: int, o: int, tradeoff: int, opt: int)
    requires t.Valid() && Optimal(t, o, tradeoff)
    ensures var c, out := Concealed(t, desired, o, tradeoff), Concealment(t, desired, o);
            && !out.Got?
            && (out.Insertion? ==>
                  Stamp(c.pointer + opt - c.buffered) == Stamp(t.pointer - out.span + desired + opt))
            && (out.Missing? ==> c.buffered == 0 && Stamp(c.pointer + opt) == Stamp(t.pointer + out.span + opt))
  {
    hide Optimal, Shifted, RoundDown, Stamp, Wrap32, Wrap16;
    OptRange(t, o, tradeoff);
    if o < 0 {
      StampLess(t.pointer + opt, -o - desired);
      StampSum(-o, 0);
    } else {
      var n := RoundDown(desired, t.cfg.concealmentSize);
      StampSum(t.pointer + n, opt);
      StampSum(n, t.pointer + opt);
    }
  }

  // jitter_buffer_remaining_span: the next call is due when the remaining samples run out.
  lemma StopsAtRemaining(s: State, rem: Time, s': State, opt: int)
    requires s.Valid() && Remains(s, rem, s', opt)
    ensures s'.next == Stamp(s.pointer + opt - rem)
  {
    hide Optimal, Shifted, Stamp;
    var left: int := rem;
    StampSum(s.pointer + opt, -left);
  }

  // ---------- timing ----------

  // A timing goes to the youngest sub-window; the oldest one makes room when that is full.
  lemma TimedAddsOne(windows: seq<seq<int>>, subwindowSize: int, timing: int)
    requires |windows| == MAX_BUFFERS
    ensures AllTimings(Timed(windows, subwindowSize, timing))
         == AllTimings(windows) - (if |windows[0]| >= subwindowSize then multiset(windows[2]) else multiset{})
            + multiset{Clamped(timing)}
  {
    hide Clamped;
    var v := Clamped(timing);
    if |windows[0]| < subwindowSize { assert multiset(windows[0] + [v]) == multiset(windows[0]) + multiset{v}; }
  }

  // What p is timed at when it is put: how much of the way to its play-out it is ahead of the margin.
  function Timing(s: State, p: Packet): int { Wrap32(p.timestamp - s.next - s.cfg.bufferMargin) }

  // The state after a put, apart from the slots.
  lemma PutTimes(s: State, p: Packet)
    requires s.Valid() && s.lost <= 20
    ensures AfterPut(s, p).cfg == s.cfg && AfterPut(s, p).Valid()
    ensures AfterPut(s, p).windows
         == if JitterState.Late(s, p) then Timed(s.windows, s.cfg.subwindowSize, Timing(s, p)) else s.windows
  {
    hide Clean, D, Wrap32, Useful, JitterState.Late, Timed, FreeSlot, Oldest;
    PutKeepsValid(s, p);
  }

  // Where a put has stored its packet, and the arrival that goes with it.
  ghost predicate StoredAt(s: State, p: Packet, i: nat)
    requires s.Valid()
  {
    && i < SLOTS && |AfterPut(s, p).slots| == SLOTS == |AfterPut(s, p).arrival| && s.lost <= 20
    && Useful(Prepared(s, p), p)
    && i == (if FreeSlot(Prepared(s, p).slots) < SLOTS then FreeSlot(Prepared(s, p).slots) else
             Oldest(Prepared(s, p).slots))
  }

  lemma ArrivalIs(s: State, p: Packet, i: nat)
    requires s.Valid() && StoredAt(s, p, i)
    ensures AfterPut(s, p).slots[i] == Held(p)
    ensures AfterPut(s, p).arrival[i] == if s.reset || JitterState.Late(s, p) then 0 else s.next
  {
    hide Clean, D, Wrap32, Useful, Timed, FreeSlot, Oldest;
  }

  lemma PutArrivals(s: State, p: Packet, i: nat)
    requires s.Valid() && i < SLOTS && AfterPut(s, p).Valid()
    ensures var s' := AfterPut(s, p);
            s'.cfg == s.cfg && (s'.arrival[i] == s.arrival[i] || s'.slots[i] == Held(p))
  {
    hide Clean, D, Wrap32, Useful, JitterState.Late, Timed, FreeSlot, Oldest;
  }

  lemma GetArrivals(s: State, e: Event, r: Result, s': State)
    requires s.Valid() && e.Get? && Step(s, e, r, s')
    ensures s'.arrival == s.arrival && s'.cfg == s.cfg
  {
    hide Optimal, Picked, NoneFits, Oldest, D, RoundDown, ShiftedAll3, Wrap16, Wrap32, Timed, Stamp;
  }

  // No call but a put touches an arrival.
  lemma ArrivalStays(s: State, e: Event, r: Result, s': State, i: nat)
    requires s.Valid() && Step(s, e, r, s') && i < SLOTS
    ensures s'.Valid() && s'.cfg.bufferMargin == s.cfg.bufferMargin && s'.cfg.subwindowSize == s.cfg.subwindowSize
    ensures s'.arrival[i] == s.arrival[i] || (e.Put? && s'.slots[i] == Held(e.p))
  {
    StepKeepsValid(s, e, r, s');
    hide Optimal, Picked, NoneFits, Oldest, FreeSlot, D, Clean, Fit, RoundDown, Useful, JitterState.Late, ShiftedAll3,
        Wrap16, Wrap32, Timed, Stamp, Prepared, Synced;
    match e
    case Put(p) => { PutArrivals(s, p, i); }
    case Get(_, _, _) => { GetArrivals(s, e, r, s'); }
    case _ => {}
  }

  // Slot i holds p after every move, and p is not put a second time.
  ghost predicate Stays(moves: seq<Move>, i: nat, p: Packet) {
    forall k :: 0 <= k < |moves| ==>
      && |moves[k].after.slots| == SLOTS && i < SLOTS && moves[k].after.slots[i] == Held(p)
      && moves[k].e != Put(p)
  }

  lemma {:induction false} ArrivalOverRun(s: State, moves: seq<Move>, i: nat, p: Packet)
    requires s.Valid() && IsRun(s, moves) && Stays(moves, i, p) && i < SLOTS
    ensures var u := Last(s, moves);
            && u.Valid() && u.arrival[i] == s.arrival[i]
            && u.cfg.bufferMargin == s.cfg.bufferMargin && u.cfg.subwindowSize == s.cfg.subwindowSize
    decreases |moves|
  {
    hide Step;
    if moves != [] {
      var m := moves[0];
      ArrivalStays(s, m.e, m.r, m.after, i);
      forall k | 0 <= k < |moves[1..]|
        ensures moves[1..][k].after.slots == moves[k + 1].after.slots && moves[1..][k].e == moves[k + 1].e
      {
      }
      ArrivalOverRun(m.after, moves[1..], i, p);
      assert Last(s, moves) == Last(m.after, moves[1..]);
    }
  }

  // A packet is put, any calls follow while it is stored, and it is delivered. It has then been timed just
  // once, by what it was ahead of the next call when it was put: at the put if it came late, and else on
  // delivery. A packet from before the first get is not timed, nor one that came on time while the next
  // call was due at zero, which the code takes for late.
  lemma TimedOnce(s: State, p: Packet, i: nat, moves: seq<Move>, desired: int, wanted: bool)
    requires s.Valid() && StoredAt(s, p, i)
    requires AfterPut(s, p).Valid() && IsRun(AfterPut(s, p), moves) && Stays(moves, i, p)
    ensures var t, u := AfterPut(s, p), Last(AfterPut(s, p), moves);
            && u.Valid() && u.slots[i] == Held(p)
            && var size, late, timed := s.cfg.subwindowSize, JitterState.Late(s, p), !s.reset && s.next != 0;
               && t.windows == (if late then Timed(s.windows, size, Timing(s, p)) else s.windows)
               && JitterState.Delivered(u, i, desired, wanted).windows
                  == (if !late && timed then Timed(u.windows, size, Timing(s, p)) else u.windows)
  {
    hide IsRun, AfterPut, Wrap32, Timed, JitterState.Late, JitterState.Delivered, Useful, Prepared, FreeSlot, Oldest;
    var t := AfterPut(s, p);
    PutTimes(s, p);
    ArrivalIs(s, p, i);
    ArrivalOverRun(t, moves, i, p);
    if moves != [] { assert moves[|moves| - 1].after.slots[i] == Held(p); }
    DeliveryTimes(Last(t, moves), p, i, desired, wanted);
    LateIsSynced(s, p);
  }

  lemma DeliveryTimes(u: State, p: Packet, i: nat, desired: int, wanted: bool)
    requires u.Valid() && i < SLOTS && u.slots[i] == Held(p)
    ensures JitterState.Delivered(u, i, desired, wanted).windows
         == if u.arrival[i] == 0 then u.windows
            else Timed(u.windows, u.cfg.subwindowSize, Wrap32(p.timestamp - u.arrival[i] - u.cfg.bufferMargin))
  {
    hide Wrap32, Timed, D;
  }

  lemma LateIsSynced(s: State, p: Packet)
    ensures JitterState.Late(s, p) ==> !s.reset
  {
  }

  // After more than twenty losses in a row a put starts over: only its packet is stored, nothing is timed.
  lemma LostRestarts(s: State, p: Packet)
    requires s.Valid() && s.lost > 20
    ensures var t := AfterPut(s, p);
            && t.reset && t.lost == 0 && t.windows == [[], [], []]
            && t.slots == seq(SLOTS, i => Empty)[0 := Held(p)] && t.arrival == s.arrival[0 := 0]
            && t.interp == s.interp
  {
    hide Clean, D, Wrap32, JitterState.Late, Timed;
    assert FreeSlot(seq(SLOTS, i => Empty)) == 0;
  }

  // ---------- adjustments ----------

  // An adjustment of the delay moves the timings against the pointer, so that the moment a timing stands
  // for stays the same. Only the least 16-bit delay has no opposite.
  lemma ShiftKeepsTime(s: State, opt: int, tradeoff: int, k: nat, j: nat)
    requires s.Valid() && -0x8000 <= opt < 0x8000 && k < MAX_BUFFERS && j < |s.windows[k]|
    ensures var s' := AfterUpdate(s, opt, tradeoff);
            && |s'.windows[k]| == |s.windows[k]|
            && (Stamp(s'.pointer + s'.windows[k][j]) == Stamp(s.pointer + s.windows[k][j]) <==> opt != -0x8000)
  {
    var w := s.windows[k][j];
    StampSum(s.pointer + opt, w + Wrap16(-opt));
    Opposite(s.pointer, w, opt);
    hide Stamp;
  }

  lemma Opposite(a: Time, w: int, opt: int)
    requires -0x8000 <= opt < 0x8000
    ensures Stamp(a + opt + (w + Wrap16(-opt))) == Stamp(a + w) <==> opt != -0x8000
  {
  }

  // What a get without a packet returns is just what it moves: a loss of whole concealment units moves the
  // pointer, and an insertion on account of a negative delay moves the timings.
  lemma ConcealedMoves(s: State, e: Event, r: Result, s': State)
    requires s.Valid() && e.Get? && Step(s, e, r, s') && !s.reset && s.interp == 0 && !r.out.Got?
    requires 0 <= e.desired < 0x8000_0000
    ensures r.out.timestamp == s.pointer && s'.lost == s.lost + 1 && s'.slots == s.slots
    ensures r.out.Missing? ==>
            && r.out.span <= e.desired < r.out.span + s.cfg.concealmentSize && r.out.span % s.cfg.concealmentSize == 0
            && s'.pointer == Stamp(s.pointer + r.out.span) && s'.windows == s.windows
    ensures r.out.Insertion? ==>
            && s'.pointer == s.pointer && 0 < r.out.span <= 0x8000
            && forall k, j :: 0 <= k < MAX_BUFFERS && 0 <= j < |s.windows[k]| && r.out.span < 0x8000 ==>
                 |s'.windows[k]| == |s.windows[k]| && s'.windows[k][j] == s.windows[k][j] + r.out.span
  {
    hide Optimal, NoneFits, Picked, Delivered, Concealed, Concealment;
    var o, tradeoff :| s' == Concealed(Synced(s), e.desired, o, tradeoff) && Optimal(Synced(s), o, tradeoff)
                       && r.out == Concealment(Synced(s), e.desired, o);
    ConcealmentIs(Synced(s), e.desired, o, tradeoff);
  }

  lemma ConcealmentIs(s: State, desired: int, o: int, tradeoff: int)
    requires s.Valid() && Optimal(s, o, tradeoff) && 0 <= desired < 0x8000_0000
    ensures var s', out := Concealed(s, desired, o, tradeoff), Concealment(s, desired, o);
            && out.timestamp == s.pointer && s'.lost == s.lost + 1 && s'.slots == s.slots
            && (if o < 0 then
                  && out.Insertion? && out.span == -o <= 0x8000 && s'.pointer == s.pointer
                  && (-o < 0x8000 ==> s'.windows == ShiftedAll3(s.windows, -o))
                else
                  && out.Missing? && out.span == RoundDown(desired, s.cfg.concealmentSize)
                  && s'.pointer == Stamp(s.pointer + out.span) && s'.windows == s.windows
                  && out.span <= desired < out.span + s.cfg.concealmentSize && out.span % s.cfg.concealmentSize == 0)
  {
    hide Optimal, ShiftedAll3, RoundDown, Wrap16, Wrap32, Stamp;
    OptRange(s, o, tradeoff);
    RoundsDown(desired, s.cfg.concealmentSize);
    InRange(-o, RoundDown(desired, s.cfg.concealmentSize));
  }

  lemma InRange(k: int, n: int)
    requires -0x8000 < k <= 0x8000
    ensures k >= 0 ==> Stamp(k) == k && (k < 0x8000 ==> Wrap16(k) == k)
    ensures 0 <= n < 0x8000_0000 ==> Stamp(n) == n
  {
  }

  // Without data the delay stays, with little data the buffer does not get shorter, and it does not get
  // longer unless some packet was late.
  lemma DelayIs(s: State, opt: int, tradeoff: int)
    requires s.Valid() && Optimal(s, opt, tradeoff)
    ensures AllTimings(s.windows) == multiset{} ==> opt == 0
    ensures |AllTimings(s.windows)| < TOP_DELAY ==> opt <= 0
    ensures (forall x :: x in AllTimings(s.windows) ==> x >= 0) ==> opt >= 0
  {
    hide LateFactor, First, RoundDown;
    var u := AllTimings(s.windows);
    var m :| IsOptimal(u, m, s.cfg.delayStep, s.cfg.latencyTradeoff, s.tradeoff, s.cfg.windowSize, opt, tradeoff);
    if |u| > 0 && forall x :: x in u ==> x >= 0 {
      var factor := LateFactor(s.cfg.latencyTradeoff, s.tradeoff, s.cfg.windowSize, |u|);
      var o, cost :| IsBest(m, s.cfg.delayStep, factor, o, cost)
                     && opt == if |u| < TOP_DELAY && Wrap16(o) > 0 then 0 else Wrap16(o);
      NotBelow(u, m, s.cfg.delayStep, factor, o, cost);
    }
  }

  lemma NotBelow(u: multiset<int>, m: seq<int>, step: int, factor: real, o: int, cost: int)
    requires step > 0 && IsCandidates(m, u) && IsBest(m, step, factor, o, cost) && forall x :: x in u ==> x >= 0
    ensures 0 <= o < LIMIT
  {
    hide Cost, RoundDown;
    if b: nat :| First(m, step, factor, b, cost) && o == RoundDown(m[b], step) {
      RoundsDown(m[b], step);
      assert m[b] in multiset(m) && m[b] in m;
    }
  }

  // What a late packet costs: a hundred times the tradeoff that was set, or the automatic one in units of a
  // window, shared out among the timings.
  lemma LateFactorIs(latencyTradeoff: int, autoTradeoff: nat, windowSize: nat, total: nat)
    requires total > 0
    ensures var f := LateFactor(latencyTradeoff, autoTradeoff, windowSize, total);
            if latencyTradeoff != 0 then f * total as real == (100 * latencyTradeoff) as real
            else f * total as real <= (autoTradeoff * windowSize) as real < (f + 1.0) * total as real
  {
    var x, f := autoTradeoff * windowSize, LateFactor(latencyTradeoff, autoTradeoff, windowSize, total);
    if latencyTradeoff == 0 {
      var q := x / total;
      assert x == q * total + x % total;
      assert f == q as real;
      assert (q * total) as real == f * total as real;
    }
  }

  // As many packets are late as candidates come before the one that sets the delay, and four more count for
  // it when one of those was not late at all.
  lemma LateCounts(m: seq<int>, i: nat)
    requires Sorted(m) && i < |m|
    ensures JitterCost.Late(m, i) == i + if exists j :: 0 <= j < i && m[j] >= 0 then 4 else 0
  {
  }

  // ---------- what goes out, and what goes away ----------

  // A packet that goes out ends a series of losses, and tells how far behind the pointer it begins; further
  // packets from the same moment can be had one by one, as long as there are any.
  lemma AnotherHasSameTime(s: State, e: Event, r: Result, s1: State, r2: Result, s2: State)
    requires s.Valid() && e.Get? && Step(s, e, r, s1) && r.out.Got? && s1.Valid() && Step(s1, Another, r2, s2)
    ensures s1.lost == 0 && s1.last == r.out.p.timestamp
    ensures s.reset ==> Oldest(s.slots) != -1
    ensures r.out.offset == D(r.out.p.timestamp, From(s))
    ensures r2.out.Got? <==> exists k :: 0 <= k < SLOTS && s1.slots[k].Held? && s1.slots[k].p.timestamp == s1.last
    ensures r2.out.Got? ==> r2.out.p.timestamp == r.out.p.timestamp
                            && exists k :: 0 <= k < SLOTS && s1.slots[k] == Held(r2.out.p)
                                && s2 == s1.(slots := s1.slots[k
                               := Empty])
  {
    hide Optimal, Oldest, NoneFits, Picked, D, Timed, Concealed, Wrap32;
    assert s.reset ==> Oldest(s.slots) != -1;
    var t := Synced(s);
    var i: nat :| i < SLOTS && Delivers(t, i, e.desired, e.wanted, e.capacity, s1, r.out);
    PickedHeld(t.slots, t.pointer, e.desired, i);
    hide Gets, Delivers;
    assert forall k :: 0 <= k < SLOTS ==>
      (Matches(s1.slots[k], s1.last) <==> s1.slots[k].Held? && s1.slots[k].p.timestamp == s1.last);
  }

  // A put takes away just the packets that end at or before the pointer.
  lemma PlayedGoAway(s: State, p: Packet, k: nat)
    requires s.Valid() && s.lost <= 20 && k < SLOTS
    ensures |Prepared(s, p).slots| == SLOTS
    ensures Prepared(s, p).slots[k]
         == if !s.reset && s.slots[k].Held? && D(s.slots[k].p.timestamp + s.slots[k].p.span, s.pointer) <= 0 then Empty
            else s.slots[k]
  {
    hide D, Wrap32, JitterState.Late, Timed;
  }

  // And it stores its packet unless that ends more than one step of the delay before the pointer.
  lemma StoredUnlessUseless(s: State, p: Packet) returns (i: nat)
    requires s.Valid() && s.lost <= 20
    ensures i < SLOTS == |Prepared(s, p).slots|
    ensures AfterPut(s, p).slots
         == if !s.reset && D(p.timestamp + p.span + s.cfg.delayStep, s.pointer) < 0 then Prepared(s, p).slots
            else Prepared(s, p).slots[i := Held(p)]
  {
    hide D, Wrap32, JitterState.Late, Timed, Clean, FreeSlot, Oldest;
    var t := Prepared(s, p);
    assert t.pointer == s.pointer && t.reset == s.reset && t.cfg == s.cfg && |t.slots| == SLOTS;
    var free := FreeSlot(t.slots);
    if free == SLOTS { assert t.slots[0].Held?; }
    i := if free < SLOTS then free else Oldest(t.slots);
  }

  // ---------- a full buffer ----------

  // With no slot free, a put takes that of the earliest packet.
  lemma FullDropsEarliest(s: State, p: Packet, late: bool, t: Time)
    requires s.Valid() && Near(s.slots, t) && forall k :: 0 <= k < SLOTS ==> s.slots[k].Held?
    ensures exists i :: 0 <= i < SLOTS && JitterState.Inserted(s, p, late).slots == s.slots[i := Held(p)]
              && forall k :: 0 <= k < SLOTS ==> D(s.slots[k].p.timestamp, s.slots[i].p.timestamp) >= 0
  {
    assert s.slots[0].Held?;
    var i := Oldest(s.slots);
    OldestIsFirst(s.slots, t);
    hide D, Near;
  }

  // With a slot free, nothing is lost.
  lemma FreeLosesNothing(s: State, p: Packet, late: bool)
    requires s.Valid() && exists k :: 0 <= k < SLOTS && s.slots[k].Empty?
    ensures exists i :: 0 <= i < SLOTS && s.slots[i].Empty? && JitterState.Inserted(s, p, late).slots
                        == s.slots[i := Held(p)]
  {
    var i := FreeSlot(s.slots);
  }
}
