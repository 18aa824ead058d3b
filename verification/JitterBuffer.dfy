/** The jitter buffer itself, over its arrays of slots and arrival times (jitter.c). */
module JitterBuffers {
  import opened Fixed
  import opened SmallestLists
  import opened JitterCost
  import opened JitterTimings
  import opened JitterState
  import opened JitterRun

  class JitterBuffer {
    const packets: array<Slot>
    const arrival: array<Time>
    const timings: Timings
    var pointerTimestamp: Time
    var lastReturnedTimestamp: Time
    var nextStop: Time
    var buffered: int
    var resetState: bool
    var interpRequested: int
    var lostCount: int
    var autoTradeoff: int
    var cfg: Config

    ghost predicate Apart() {
      && packets.Length == arrival.Length == SLOTS && (packets as object) != arrival
      && (packets as object) !in timings.Repr() && (arrival as object) !in timings.Repr()
    }

    ghost predicate Valid()
      reads this, timings, timings.Repr()
    {
      && Apart() && timings.Valid() && timings.subwindowSize == cfg.subwindowSize
      && cfg.delayStep > 0 && cfg.concealmentSize > 0 && 0 <= interpRequested <= 0x8000
    }

    ghost function Windows(): (w: seq<seq<int>>)
      requires timings.Valid()
      reads timings, timings.Repr()
    {
      [timings.Window(0), timings.Window(1), timings.Window(2)]
    }

    ghost function View(): (s: State)
      requires Valid()
      reads this, packets, arrival, timings, timings.Repr()
      ensures s.Valid()
    {
      State(packets[..], arrival[..], pointerTimestamp, lastReturnedTimestamp, nextStop, buffered,
            resetState, interpRequested, lostCount, autoTradeoff, Windows(), cfg)
    }

    // jitter_buffer_init
    constructor (stepSize: int)
      requires stepSize > 0
      ensures Valid() && View() == Initial(stepSize) && fresh(packets) && fresh(arrival) && fresh(timings)
              && fresh(timings.Repr())
    {
      hide TimingBuffer.Valid, Timings.Valid;
      var config := InitialConfig(stepSize);
      var p := new Slot[SLOTS](_ => Empty);
      var a := new Time[SLOTS](_ => 0);
      var t := new Timings(config.subwindowSize);
      packets, arrival, timings := p, a, t;
      pointerTimestamp, lastReturnedTimestamp, nextStop, buffered := 0, 0, 0, 0;
      resetState, interpRequested, lostCount, autoTradeoff, cfg := true, 0, 0, 32000, config;
      new;
      assert Apart();
      assert timings.subwindowSize == cfg.subwindowSize;
      assert packets[..] == seq(SLOTS, i => Empty);
      assert arrival[..] == seq(SLOTS, i => 0);
      assert Windows() == [[], [], []];
    }

    // ---------- steps on one part of the state ----------

    method Store(i: nat, x: Slot, stop: Time)
      requires Valid() && i < SLOTS
      modifies packets, arrival
      ensures Valid() && View()
              == old(View()).(slots := old(View()).slots[i := x], arrival := old(View()).arrival[i := stop])
    {
      hide Timings.Valid;
      packets[i], arrival[i] := x, stop;
    }

    method Remove(i: nat)
      requires Valid() && i < SLOTS
      modifies packets
      ensures Valid() && View() == old(View()).(slots := old(View()).slots[i := Empty])
    {
      hide Timings.Valid;
      packets[i] := Empty;
    }

    // "Cleanup buffer (remove old packets that weren't played)"
    method CleanUp()
      requires Valid()
      modifies packets
      ensures Valid() && View() == old(View()).(slots := Clean(old(View()).slots, old(View()).pointer))
    {
      hide Timings.Valid, Played;
      ghost var was := packets[..];
      for i := 0 to SLOTS
        invariant Valid() && Windows() == old(Windows()) && arrival[..] == old(arrival[..])
        invariant forall k :: 0 <= k < SLOTS ==>
                  packets[k] == if k < i && Played(was[k], pointerTimestamp) then Empty else was[k]
      {
        if Played(packets[i], pointerTimestamp) { packets[i] := Empty; }
      }
      assert packets[..] == Clean(was, pointerTimestamp);
    }

    method NoteTiming(timing: int)
      requires Valid()
      modifies timings, timings.Repr()
      ensures Valid() && View() == old(View()).(windows := Timed(old(View()).windows, cfg.subwindowSize, timing))
    {
      hide Timings.Valid, Timings.Window, Timed, Clamped;
      ghost var w := Windows();
      timings.Update(timing);
      OneTimed(w, Windows(), cfg.subwindowSize, timing);
    }

    method ShiftTimings(amount: int)
      requires Valid()
      modifies timings, timings.Repr()
      ensures Valid() && View() == old(View()).(windows := ShiftedAll3(old(View()).windows, amount))
    {
      hide Timings.Valid;
      timings.Shift(amount);
    }

    // ---------- searches ----------

    method FindFree() returns (i: nat)
      requires packets.Length == SLOTS
      ensures i == FreeSlot(packets[..])
    {
      i := 0;
      while i < SLOTS && packets[i].Held?
        invariant i <= SLOTS && forall k :: 0 <= k < i ==> packets[k].Held?
      {
        i := i + 1;
      }
      IsFree(packets[..], i);
    }

    // "discarding the oldest packet" of a full buffer
    method FindEarliest() returns (i: nat)
      requires packets.Length == SLOTS && forall k :: 0 <= k < SLOTS ==> packets[k].Held?
      ensures i < SLOTS && i == Oldest(packets[..])
    {
      hide D;
      i := 0;
      var earliest := packets[0].p.timestamp;
      OldestOfOne(packets[..1]);
      for j := 1 to SLOTS
        invariant i < j && i == Oldest(packets[..j]) && earliest == packets[i].p.timestamp
      {
        OldestMore(packets[..], j);
        if D(packets[j].p.timestamp, earliest) < 0 {
          earliest, i := packets[j].p.timestamp, j;
        }
      }
      assert packets[..SLOTS] == packets[..];
    }

    // "Find the oldest packet"
    method FindOldest() returns (found: bool, oldest: Time)
      requires packets.Length == SLOTS
      ensures found <==> Oldest(packets[..]) != -1
      ensures found ==> oldest == packets[Oldest(packets[..])].p.timestamp
    {
      hide D;
      found, oldest := false, 0;
      for i := 0 to SLOTS
        invariant found <==> Oldest(packets[..i]) != -1
        invariant found ==> oldest == packets[Oldest(packets[..i])].p.timestamp
      {
        OldestMore(packets[..], i);
        if packets[i].Held? && (!found || D(packets[i].p.timestamp, oldest) < 0) {
          oldest, found := packets[i].p.timestamp, true;
        }
      }
      assert packets[..SLOTS] == packets[..];
    }

    // The four passes of jitter_buffer_get, each for want of anything in the one before.
    method SearchExact(desired: int) returns (i: nat)
      requires packets.Length == SLOTS
      ensures FirstBelow(packets[..], pointerTimestamp, desired, 1, i)
    {
      i := 0;
      while i < SLOTS && !(packets[i].Held? && packets[i].p.timestamp == pointerTimestamp
                           && D(packets[i].p.timestamp + packets[i].p.span, pointerTimestamp + desired) >= 0)
        invariant i <= SLOTS && forall k :: 0 <= k < i ==> Fit(packets[k], pointerTimestamp, desired) >= 1
      {
        i := i + 1;
      }
    }

    method SearchOlder(desired: int) returns (i: nat)
      requires packets.Length == SLOTS && FirstBelow(packets[..], pointerTimestamp, desired, 1, SLOTS)
      ensures FirstBelow(packets[..], pointerTimestamp, desired, 2, i)
    {
      i := 0;
      while i < SLOTS && !(packets[i].Held? && D(packets[i].p.timestamp, pointerTimestamp) <= 0
                           && D(packets[i].p.timestamp + packets[i].p.span, pointerTimestamp + desired) >= 0)
        invariant i <= SLOTS && forall k :: 0 <= k < i ==> Fit(packets[k], pointerTimestamp, desired) >= 2
      {
        assert Fit(packets[..][i], pointerTimestamp, desired) >= 1;
        i := i + 1;
      }
    }

    method SearchPartial(desired: int) returns (i: nat)
      requires packets.Length == SLOTS && FirstBelow(packets[..], pointerTimestamp, desired, 2, SLOTS)
      ensures FirstBelow(packets[..], pointerTimestamp, desired, 3, i)
    {
      i := 0;
      while i < SLOTS && !(packets[i].Held? && D(packets[i].p.timestamp, pointerTimestamp) <= 0
                           && D(packets[i].p.timestamp + packets[i].p.span, pointerTimestamp) > 0)
        invariant i <= SLOTS && forall k :: 0 <= k < i ==> Fit(packets[k], pointerTimestamp, desired) >= 3
      {
        assert Fit(packets[..][i], pointerTimestamp, desired) >= 2;
        i := i + 1;
      }
    }

    // "try for earliest packet possible"
    method SearchInside(desired: int) returns (i: nat)
      requires packets.Length == SLOTS && FirstBelow(packets[..], pointerTimestamp, desired, 3, SLOTS)
      ensures Chosen(packets[..], pointerTimestamp, desired, i)
    {
      hide D, Wrap32;
      var found, bestTime, bestSpan, besti := false, 0, 0, 0;
      for k := 0 to SLOTS
        invariant Best(packets[..], pointerTimestamp, desired, k, found, besti)
        invariant found ==> bestTime == packets[besti].p.timestamp && bestSpan == packets[besti].p.span
      {
        FitThree(packets[..][k], pointerTimestamp, desired);
        BestMore(packets[..], pointerTimestamp, desired, k, found, besti);
        if packets[k].Held? && D(packets[k].p.timestamp, pointerTimestamp + desired) < 0
            && D(packets[k].p.timestamp, pointerTimestamp) >= 0 {
          if !found || D(packets[k].p.timestamp, bestTime) < 0
              || (packets[k].p.timestamp == bestTime && D(packets[k].p.span, bestSpan) > 0) {
            bestTime, bestSpan, besti, found := packets[k].p.timestamp, packets[k].p.span, k, true;
          }
        }
      }
      i := if found then besti else SLOTS;
      LeaderIsPicked(packets[..], pointerTimestamp, desired, found, besti);
    }

    method Search(desired: int) returns (i: nat)
      requires packets.Length == SLOTS
      ensures Chosen(packets[..], pointerTimestamp, desired, i)
    {
      hide Fit, D;
      i := SearchExact(desired);
      if i == SLOTS { i := SearchOlder(desired); }
      if i == SLOTS { i := SearchPartial(desired); }
      if i == SLOTS { i := SearchInside(desired); }
    }

    // ---------- putting ----------

    method EmptyAll()
      requires Valid()
      modifies packets
      ensures Valid() && View() == old(View()).(slots := seq(SLOTS, i => Empty))
    {
      hide Timings.Valid;
      for i := 0 to SLOTS
        invariant Valid() && Windows() == old(Windows()) && arrival[..] == old(arrival[..])
        invariant forall k :: 0 <= k < i ==> packets[k] == Empty
      {
        packets[i] := Empty;
      }
      assert packets[..] == seq(SLOTS, i => Empty);
    }

    // jitter_buffer_reset
    method Reset()
      requires Valid()
      modifies this, packets, timings, timings.Repr()
      ensures Valid() && View() == AfterReset(old(View()))
    {
      hide Timings.Valid, TimingBuffer.Valid;
      hide Valid, View;
      EmptyAll();
      StartOver();
      ForgetTimings();
    }

    method StartOver()
      requires Valid()
      modifies this
      ensures Valid() && View()
              == old(View()).(pointer := 0, next := 0, reset := true, lost := 0, buffered := 0, tradeoff := 32000)
    {
      hide Timings.Valid, Windows;
      pointerTimestamp, nextStop, resetState, lostCount, buffered, autoTradeoff := 0, 0, true, 0, 0, 32000;
    }

    method ForgetTimings()
      requires Valid()
      modifies timings, timings.Repr()
      ensures Valid() && View() == old(View()).(windows := [[], [], []])
    {
      hide Timings.Valid, TimingBuffer.Valid;
      timings.Reset();
      assert Windows() == [[], [], []];
    }

    method Place() returns (i: nat)
      requires packets.Length == SLOTS
      ensures i < SLOTS && i == var free := FreeSlot(packets[..]); if free < SLOTS then free else Oldest(packets[..])
    {
      i := FindFree();
      assert forall k :: 0 <= k < i ==> packets[..][k].Held?;
      if i == SLOTS { i := FindEarliest(); }
    }

    // The packet goes to a free slot, or takes that of the oldest one.
    method Insert(p: Packet, late: bool)
      requires Valid()
      modifies packets, arrival
      ensures Valid() && View() == JitterState.Inserted(old(View()), p, late)
    {
      hide Timings.Valid, Windows;
      var i := Place();
      Store(i, Held(p), if resetState || late then 0 else nextStop);
    }

    method Prepare(p: Packet) returns (late: bool)
      requires Valid()
      modifies this, packets, timings, timings.Repr()
      ensures Valid() && View() == Prepared(old(View()), p) && late == JitterState.Late(old(View()), p)
    {
      hide Timings.Valid, Clean, Timed, D, Clamped, Windows;
      if !resetState { CleanUp(); }
      late := !resetState && D(p.timestamp, nextStop) < 0;
      if late { NoteTiming(Wrap32(p.timestamp - nextStop - cfg.bufferMargin)); }
      if lostCount > 20 { Reset(); }
    }

    // jitter_buffer_put
    method Put(p: Packet)
      requires Valid()
      modifies this, packets, arrival, timings, timings.Repr()
      ensures Valid() && View() == AfterPut(old(View()), p)
    {
      hide Timings.Valid, Prepared, JitterState.Inserted, D, Windows;
      var late := Prepare(p);
      if resetState || D(p.timestamp + p.span + cfg.delayStep, pointerTimestamp) >= 0 {
        Insert(p, late);
      }
    }

    // ---------- adjusting ----------

    // compute_opt_delay
    method ComputeOptDelay() returns (opt: int)
      requires Valid()
      modifies this`autoTradeoff
      ensures Valid() && Optimal(old(View()), opt, View().tradeoff)
              && View() == old(View()).(tradeoff := View().tradeoff)
    {
      hide Timings.Valid, IsOptimal, Optimal;
      ghost var s := View();
      timings.AllReceived();
      var tradeoff;
      ghost var m;
      opt, tradeoff, m := timings.ComputeOptDelay(cfg.delayStep, cfg.latencyTradeoff, autoTradeoff, cfg.windowSize);
      OptimalFrom(s, m, opt, tradeoff);
      autoTradeoff := tradeoff;
    }

    // _jitter_buffer_update_delay
    method UpdateDelay() returns (opt: int)
      requires Valid()
      modifies this, timings, timings.Repr()
      ensures Valid() && Updates(old(View()), View(), opt)
    {
      hide Timings.Valid, Optimal, Windows, ShiftedAll3;
      opt := ComputeOptDelay();
      OptRange(old(View()), opt, autoTradeoff);
      if opt != 0 {
        ShiftTimings(Wrap16(-opt));
        pointerTimestamp := Stamp(pointerTimestamp + opt);
        if opt < 0 { interpRequested := -opt; }
      }
      assert View() == AfterUpdate(old(View()), opt, autoTradeoff);
    }

    // jitter_buffer_update_delay
    method Update() returns (opt: int)
      requires Valid()
      modifies this, timings, timings.Repr()
      ensures Valid() && exists t :: Updates(old(View()), t, opt) && View() == t.(cfg := t.cfg.(autoAdjust := false))
    {
      hide Timings.Valid, Updates, Windows;
      opt := UpdateDelay();
      ghost var t := View();
      cfg := cfg.(autoAdjust := false);
      assert View() == t.(cfg := t.cfg.(autoAdjust := false));
    }

    // jitter_buffer_tick
    method Tick() returns (opt: int)
      requires Valid()
      modifies this, timings, timings.Repr()
      ensures Valid() && Ticks(old(View()), View(), opt)
    {
      hide Timings.Valid, Updates, Windows;
      opt := 0;
      if cfg.autoAdjust { opt := UpdateDelay(); }
      ghost var t := View();
      nextStop := if buffered >= 0 then Stamp(pointerTimestamp - buffered) else pointerTimestamp;
      buffered := 0;
      assert View() == Stopped(t);
    }

    // jitter_buffer_remaining_span
    method RemainingSpan(rem: Time) returns (opt: int)
      requires Valid()
      modifies this, timings, timings.Repr()
      ensures Valid() && Remains(old(View()), rem, View(), opt)
    {
      hide Timings.Valid, Updates, Windows;
      opt := 0;
      if cfg.autoAdjust { opt := UpdateDelay(); }
      ghost var t := View();
      nextStop := Stamp(pointerTimestamp - rem);
      assert View() == t.(next := Stamp(t.pointer - rem));
    }

    // ---------- getting ----------

    // "Syncing on the first call"; nothing happens without a packet.
    method Sync() returns (found: bool)
      requires Valid()
      modifies this
      ensures found <==> !(old(View()).reset && Oldest(old(View()).slots) == -1)
      ensures Valid() && View() == if found then Synced(old(View())) else old(View())
    {
      hide Timings.Valid, Windows, Oldest, D, State.Valid;
      found := true;
      if resetState {
        var oldest;
        found, oldest := FindOldest();
        if !found { return; }
        resetState, pointerTimestamp, nextStop := false, oldest, oldest;
      }
      lastReturnedTimestamp := pointerTimestamp;
    }

    method Interpolate(desired: int) returns (out: Outcome)
      requires Valid()
      modifies this
      ensures Valid() && View() == Interpolated(old(View()), desired)
              && out == Insertion(old(View()).pointer, old(View()).interp)
    {
      hide Timings.Valid, Windows;
      out := Insertion(pointerTimestamp, interpRequested);
      pointerTimestamp := Stamp(pointerTimestamp + interpRequested);
      interpRequested := 0;
      buffered := Wrap32(out.span - desired);
    }

    // The packet in slot i goes out of the buffer, and its timing is noted.
    method TakeOut(i: nat) returns (p: Packet)
      requires Valid() && i < SLOTS && View().slots[i].Held?
      modifies packets, timings, timings.Repr()
      ensures Valid() && p == old(View()).slots[i].p && View() == TakenFrom(old(View()), i)
    {
      hide Timings.Valid, Windows, Wrap32, Timed;
      p := packets[i].p;
      if arrival[i] != 0 { NoteTiming(Wrap32(p.timestamp - arrival[i] - cfg.bufferMargin)); }
      Remove(i);
    }

    method Deliver(i: nat, desired: int, wanted: bool, capacity: nat) returns (out: Outcome)
      requires Valid() && i < SLOTS && View().slots[i].Held?
      modifies this, packets, timings, timings.Repr()
      ensures Valid() && View() == Delivered(old(View()), i, desired, wanted)
      ensures var s := old(View()); out == Got(Fitted(s.slots[i].p, capacity), D(s.slots[i].p.timestamp, s.pointer))
    {
      hide Valid, View, Timings.Valid, D, Wrap32, Timed, Stamp;
      var p := TakeOut(i);
      var offset := MoveBehind(p, desired, wanted);
      out := Got(Fitted(p, capacity), offset);
    }

    // "Point to the end of the current packet"
    method MoveBehind(p: Packet, desired: int, wanted: bool) returns (offset: int)
      requires Valid()
      modifies this
      ensures offset == D(p.timestamp, old(View()).pointer) && Valid()
      ensures View() == old(View()).(lost := 0, last := p.timestamp, pointer := Stamp(p.timestamp + p.span),
                                     buffered := Wrap32(p.span - desired + if wanted then offset else 0))
    {
      hide Timings.Valid, Windows, D, Wrap32, Stamp;
      lostCount, offset := 0, D(p.timestamp, pointerTimestamp);
      lastReturnedTimestamp, pointerTimestamp := p.timestamp, Stamp(p.timestamp + p.span);
      buffered := Wrap32(p.span - desired + if wanted then offset else 0);
    }

    method Conceal(desired: int) returns (out: Outcome, ghost opt: int, ghost tradeoff: int)
      requires Valid()
      modifies this, timings, timings.Repr()
      ensures Valid() && Optimal(old(View()), opt, tradeoff)
      ensures View() == Concealed(old(View()), desired, opt, tradeoff) && out == Concealment(old(View()), desired, opt)
    {
      hide Valid, View, Timings.Valid, Optimal, RoundDown, Stamp, ShiftedAll3, Wrap32, Wrap16;
      var o := ComputeOptDelay();
      opt, tradeoff := o, View().tradeoff;
      if o < 0 {
        ShiftTimings(Wrap16(-o));
        out := LoseNothing(desired, o);
      } else {
        out := Lose(desired);
      }
    }

    method LoseNothing(desired: int, opt: int) returns (out: Outcome)
      requires Valid()
      modifies this`lostCount, this`buffered
      ensures Valid() && View() == old(View()).(lost := old(View()).lost + 1, buffered := Wrap32(-opt - desired))
      ensures out == Insertion(old(View()).pointer, Stamp(-opt))
    {
      hide Timings.Valid, Windows, Wrap32, Stamp;
      lostCount := lostCount + 1;
      out := Insertion(pointerTimestamp, Stamp(-opt));
      buffered := Wrap32(-opt - desired);
    }

    // "Normal packet loss"
    method Lose(desired: int) returns (out: Outcome)
      requires Valid()
      modifies this`lostCount, this`buffered, this`pointerTimestamp
      ensures Valid() && View() == LossOf(old(View()), desired)
      ensures out == Missing(old(View()).pointer, Stamp(RoundDown(desired, old(View()).cfg.concealmentSize)))
    {
      hide Timings.Valid, Windows, Stamp, RoundDown;
      lostCount := lostCount + 1;
      var span := RoundDown(desired, cfg.concealmentSize);
      out := Missing(pointerTimestamp, Stamp(span));
      pointerTimestamp, buffered := Stamp(pointerTimestamp + span), 0;
    }

    // jitter_buffer_get
    method Get(desired: int, wanted: bool, capacity: nat) returns (out: Outcome)
      requires Valid()
      modifies this, packets, timings, timings.Repr()
      ensures Valid() && Gets(old(View()), desired, wanted, capacity, View(), out)
    {
      hide Timings.Valid, Windows, Optimal, Synced, Interpolated, Delivered, Concealed, Concealment, Picked, D,
          NoneFits, Oldest;
      var found := Sync();
      if !found { return Missing(0, interpRequested); }
      assert View() == Synced(old(View()));
      ghost var t := View();
      if interpRequested != 0 {
        out := Interpolate(desired);
        return;
      }
      var i := Search(desired);
      if i != SLOTS {
        PickedHeld(packets[..], pointerTimestamp, desired, i);
        out := Deliver(i, desired, wanted, capacity);
        assert Delivers(t, i, desired, wanted, capacity, View(), out);
      } else {
        ghost var opt, tradeoff;
        out, opt, tradeoff := Conceal(desired);
      }
    }

    // jitter_buffer_get_another
    method GetAnother() returns (out: Outcome)
      requires Valid()
      modifies packets
      ensures Valid() && GetsAnother(old(View()), View(), out)
    {
      hide Timings.Valid, Windows;
      var i := 0;
      while i < SLOTS && !Matches(packets[i], lastReturnedTimestamp)
        invariant i <= SLOTS && forall k :: 0 <= k < i ==> !Matches(packets[k], lastReturnedTimestamp)
      {
        i := i + 1;
      }
      if i == SLOTS { return Missing(0, 0); }
      out := Got(packets[i].p, 0);
      Remove(i);
    }

    // ---------- runs ----------

    method Play(e: Event) returns (r: Result)
      requires Valid()
      modifies this, packets, arrival, timings, timings.Repr()
      ensures Valid() && Step(old(View()), e, r, View())
    {
      hide Valid, View, Gets, GetsAnother, Updates, AfterPut, AfterReset;
      r := Nothing;
      match e
      case Put(p) => { Put(p); }
      case Get(desired, wanted, capacity) => {
        var out := Get(desired, wanted, capacity);
        r := Returned(out);
      }
      case Another => {
        var out := GetAnother();
        r := Returned(out);
      }
      case Update => { var opt := Update(); }
      case Tick => { var opt := Tick(); }
      case Remaining(rem) => { var opt := RemainingSpan(rem); }
      case Reset => { Reset(); }
    }

    // Any calls in any order make a run.
    method PlayAll(events: seq<Event>) returns (results: seq<Result>, ghost moves: seq<Move>)
      requires Valid()
      modifies this, packets, arrival, timings, timings.Repr()
      ensures Valid() && IsRun(old(View()), moves) && View() == Last(old(View()), moves)
      ensures |moves| == |results| == |events|
      ensures forall k :: 0 <= k < |events| ==> moves[k].e == events[k] && moves[k].r == results[k]
    {
      hide Valid, View, Step;
      ghost var start := View();
      results, moves := [], [];
      for i := 0 to |events|
        invariant Valid() && IsRun(start, moves) && View() == Last(start, moves)
        invariant |moves| == |results| == i
        invariant forall k :: 0 <= k < i ==> moves[k].e == events[k] && moves[k].r == results[k]
      {
        var r := Play(events[i]);
        RunMore(start, moves, Move(events[i], r, View()));
        results, moves := results + [r], moves + [Move(events[i], r, View())];
      }
    }
  }

  lemma {:induction false} RunMore(s: State, moves: seq<Move>, m: Move)
    requires s.Valid() && IsRun(s, moves) && Last(s, moves).Valid() && Step(Last(s, moves), m.e, m.r, m.after)
    ensures IsRun(s, moves + [m])
    decreases |moves|
  {
    hide Step;
    if moves == [] {
      StepKeepsValid(s, m.e, m.r, m.after);
      assert (moves + [m])[1..] == [];
    } else {
      StepKeepsValid(s, moves[0].e, moves[0].r, moves[0].after);
      assert (moves + [m])[1..] == moves[1..] + [m];
      assert Last(moves[0].after, moves[1..]) == Last(s, moves);
      RunMore(moves[0].after, moves[1..], m);
    }
  }

  // i is the first slot that suits better than c, and no slot suits better still; the end if there is none.
  predicate FirstBelow(slots: seq<Slot>, pointer: Time, desired: int, c: int, i: nat) {
    && i <= |slots|
    && (forall k :: 0 <= k < i ==> Fit(slots[k], pointer, desired) >= c)
    && (i < |slots| ==> Fit(slots[i], pointer, desired) == c - 1 && forall k :: 0 <= k < |slots| ==>
        Fit(slots[k], pointer, desired) >= c - 1)
  }

  predicate Chosen(slots: seq<Slot>, pointer: Time, desired: int, i: nat) {
    i <= |slots| && if i == |slots| then NoneFits(slots, pointer, desired) else Picked(slots, pointer, desired, i)
  }

  function InitialConfig(stepSize: int): Config {
    Config(stepSize, stepSize, 0, 1000, 333, 0, true)
  }

  function Initial(stepSize: int): State {
    State(seq(SLOTS, i => Empty), seq(SLOTS, i => 0), 0, 0, 0, 0, true, 0, 0, 32000, [[], [], []],
        InitialConfig(stepSize))
  }

  lemma OneTimed(w: seq<seq<int>>, w': seq<seq<int>>, size: int, timing: int)
    requires |w| == |w'| == MAX_BUFFERS
    requires w'[0] == (if |w[0]| >= size then [] else w[0]) + [Clamped(timing)]
    requires w'[1] == (if |w[0]| >= size then w[0] else w[1]) && w'[2] == (if |w[0]| >= size then w[1] else w[2])
    ensures w' == Timed(w, size, timing)
  {
    hide Clamped;
    assert [] + [Clamped(timing)] == [Clamped(timing)];
  }

  lemma OptimalFrom(s: State, m: seq<int>, opt: int, tradeoff: int)
    requires s.Valid()
    requires IsOptimal(AllTimings(s.windows), m, s.cfg.delayStep, s.cfg.latencyTradeoff, s.tradeoff, s.cfg.windowSize,
                       opt, tradeoff)
    ensures Optimal(s, opt, tradeoff)
  {
    hide IsOptimal;
  }

  lemma IsFree(slots: seq<Slot>, i: nat)
    requires i <= |slots| && (forall k :: 0 <= k < i ==> slots[k].Held?) && (i < |slots| ==> slots[i].Empty?)
    ensures i == FreeSlot(slots)
  {
  }

  lemma OldestOfOne(slots: seq<Slot>)
    requires |slots| == 1 && slots[0].Held?
    ensures Oldest(slots) == 0
  {
    assert slots[..0] == [];
  }

  lemma OldestMore(slots: seq<Slot>, n: nat)
    requires n < |slots|
    ensures Oldest(slots[..n + 1]) ==
            var i := Oldest(slots[..n]);
            if slots[n].Held? && (i == -1 || D(slots[n].p.timestamp, slots[i].p.timestamp) < 0) then n else i
  {
    assert slots[..n + 1][..n] == slots[..n];
  }

  // i is the best of the first n slots that start within the chunk, if one was found.
  predicate Best(slots: seq<Slot>, pointer: Time, desired: int, n: nat, found: bool, i: nat) {
    && n <= |slots|
    && if found then i < n && Fit(slots[i], pointer, desired) == 3 && Leads(slots, pointer, desired, n, i)
       else forall k :: 0 <= k < n ==> Fit(slots[k], pointer, desired) != 3
  }

  // Within the chunk, signed distances tell the order.
  lemma Within(a: Packet, b: Packet, pointer: Time)
    requires D(a.timestamp, pointer) >= 0 && D(b.timestamp, pointer) >= 0
    ensures D(a.timestamp, b.timestamp) == D(a.timestamp, pointer) - D(b.timestamp, pointer)
    ensures a.timestamp == b.timestamp <==> D(a.timestamp, pointer) == D(b.timestamp, pointer)
    ensures a.span < 0x8000_0000 && b.span < 0x8000_0000 ==> D(a.span, b.span) == a.span - b.span
  {
  }

  // k starts before i, or at the same time and is longer.
  predicate Better(slots: seq<Slot>, k: nat, found: bool, i: nat)
    requires k < |slots| && slots[k].Held? && (found ==> i < |slots| && slots[i].Held?)
  {
    !found || D(slots[k].p.timestamp, slots[i].p.timestamp) < 0
        || (slots[k].p.timestamp == slots[i].p.timestamp && D(slots[k].p.span, slots[i].p.span) > 0)
  }

  lemma FitThree(x: Slot, pointer: Time, desired: int)
    requires Fit(x, pointer, desired) >= 3
    ensures Fit(x, pointer, desired) == 3 <==>
            x.Held? && D(x.p.timestamp, pointer + desired) < 0 && D(x.p.timestamp, pointer) >= 0
  {
  }

  lemma BestMore(slots: seq<Slot>, pointer: Time, desired: int, n: nat, found: bool, i: nat)
    requires n < |slots| && Best(slots, pointer, desired, n, found, i) && Fit(slots[n], pointer, desired) >= 3
    ensures if Fit(slots[n], pointer, desired) == 3 && Better(slots, n, found, i) then
            Best(slots, pointer, desired, n + 1, true, n)
            else Best(slots, pointer, desired, n + 1, found, i)
  {
    if Fit(slots[n], pointer, desired) == 3 && found {
      FitThree(slots[n], pointer, desired);
      FitThree(slots[i], pointer, desired);
      Within(slots[n].p, slots[i].p, pointer);
    }
    hide D, Fit;
  }

  lemma LeaderIsPicked(slots: seq<Slot>, pointer: Time, desired: int, found: bool, i: nat)
    requires Best(slots, pointer, desired, |slots|, found, i) && FirstBelow(slots, pointer, desired, 3, |slots|)
    ensures Chosen(slots, pointer, desired, if found then i else |slots|)
  {
    hide D;
  }
}
