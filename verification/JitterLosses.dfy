/** Inputs on which the jitter buffer breaks a promise: two adjustments without a get in between, and a
    reset while an interpolation is requested. */
module JitterLosses {
  import opened Fixed
  import opened SmallestLists
  import opened JitterMerge
  import opened JitterCost
  import opened JitterTimings
  import opened JitterState
  import opened JitterDelivery
  import opened JitterRun
  import opened JitterBuffers

  // ---------- two adjustments ----------

  // The buffer has been created with a step of 20 and has played until everything was returned on time.
  ghost predicate Quiet(s: State) {
    && s.Valid() && !s.reset && s.interp == 0 && s.next == s.pointer && s.buffered == 0 && s.lost <= 20
    && s.windows == [[], [], []] && s.tradeoff == 32000 && s.cfg == InitialConfig(20)
  }

  // A packet that comes so late that it is of no use, but whose timing is noted.
  function LatePacket(at: int): Packet { Packet([], Stamp(at), 20, 0, 0) }

  function AfterLate(s: State, back: int): State
    requires s.Valid()
  {
    s.(slots := Clean(s.slots, s.pointer), windows := [s.windows[0] + [-back], s.windows[1], s.windows[2]])
  }

  lemma LatePut(s: State, back: int)
    requires s.Valid() && !s.reset && s.next == s.pointer && s.lost <= 20 && s.cfg == InitialConfig(20)
    requires 60 <= back <= 1000 && |s.windows[0]| < 333
    ensures AfterPut(s, LatePacket(s.pointer - back)) == AfterLate(s, back) && AfterLate(s, back).Valid()
  {
    hide D, Stamp, Clean, Wrap32, JitterState.Inserted;
    var p := LatePacket(s.pointer - back);
    Distance(s.pointer, -back, 0);
    Distance(s.pointer, -back, 40);
    assert Wrap32(p.timestamp - s.next - 0) == -back;
    assert JitterState.Late(s, p);
    assert Timed(s.windows, 333, -back) == AfterLate(s, back).windows;
    assert Prepared(s, p) == AfterLate(s, back);
    assert !Useful(AfterLate(s, back), p);
  }

  lemma Distance(a: Time, b: int, c: int)
    requires -1000 <= b <= 0 && 0 <= c <= 100
    ensures D(Stamp(a + b) + c, a) == b + c && Wrap32(Stamp(a + b) - a) == b
  {
    assert Stamp(a + b) == a + b || Stamp(a + b) == a + b + 0x1_0000_0000;
  }

  // The state after an adjustment by a negative delay.
  function Moved(s: State, back: int, tradeoff: int): State
    requires s.Valid()
  {
    Stopped(AfterUpdate(s, -back, tradeoff))
  }

  lemma EarlierTick(s: State, back: int, tradeoff: int)
    requires s.Valid() && s.cfg.autoAdjust && s.buffered == 0 && 0 < back <= 1000 && Optimal(s, -back, tradeoff)
    ensures Step(s, Tick, Nothing, Moved(s, back, tradeoff)) && Moved(s, back, tradeoff).Valid()
    ensures var s' := Moved(s, back, tradeoff);
            && s' == s.(tradeoff := tradeoff, windows := ShiftedAll3(s.windows, back), interp := back,
                        pointer := Stamp(s.pointer - back), next := Stamp(s.pointer - back))
            && Progress(s, s') == -s.interp
  {
    hide Optimal, Shifted, D, Wrap32;
    Distance(s.pointer, -back, 0);
    assert Updates(s, AfterUpdate(s, -back, tradeoff), -back);
    assert Ticks(s, Moved(s, back, tradeoff), -back);
  }

  // One timing of -100.
  lemma FirstDelay(s: State)
    requires s.Valid() && s.windows == [[-100], [], []] && s.tradeoff == 32000 && s.cfg == InitialConfig(20)
    ensures Optimal(s, -100, 1)
  {
    var m, factor := [-100], LateFactor(0, 32000, 1000, 1);
    assert AllTimings(s.windows) == multiset(m);
    NoneLate(m, factor);
    assert First(m, 20, factor, 0, 100);
    assert IsBest(m, 20, factor, RoundDown(-100, 20), 100);
    assert RoundDown(-100, 20) == -100;
    assert IsCandidates(m, AllTimings(s.windows));
    assert IsOptimal(AllTimings(s.windows), m, 20, 0, 32000, 1000, -100, 1);
  }

  // And then timings of 0 and -200.
  lemma SecondDelay(s: State)
    requires s.Valid() && s.windows == [[0, -200], [], []] && s.tradeoff == 1 && s.cfg == InitialConfig(20)
    ensures Optimal(s, -200, 6)
  {
    var m, factor := [-200, 0], LateFactor(0, 1, 1000, 2);
    assert AllTimings(s.windows) == multiset(m);
    NoneLate(m, factor);
    assert Cost(m, 20, factor, 1) == 500 by { OneLate(m, factor); }
    assert First(m, 20, factor, 0, 200);
    assert RoundDown(-200, 20) == -200;
    assert IsBest(m, 20, factor, -200, 200);
    assert IsCandidates(m, AllTimings(s.windows));
    assert IsOptimal(AllTimings(s.windows), m, 20, 0, 1, 1000, -200, 6);
  }

  lemma NoneLate(m: seq<int>, factor: real)
    requires |m| > 0 && m[0] <= 0 && m[0] % 20 == 0
    ensures Cost(m, 20, factor, 0) == -m[0]
  {
    assert RoundDown(m[0], 20) == m[0];
    assert JitterCost.Late(m, 0) == 0 && factor * 0 as real == 0.0;
  }

  lemma OneLate(m: seq<int>, factor: real)
    requires m == [-200, 0] && factor == LateFactor(0, 1, 1000, 2)
    ensures Cost(m, 20, factor, 1) == 500
  {
    assert factor == 500.0 && JitterCost.Late(m, 1) == 1 && RoundDown(0, 20) == 0;
  }

  // From any quiet state two late packets, each followed by a tick, move time back by 100: the second
  // adjustment overwrites the interpolation that the first one requested.
  lemma TwoTicksLose(s: State) returns (moves: seq<Move>)
    requires Quiet(s)
    ensures IsRun(s, moves) && |moves| == 4 && Total(s, moves) == -100
    ensures moves[0].e == Put(LatePacket(s.pointer - 100)) && moves[1].e == Tick
    ensures moves[2].e == Put(LatePacket(s.pointer - 300)) && moves[3].e == Tick
  {
    hide Optimal, D, Stamp, Clean, Shifted, Step, Progress, AfterPut;
    var a := AfterLate(s, 100);
    LatePut(s, 100);
    assert s.windows[0] + [-100] == [-100];
    assert a.windows == [[-100], [], []];
    FirstDelay(a);
    EarlierTick(a, 100, 1);
    var b := Moved(a, 100, 1);
    OneShifted();
    LatePut(b, 200);
    StampTwice(s.pointer, 100, 200);
    var c := AfterLate(b, 200);
    assert b.windows[0] + [-200] == [0, -200];
    assert c.windows == [[0, -200], [], []];
    SecondDelay(c);
    EarlierTick(c, 200, 6);
    var d := Moved(c, 200, 6);
    PutsMoveNothing(s, a);
    PutsMoveNothing(b, c);
    PutSteps(s, LatePacket(s.pointer - 100));
    PutSteps(b, LatePacket(b.pointer - 200));
    moves := [Move(Put(LatePacket(s.pointer - 100)), Nothing, a), Move(Tick, Nothing, b),
              Move(Put(LatePacket(s.pointer - 300)), Nothing, c), Move(Tick, Nothing, d)];
    FourSteps(s, moves);
  }

  lemma PutSteps(s: State, p: Packet)
    requires s.Valid()
    ensures Step(s, Put(p), Nothing, AfterPut(s, p))
  {
    hide AfterPut;
  }

  lemma PutsMoveNothing(s: State, t: State)
    requires s.pointer == t.pointer && s.interp == t.interp
    ensures Progress(s, t) == 0
  {
    NoDistance(s.pointer);
    hide D;
  }

  lemma OneShifted()
    ensures Shifted([-100], 100) == [0] && Shifted([], 100) == []
  {
  }

  lemma StampTwice(a: Time, b: int, c: int)
    ensures Stamp(Stamp(a - b) - c) == Stamp(a - (b + c))
  {
  }

  lemma RunOfNone(s: State)
    requires s.Valid()
    ensures IsRun(s, []) && Total(s, []) == 0
  {
  }

  lemma RunOfMore(s: State, m: Move, moves: seq<Move>)
    requires s.Valid() && Step(s, m.e, m.r, m.after) && m.after.Valid() && IsRun(m.after, moves)
    ensures IsRun(s, [m] + moves) && Total(s, [m] + moves) == Progress(s, m.after) + Total(m.after, moves)
  {
    hide Step, Progress;
    assert ([m] + moves)[1..] == moves;
  }

  lemma FourSteps(s: State, moves: seq<Move>)
    requires s.Valid() && |moves| == 4
    requires Step(s, moves[0].e, moves[0].r, moves[0].after) && moves[0].after.Valid()
    requires Step(moves[0].after, moves[1].e, moves[1].r, moves[1].after) && moves[1].after.Valid()
    requires Step(moves[1].after, moves[2].e, moves[2].r, moves[2].after) && moves[2].after.Valid()
    requires Step(moves[2].after, moves[3].e, moves[3].r, moves[3].after) && moves[3].after.Valid()
    ensures IsRun(s, moves)
    ensures Total(s, moves) == Progress(s, moves[0].after) + Progress(moves[0].after, moves[1].after)
                             + Progress(moves[1].after, moves[2].after) + Progress(moves[2].after, moves[3].after)
  {
    hide Step, Progress, IsRun, Total;
    assert [moves[2]] + [moves[3]] == [moves[2], moves[3]] && [moves[3]] + [] == [moves[3]];
    assert [moves[1]] + [moves[2], moves[3]] == [moves[1], moves[2], moves[3]];
    assert [moves[0]] + [moves[1], moves[2], moves[3]] == moves;
    RunOfNone(moves[3].after);
    RunOfMore(moves[2].after, moves[3], []);
    RunOfMore(moves[1].after, moves[2], [moves[3]]);
    RunOfMore(moves[0].after, moves[1], [moves[2], moves[3]]);
    RunOfMore(s, moves[0], [moves[1], moves[2], moves[3]]);
  }

  // A quiet state is what one packet leaves behind that is put, returned and played.
  lemma QuietIsReached(p: Packet) returns (moves: seq<Move>)
    requires p.span == 20
    ensures IsRun(Initial(20), moves) && |moves| == 3 && Quiet(Last(Initial(20), moves))
    ensures moves[0].e == Put(p) && moves[1].e == Get(20, false, |p.data|) && moves[2].e == Tick
  {
    hide Step, IsRun, Total, AfterPut, Synced, JitterState.Delivered, Stopped;
    var s := Initial(20);
    FirstPut(s, p);
    var a := AfterPut(s, p);
    OnlySlot(a.slots, p);
    FirstFits(a.slots, p, 20);
    var b := Played(a, p);
    var c := NoTimings(b);
    PutSteps(s, p);
    RunOfNone(c);
    var l2 := [Move(Tick, Nothing, c)];
    assert l2 + [] == l2;
    RunOfMore(b, l2[0], []);
    var l1 := [Move(Get(20, false, |p.data|), Returned(Got(p, 0)), b)];
    RunOfMore(a, l1[0], l2);
    RunOfMore(s, Move(Put(p), Nothing, a), l1 + l2);
    moves := [Move(Put(p), Nothing, a)] + (l1 + l2);
  }

  lemma Played(a: State, p: Packet) returns (b: State)
    requires a.Valid() && a.reset && a.interp == 0 && Oldest(a.slots) == 0 && a.slots[0] == Held(p)
    requires p.span == 20 && a.arrival[0] == 0
    requires Picked(a.slots, p.timestamp, 20, 0) && !NoneFits(a.slots, p.timestamp, 20)
    ensures Step(a, Get(20, false, |p.data|), Returned(Got(p, 0)), b) && b.Valid()
    ensures !b.reset && b.interp == 0 && b.buffered == 0 && b.lost == 0
    ensures b.windows == a.windows && b.tradeoff == a.tradeoff && b.cfg == a.cfg
  {
    hide Picked, NoneFits, Oldest, Optimal;
    var t := Synced(a);
    b := JitterState.Delivered(t, 0, 20, false);
    NoDistance(p.timestamp);
    assert Delivers(t, 0, 20, false, |p.data|, b, Got(p, 0));
  }

  lemma NoTimings(s: State) returns (s': State)
    requires s.Valid() && !s.reset && s.interp == 0 && s.buffered == 0 && s.lost == 0
    requires s.windows == [[], [], []] && s.tradeoff == 32000 && s.cfg == InitialConfig(20)
    ensures Step(s, Tick, Nothing, s') && Quiet(s')
  {
    assert |AllTimings(s.windows)| == 0;
    assert IsOptimal(AllTimings(s.windows), [], 20, 0, 32000, 1000, 0, 32000);
    assert Optimal(s, 0, 32000);
    hide Optimal;
    assert Updates(s, AfterUpdate(s, 0, 32000), 0);
    s' := Stopped(s);
    assert Ticks(s, s', 0);
  }

  // ---------- a packet in an empty buffer ----------

  lemma FirstPut(s: State, p: Packet)
    requires s.Valid() && s.reset && s.lost == 0 && s.slots == seq(SLOTS, i => Empty)
    ensures AfterPut(s, p) == s.(slots := s.slots[0 := Held(p)], arrival := s.arrival[0 := 0])
    ensures AfterPut(s, p).Valid()
  {
    assert FreeSlot(s.slots) == 0;
  }

  lemma {:induction false} OnlySlot(slots: seq<Slot>, p: Packet)
    requires slots != [] && slots[0] == Held(p) && forall k :: 0 < k < |slots| ==> slots[k].Empty?
    ensures Oldest(slots) == 0
  {
    var n := |slots| - 1;
    if n == 0 {
      OldestOfOne(slots);
    } else {
      OnlySlot(slots[..n], p);
      OldestMore(slots, n);
      assert slots[..n + 1] == slots;
    }
  }

  lemma FirstFits(slots: seq<Slot>, p: Packet, desired: int)
    requires slots != [] && slots[0] == Held(p) && forall k :: 0 < k < |slots| ==> slots[k].Empty?
    requires 0 < p.span < 0x8000_0000 && 0 < desired < 0x8000_0000
    ensures Picked(slots, p.timestamp, desired, 0) && !NoneFits(slots, p.timestamp, desired)
  {
    NoDistance(p.timestamp);
    Distances(slots[0], p.timestamp, desired);
    hide D;
    assert Fit(slots[0], p.timestamp, desired) < 3;
  }

  // ---------- a reset ----------

  // But for that, a reset makes the buffer what it was in the beginning; the settings stay, and what is left
  // of arrivals and of the last timestamp is not looked at before it is set again.
  lemma ResetIsInitial(s: State, stepSize: int)
    requires s.Valid()
    ensures var r, i := AfterReset(s), Initial(stepSize);
            r.(interp := i.interp, cfg := i.cfg, arrival := i.arrival, last := i.last) == i
    ensures var r := AfterReset(s); r.interp == s.interp && r.cfg == s.cfg
  {
  }

  // A reset leaves a requested interpolation standing, so that the first get after it returns the
  // first packet exactly when none was requested, and otherwise the interpolation.
  lemma ResetKeepsRequest(s: State, p: Packet, desired: int, wanted: bool, capacity: nat, s': State, out: Outcome)
    requires s.Valid() && 0 < p.span < 0x8000_0000 && 0 < desired < 0x8000_0000
    requires Gets(AfterPut(AfterReset(s), p), desired, wanted, capacity, s', out)
    ensures out.Got? <==> s.interp == 0
    ensures out == if s.interp == 0 then Got(Fitted(p, capacity), 0) else Insertion(p.timestamp, s.interp)
  {
    var r := AfterReset(s);
    var t := AfterPut(r, p);
    FirstPut(r, p);
    OnlySlot(t.slots, p);
    FirstFits(t.slots, p, desired);
    NoDistance(p.timestamp);
    hide AfterPut, D, NoneFits, Optimal, Oldest;
    if s.interp == 0 {
      var i: nat :| i < SLOTS && Delivers(Synced(t), i, desired, wanted, capacity, s', out);
      assert Fit(t.slots[i], p.timestamp, desired) < 4;
    }
  }
}
