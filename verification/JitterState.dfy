/** The jitter buffer as a state machine over wrapping timestamps (jitter.c). */
module JitterState {
  import opened Fixed
  import opened SmallestLists
  import opened JitterCost
  import opened JitterTimings

  const SLOTS := 200

  // spx_uint32_t
  type Time = x: int | 0 <= x < 0x1_0000_0000

  function Stamp(x: int): Time { x % 0x1_0000_0000 }

  // The signed distance from b to a, as GT32, GE32, LT32 and LE32 take it.
  function D(a: int, b: int): int { Wrap32(a - b) }

  datatype Packet = Packet(data: seq<int>, timestamp: Time, span: Time, sequence: int, userData: int)

  datatype Slot = Empty | Held(p: Packet)

  datatype Config = Config(delayStep: int, concealmentSize: int, bufferMargin: int, windowSize: int, subwindowSize: int,
                           latencyTradeoff: int, autoAdjust: bool)

  datatype State = State(slots: seq<Slot>, arrival: seq<Time>, pointer: Time, last: Time, next: Time, buffered: int,
                         reset: bool, interp: int, lost: int, tradeoff: int, windows: seq<seq<int>>, cfg: Config)
  {
    predicate Valid() {
      |slots| == |arrival| == SLOTS && |windows| == MAX_BUFFERS && cfg.delayStep > 0 && cfg.concealmentSize > 0
          && 0 <= interp <= 0x8000
    }
  }

  datatype Outcome = Got(p: Packet, offset: int) | Missing(timestamp: Time, span: Time) | Insertion(timestamp: Time,
      span: Time)

  // ---------- timing statistics ----------

  function Timed(windows: seq<seq<int>>, subwindowSize: int, timing: int): seq<seq<int>>
    requires |windows| == MAX_BUFFERS
  {
    if |windows[0]| >= subwindowSize then [[Clamped(timing)], windows[0], windows[1]]
    else [windows[0] + [Clamped(timing)], windows[1], windows[2]]
  }

  function ShiftedAll3(windows: seq<seq<int>>, amount: int): seq<seq<int>>
    requires |windows| == MAX_BUFFERS
  {
    [Shifted(windows[0], amount), Shifted(windows[1], amount), Shifted(windows[2], amount)]
  }

  ghost function AllTimings(windows: seq<seq<int>>): multiset<int>
    requires |windows| == MAX_BUFFERS
  {
    multiset(windows[0]) + multiset(windows[1]) + multiset(windows[2])
  }

  // opt and tradeoff are what compute_opt_delay finds.
  ghost predicate Optimal(s: State, opt: int, tradeoff: int)
    requires s.Valid()
  {
    exists m :: IsOptimal(AllTimings(s.windows), m, s.cfg.delayStep, s.cfg.latencyTradeoff, s.tradeoff,
        s.cfg.windowSize, opt, tradeoff)
  }

  // ---------- slots ----------

  // The first free slot, or the number of slots.
  function FreeSlot(slots: seq<Slot>): (i: nat)
    ensures i <= |slots| && (forall k :: 0 <= k < i ==> slots[k].Held?) && (i < |slots| ==> slots[i].Empty?)
  {
    if slots == [] || slots[0].Empty? then 0 else 1 + FreeSlot(slots[1..])
  }

  // The packet with the earliest timestamp, as a running comparison finds it; -1 if there is none.
  function Oldest(slots: seq<Slot>): (i: int)
    ensures -1 <= i < |slots| && (i >= 0 ==> slots[i].Held?)
            && (i == -1 <==> forall k :: 0 <= k < |slots| ==> slots[k].Empty?)
  {
    if slots == [] then -1 else
      var n := |slots| - 1;
      var i := Oldest(slots[..n]);
      assert forall k :: 0 <= k < n ==> slots[k] == slots[..n][k];
      if slots[n].Held? && (i == -1 || D(slots[n].p.timestamp, slots[i].p.timestamp) < 0) then n else i
  }

  predicate Played(x: Slot, pointer: Time) { x.Held? && D(x.p.timestamp + x.p.span, pointer) <= 0 }

  function Clean(slots: seq<Slot>, pointer: Time): (r: seq<Slot>)
    ensures |r| == |slots|
  {
    seq(|slots|, i requires 0 <= i < |slots| => if Played(slots[i], pointer) then Empty else slots[i])
  }

  // How well a slot suits the chunk of the given length at the pointer: it starts there and spans
  // the chunk; it is older and spans the chunk; it is older and spans the beginning; it starts
  // within the chunk; not at all.
  function Fit(x: Slot, pointer: Time, desired: int): (c: int)
    ensures 0 <= c <= 4
  {
    if x.Empty? then 4
    else if x.p.timestamp == pointer && D(x.p.timestamp + x.p.span, pointer + desired) >= 0 then 0
    else if D(x.p.timestamp, pointer) <= 0 && D(x.p.timestamp + x.p.span, pointer + desired) >= 0 then 1
    else if D(x.p.timestamp, pointer) <= 0 && D(x.p.timestamp + x.p.span, pointer) > 0 then 2
    else if D(x.p.timestamp, pointer + desired) < 0 && D(x.p.timestamp, pointer) >= 0 then 3
    else 4
  }

  predicate ShortSpans(slots: seq<Slot>) { forall k :: 0 <= k < |slots| && slots[k].Held? ==>
                       slots[k].p.span < 0x8000_0000 }

  // Among the first n packets that start within the chunk, i starts first and lasts longest.
  predicate Leads(slots: seq<Slot>, pointer: Time, desired: int, n: nat, i: nat)
    requires i < |slots| && slots[i].Held? && n <= |slots|
  {
    forall k :: 0 <= k < n && Fit(slots[k], pointer, desired) == 3 ==>
      && D(slots[i].p.timestamp, pointer) <= D(slots[k].p.timestamp, pointer)
      && (D(slots[i].p.timestamp, pointer) == D(slots[k].p.timestamp, pointer) && ShortSpans(slots) ==>
          slots[k].p.span <= slots[i].p.span)
  }

  // i suits best: the first one of its class, or the one to start first and last longest.
  predicate Picked(slots: seq<Slot>, pointer: Time, desired: int, i: nat) {
    && i < |slots| && Fit(slots[i], pointer, desired) < 4
    && (forall k :: 0 <= k < |slots| ==> Fit(slots[i], pointer, desired) <= Fit(slots[k], pointer, desired))
    && if Fit(slots[i], pointer, desired) == 3 then Leads(slots, pointer, desired, |slots|, i)
       else forall k :: 0 <= k < i ==> Fit(slots[i], pointer, desired) < Fit(slots[k], pointer, desired)
  }

  predicate NoneFits(slots: seq<Slot>, pointer: Time, desired: int) {
    forall k :: 0 <= k < |slots| ==> Fit(slots[k], pointer, desired) == 4
  }

  // ---------- operations ----------

  // jitter_buffer_reset. A requested interpolation stays.
  function AfterReset(s: State): State
    requires s.Valid()
  {
    s.(slots := seq(SLOTS, i => Empty), pointer := 0, next := 0, reset := true, lost := 0, buffered := 0,
        tradeoff := 32000,
       windows := [[], [], []])
  }

  function Inserted(s: State, p: Packet, late: bool): State
    requires s.Valid()
  {
    var free := FreeSlot(s.slots);
    var i := if free < SLOTS then free else Oldest(s.slots);
    s.(slots := s.slots[i := Held(p)], arrival := s.arrival[i := if s.reset || late then 0 else s.next])
  }

  // What jitter_buffer_put does before it comes to the slots.
  function Prepared(s: State, p: Packet): State
    requires s.Valid()
  {
    var a := if s.reset then s else s.(slots := Clean(s.slots, s.pointer));
    var b := if Late(s, p) then
        a.(windows := Timed(a.windows, s.cfg.subwindowSize, Wrap32(p.timestamp - s.next - s.cfg.bufferMargin))) else a;
    if s.lost > 20 then AfterReset(b) else b
  }

  predicate Late(s: State, p: Packet) { !s.reset && D(p.timestamp, s.next) < 0 }

  // Not hopelessly late.
  predicate Useful(s: State, p: Packet) { s.reset || D(p.timestamp + p.span + s.cfg.delayStep, s.pointer) >= 0 }

  // jitter_buffer_put
  function AfterPut(s: State, p: Packet): State
    requires s.Valid()
  {
    var t := Prepared(s, p);
    if Useful(t, p) then Inserted(t, p, Late(s, p)) else t
  }

  // The first jitter_buffer_get sets the pointer.
  function Synced(s: State): State
    requires s.reset ==> Oldest(s.slots) != -1
  {
    if s.reset then
      var oldest := s.slots[Oldest(s.slots)].p.timestamp;
      s.(reset := false, pointer := oldest, next := oldest, last := oldest)
    else s.(last := s.pointer)
  }

  function Interpolated(s: State, desired: int): State {
    s.(pointer := Stamp(s.pointer + s.interp), interp := 0, buffered := Wrap32(s.interp - desired))
  }

  // A stored packet goes out, and its timing is noted unless it came late.
  function TakenFrom(s: State, i: nat): State
    requires s.Valid() && i < SLOTS && s.slots[i].Held?
  {
    var timing := Wrap32(s.slots[i].p.timestamp - s.arrival[i] - s.cfg.bufferMargin);
    s.(windows := if s.arrival[i] == 0 then s.windows else Timed(s.windows, s.cfg.subwindowSize, timing),
       slots := s.slots[i := Empty])
  }

  function Delivered(s: State, i: nat, desired: int, wanted: bool): State
    requires s.Valid() && i < SLOTS && s.slots[i].Held?
  {
    var p := s.slots[i].p;
    var offset := if wanted then D(p.timestamp, s.pointer) else 0;
    TakenFrom(s, i).(lost := 0, last := p.timestamp, pointer := Stamp(p.timestamp + p.span),
        buffered := Wrap32(p.span - desired + offset))
  }

  // A loss of whole concealment units.
  function LossOf(s: State, desired: int): State
    requires s.Valid()
  {
    s.(lost := s.lost + 1, pointer := Stamp(s.pointer + RoundDown(desired, s.cfg.concealmentSize)), buffered := 0)
  }

  // Nothing to return: an interpolation, or a loss.
  function Concealed(s: State, desired: int, opt: int, tradeoff: int): State
    requires s.Valid()
  {
    var t := s.(tradeoff := tradeoff);
    if opt < 0 then t.(lost := s.lost + 1, windows := ShiftedAll3(s.windows, Wrap16(-opt)),
        buffered := Wrap32(-opt - desired))
    else LossOf(t, desired)
  }

  function Concealment(s: State, desired: int, opt: int): Outcome
    requires s.Valid()
  {
    if opt < 0 then Insertion(s.pointer, Stamp(-opt))
        else Missing(s.pointer, Stamp(RoundDown(desired, s.cfg.concealmentSize)))
  }

  // jitter_buffer_get, with room for capacity bytes and a start offset if wanted.
  ghost predicate Gets(s: State, desired: int, wanted: bool, capacity: nat, s': State, out: Outcome)
    requires s.Valid()
  {
    if s.reset && Oldest(s.slots) == -1 then s' == s && out == Missing(0, s.interp)
    else
      var t := Synced(s);
      if t.interp != 0 then s' == Interpolated(t, desired) && out == Insertion(t.pointer, t.interp)
      else if NoneFits(t.slots, t.pointer, desired) then
        exists opt, tradeoff :: Optimal(t, opt, tradeoff) && s' == Concealed(t, desired, opt, tradeoff)
            && out == Concealment(t, desired, opt)
      else exists i: nat :: i < SLOTS && Delivers(t, i, desired, wanted, capacity, s', out)
  }

  ghost predicate Delivers(t: State, i: nat, desired: int, wanted: bool, capacity: nat, s': State, out: Outcome)
    requires t.Valid() && i < SLOTS
  {
    && Picked(t.slots, t.pointer, desired, i) && s' == Delivered(t, i, desired, wanted)
    && out == Got(Fitted(t.slots[i].p, capacity), D(t.slots[i].p.timestamp, t.pointer))
  }

  // A packet that is too large is cut.
  function Fitted(p: Packet, capacity: nat): Packet { if |p.data| > capacity then p.(data := p.data[..capacity])
                  else p }

  // jitter_buffer_get_another
  predicate GetsAnother(s: State, s': State, out: Outcome) {
    if forall k :: 0 <= k < |s.slots| ==> !Matches(s.slots[k], s.last) then s' == s && out == Missing(0, 0)
    else exists i: nat ::
        && i < |s.slots| && Matches(s.slots[i], s.last)
        && (forall k :: 0 <= k < i ==> !Matches(s.slots[k], s.last))
        && s' == s.(slots := s.slots[i := Empty]) && out == Got(s.slots[i].p, 0)
  }

  predicate Matches(x: Slot, timestamp: Time) { x.Held? && x.p.timestamp == timestamp }

  // _jitter_buffer_update_delay
  function AfterUpdate(s: State, opt: int, tradeoff: int): State
    requires s.Valid()
  {
    var t := s.(tradeoff := tradeoff);
    if opt == 0 then t
    else
      var u := t.(windows := ShiftedAll3(s.windows, Wrap16(-opt)), pointer := Stamp(s.pointer + opt));
      if opt < 0 then u.(interp := -opt) else u
  }

  ghost predicate Updates(s: State, s': State, opt: int)
    requires s.Valid()
  {
    exists tradeoff :: Optimal(s, opt, tradeoff) && s' == AfterUpdate(s, opt, tradeoff)
  }

  // The end of jitter_buffer_tick: what the application still has is not due yet.
  function Stopped(s: State): State {
    s.(next := if s.buffered >= 0 then Stamp(s.pointer - s.buffered) else s.pointer, buffered := 0)
  }

  ghost predicate Ticks(s: State, s': State, opt: int)
    requires s.Valid()
  {
    if s.cfg.autoAdjust then exists t :: Updates(s, t, opt) && s' == Stopped(t) else opt == 0 && s' == Stopped(s)
  }

  // jitter_buffer_remaining_span
  ghost predicate Remains(s: State, rem: Time, s': State, opt: int)
    requires s.Valid()
  {
    if s.cfg.autoAdjust then exists t :: Updates(s, t, opt) && s' == t.(next := Stamp(t.pointer - rem))
    else opt == 0 && s' == s.(next := Stamp(s.pointer - rem))
  }
}
