/** What the jitter buffer promises: which packets it returns, that none is returned twice, and that
    time does not go back. */
module JitterDelivery {
  import opened Fixed
  import opened SmallestLists
  import opened JitterCost
  import opened JitterTimings
  import opened JitterState

  // ---------- which packets are returned ----------

  // The packet is near enough to the pointer for signed distances to tell its place.
  predicate Live(x: Slot, pointer: Time, desired: int) {
    x.Held? ==>
      var o := D(x.p.timestamp, pointer);
      o >= desired - 0x8000_0000 && o + x.p.span < 0x8000_0000 && x.p.span > 0
  }

  predicate AllLive(slots: seq<Slot>, pointer: Time, desired: int) {
    0 < desired < 0x8000_0000 && forall k :: 0 <= k < |slots| ==> Live(slots[k], pointer, desired)
  }

  // The packet and the chunk of the given length at the pointer have something in common.
  predicate Overlaps(x: Slot, pointer: Time, desired: int) {
    x.Held? && D(x.p.timestamp, pointer) < desired && D(x.p.timestamp, pointer) + x.p.span > 0
  }

  predicate Covers(x: Slot, pointer: Time, desired: int) {
    x.Held? && D(x.p.timestamp, pointer) <= 0 && D(x.p.timestamp, pointer) + x.p.span >= desired
  }

  lemma WrapShift(x: int, k: int)
    requires -0x8000_0000 <= Wrap32(x) + k < 0x8000_0000
    ensures Wrap32(x + k) == Wrap32(x) + k
  {
  }

  // Signed distances are exact for live packets.
  lemma Distances(x: Slot, pointer: Time, desired: int)
    requires x.Held? && Live(x, pointer, desired) && 0 < desired
    ensures D(x.p.timestamp + x.p.span, pointer) == D(x.p.timestamp, pointer) + x.p.span
    ensures D(x.p.timestamp + x.p.span, pointer + desired) == D(x.p.timestamp, pointer) + x.p.span - desired
    ensures D(x.p.timestamp, pointer + desired) == D(x.p.timestamp, pointer) - desired
  {
    var o := x.p.timestamp - pointer;
    WrapShift(o, x.p.span);
    WrapShift(o, x.p.span - desired);
    WrapShift(o, -desired);
    hide Wrap32;
  }

  lemma NoDistance(a: int)
    ensures D(a, a) == 0
  {
  }

  lemma FitsIfOverlaps(x: Slot, pointer: Time, desired: int)
    requires Live(x, pointer, desired) && 0 < desired
    ensures Fit(x, pointer, desired) < 4 <==> Overlaps(x, pointer, desired)
    ensures Fit(x, pointer, desired) < 2 <==> Covers(x, pointer, desired)
    ensures Fit(x, pointer, desired) < 3 ==> D(x.p.timestamp, pointer) <= 0
    ensures Fit(x, pointer, desired) < 4 ==> x.Held? && D(x.p.timestamp + x.p.span, pointer) > 0
  {
    if x.Held? {
      Distances(x, pointer, desired);
      NoDistance(pointer);
      hide D;
    }
  }

  // A get returns a packet exactly when some stored packet overlaps the chunk.
  lemma OkIffOverlap(s: State, desired: int, wanted: bool, capacity: nat, s': State, out: Outcome)
    requires s.Valid() && !s.reset && s.interp == 0 && AllLive(s.slots, s.pointer, desired)
    requires Gets(s, desired, wanted, capacity, s', out)
    ensures out.Got? <==> exists k :: 0 <= k < SLOTS && Overlaps(s.slots[k], s.pointer, desired)
  {
    forall k | 0 <= k < SLOTS ensures Fit(s.slots[k], s.pointer, desired) < 4 <==>
           Overlaps(s.slots[k], s.pointer, desired) {
      FitsIfOverlaps(s.slots[k], s.pointer, desired);
    }
    hide Fit, Overlaps, Optimal, Concealed, Delivered, Live;
    if i: nat :| i < SLOTS && Delivers(Synced(s), i, desired, wanted, capacity, s', out) {
      assert Overlaps(s.slots[i], s.pointer, desired);
    }
  }

  // It takes that packet out, and the pointer moves strictly forward, to its end.
  lemma OkAdvances(s: State, desired: int, wanted: bool, capacity: nat, s': State, out: Outcome)
    requires s.Valid() && !s.reset && AllLive(s.slots, s.pointer, desired)
    requires Gets(s, desired, wanted, capacity, s', out) && out.Got?
    ensures exists i: nat ::
              && i < SLOTS && s.slots[i].Held? && s'.slots == s.slots[i := Empty]
              && out.p == Fitted(s.slots[i].p, capacity)
    ensures s'.pointer == Stamp(out.p.timestamp + out.p.span) && D(s'.pointer, s.pointer) > 0
    ensures s'.interp == s.interp == 0 && !s'.reset
  {
    hide Fit, Optimal, D;
    var i: nat :| i < SLOTS && Delivers(Synced(s), i, desired, wanted, capacity, s', out);
    FitsIfOverlaps(s.slots[i], s.pointer, desired);
    StampedDistance(out.p.timestamp + out.p.span, s.pointer);
  }

  lemma StampedDistance(a: int, b: int)
    ensures D(Stamp(a), b) == D(a, b)
  {
  }

  // A packet that has the whole chunk is preferred; without one, a packet that has its beginning.
  lemma PrefersWhole(slots: seq<Slot>, pointer: Time, desired: int, i: nat, k: nat)
    requires AllLive(slots, pointer, desired) && Picked(slots, pointer, desired, i) && k < |slots|
             && Overlaps(slots[k], pointer, desired)
    ensures Covers(slots[k], pointer, desired) ==> Covers(slots[i], pointer, desired)
    ensures D(slots[k].p.timestamp, pointer) <= 0 ==> D(slots[i].p.timestamp, pointer) <= 0
    ensures 0 < D(slots[i].p.timestamp, pointer) ==>
            D(slots[i].p.timestamp, pointer) <= D(slots[k].p.timestamp, pointer)
  {
    FitsIfOverlaps(slots[i], pointer, desired);
    FitsIfOverlaps(slots[k], pointer, desired);
    Older(slots[k], pointer, desired);
    hide D, Covers, Live;
  }

  lemma Older(x: Slot, pointer: Time, desired: int)
    requires Live(x, pointer, desired) && 0 < desired && Overlaps(x, pointer, desired)
    ensures Fit(x, pointer, desired) < 3 <==> D(x.p.timestamp, pointer) <= 0
  {
    Distances(x, pointer, desired);
    NoDistance(pointer);
    hide D;
  }

  // ---------- putting and getting ----------

  // Cleaning up takes away no packet that overlaps a chunk still to come.
  lemma CleanTakesNothing(slots: seq<Slot>, pointer: Time, desired: int)
    requires AllLive(slots, pointer, desired)
    ensures forall k :: 0 <= k < |slots| ==>
            Clean(slots, pointer)[k] == slots[k]
            || (Clean(slots, pointer)[k] == Empty && !Overlaps(slots[k], pointer, desired))
  {
    forall k | 0 <= k < |slots|
           && slots[k].Held? ensures D(slots[k].p.timestamp + slots[k].p.span, pointer)
           == D(slots[k].p.timestamp, pointer) + slots[k].p.span {
      Distances(slots[k], pointer, desired);
    }
    hide D, Live;
  }

  // A packet that overlaps the next chunk is stored and something is returned for it.
  lemma PutThenGet(s: State, p: Packet, desired: int, wanted: bool, capacity: nat, s': State, out: Outcome)
    requires s.Valid() && !s.reset && s.lost <= 20 && s.interp == 0
    requires Overlaps(Held(p), s.pointer, desired) && D(p.timestamp, s.pointer) + p.span + s.cfg.delayStep < 0x8000_0000
    requires AfterPut(s, p).Valid() && AllLive(AfterPut(s, p).slots, s.pointer, desired)
    requires Gets(AfterPut(s, p), desired, wanted, capacity, s', out)
    ensures out.Got?
  {
    IsUseful(s, p, desired);
    var t := AfterPut(s, p);
    PutIsIn(s, p);
    OkIffOverlap(t, desired, wanted, capacity, s', out);
  }

  lemma IsUseful(s: State, p: Packet, desired: int)
    requires s.Valid() && !s.reset && s.lost <= 20 && s.cfg.delayStep > 0
    requires Overlaps(Held(p), s.pointer, desired) && D(p.timestamp, s.pointer) + p.span + s.cfg.delayStep < 0x8000_0000
    ensures Useful(Prepared(s, p), p)
  {
    hide Clean, Timed, JitterState.Late;
    var t := Prepared(s, p);
    assert t.pointer == s.pointer && !t.reset && t.cfg == s.cfg;
    WrapShift(p.timestamp - s.pointer, p.span + s.cfg.delayStep);
    hide Wrap32;
  }

  lemma PutIsIn(s: State, p: Packet)
    requires s.Valid() && !s.reset && s.lost <= 20 && Useful(Prepared(s, p), p) && AfterPut(s, p).Valid()
    ensures var t := AfterPut(s, p);
            && !t.reset && t.pointer == s.pointer && t.interp == s.interp
            && exists i :: 0 <= i < SLOTS && t.slots[i] == Held(p)
  {
    hide Timed, JitterState.Late, D, Useful, Wrap32, Played;
    var t := Prepared(s, p);
    assert |t.slots| == SLOTS;
    var free := FreeSlot(t.slots);
    var i := if free < SLOTS then free else Oldest(t.slots);
    assert AfterPut(s, p).slots[i] == Held(p);
  }

  // ---------- synchronisation ----------

  // The timestamps are within a quarter of the range of one another.
  predicate Near(slots: seq<Slot>, t: Time) {
    forall k :: 0 <= k < |slots| && slots[k].Held? ==> -0x4000_0000 <= D(slots[k].p.timestamp, t) < 0x4000_0000
  }

  lemma NearDistance(a: Time, b: Time, t: Time)
    requires -0x4000_0000 <= D(a, t) < 0x4000_0000 && -0x4000_0000 <= D(b, t) < 0x4000_0000
    ensures D(a, b) == D(a, t) - D(b, t)
  {
  }

  // The running comparison finds the earliest timestamp.
  lemma {:induction false} OldestIsFirst(slots: seq<Slot>, t: Time)
    requires Near(slots, t) && Oldest(slots) != -1
    ensures forall k :: 0 <= k < |slots| && slots[k].Held? ==>
            D(slots[k].p.timestamp, slots[Oldest(slots)].p.timestamp) >= 0
  {
    hide D;
    var n := |slots| - 1;
    var front := slots[..n];
    assert forall k :: 0 <= k < n ==> slots[k] == front[k];
    NoDistance(slots[Oldest(slots)].p.timestamp);
    if Oldest(front) != -1 {
      OldestIsFirst(front, t);
    }
    forall k | 0 <= k < |slots|
           && slots[k].Held? ensures D(slots[k].p.timestamp, slots[Oldest(slots)].p.timestamp) >= 0 {
      NearDistance(slots[k].p.timestamp, slots[Oldest(slots)].p.timestamp, t);
      if k < n {
        NearDistance(front[k].p.timestamp, front[Oldest(front)].p.timestamp, t);
        if slots[n].Held? { NearDistance(slots[n].p.timestamp, front[Oldest(front)].p.timestamp, t); }
      }
    }
  }

  // The first get after a reset returns the packet with the earliest timestamp.
  lemma SyncReturnsFirst(s: State, t: Time, desired: int, wanted: bool, capacity: nat, s': State, out: Outcome)
    requires s.Valid() && s.reset && Oldest(s.slots) != -1 && s.interp == 0 && Near(s.slots, t)
    requires AllLive(s.slots, Synced(s).pointer, desired)
    requires Gets(s, desired, wanted, capacity, s', out)
    ensures !s'.reset && out.Got? && out.offset == 0
    ensures forall k :: 0 <= k < SLOTS && s.slots[k].Held? ==> D(s.slots[k].p.timestamp, out.p.timestamp) >= 0
  {
    var u, first := Synced(s), s.slots[Oldest(s.slots)];
    OldestIsFirst(s.slots, t);
    hide D, Optimal, Near;
    NoDistance(u.pointer);
    assert Overlaps(first, u.pointer, desired);
    SameGets(s, desired, wanted, capacity, s', out);
    OkIffOverlap(u, desired, wanted, capacity, s', out);
    hide Fit;
    var i: nat :| i < SLOTS && Delivers(u, i, desired, wanted, capacity, s', out);
    PrefersWhole(u.slots, u.pointer, desired, i, Oldest(s.slots));
    FitsIfOverlaps(u.slots[i], u.pointer, desired);
    AtPointer(u.slots[i].p.timestamp, u.pointer);
  }

  lemma SameGets(s: State, desired: int, wanted: bool, capacity: nat, s': State, out: Outcome)
    requires s.Valid() && s.reset && Oldest(s.slots) != -1 && Gets(s, desired, wanted, capacity, s', out)
    ensures Gets(Synced(s), desired, wanted, capacity, s', out)
  {
    hide Optimal, Delivers, Oldest, NoneFits;
    assert Synced(Synced(s)) == Synced(s);
  }

  lemma AtPointer(a: Time, b: Time)
    ensures D(a, b) == 0 ==> a == b
  {
  }
}
