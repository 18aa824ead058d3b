/** Whole runs of the jitter buffer: no packet is returned twice, time does not go back, and a packet
    that was put is returned. */
module JitterRun {
  import opened Fixed
  import opened SmallestLists
  import opened JitterCost
  import opened JitterTimings
  import opened JitterState
  import opened JitterDelivery

  datatype Event =
    | Put(p: Packet)
    | Get(desired: int, wanted: bool, capacity: nat)
    | Another
    | Update
    | Tick
    | Remaining(rem: Time)
    | Reset

  datatype Result = Nothing | Returned(out: Outcome)

  // One call, what it returned and the state after it.
  datatype Move = Move(e: Event, r: Result, after: State)

  ghost predicate Step(s: State, e: Event, r: Result, s': State)
    requires s.Valid()
  {
    match e
    case Put(p) => r == Nothing && s' == AfterPut(s, p)
    case Get(desired, wanted, capacity) => r.Returned? && Gets(s, desired, wanted, capacity, s', r.out)
    case Another => r.Returned? && GetsAnother(s, s', r.out)
    case Update => r == Nothing && exists t, opt :: Updates(s, t, opt) && s' == t.(cfg := t.cfg.(autoAdjust := false))
    case Tick => r == Nothing && exists opt :: Ticks(s, s', opt)
    case Remaining(rem) => r == Nothing && exists opt :: Remains(s, rem, s', opt)
    case Reset => r == Nothing && s' == AfterReset(s)
  }

  ghost predicate IsRun(s: State, moves: seq<Move>)
    requires s.Valid()
    decreases |moves|
  {
    moves == [] || (Step(s, moves[0].e, moves[0].r, moves[0].after)
        && (StepKeepsValid(s, moves[0].e, moves[0].r, moves[0].after); IsRun(moves[0].after, moves[1..])))
  }

  lemma OptRange(s: State, opt: int, tradeoff: int)
    requires s.Valid() && Optimal(s, opt, tradeoff)
    ensures -0x8000 <= opt < 0x8000
  {
  }

  lemma UpdateKeepsValid(s: State, s': State, opt: int)
    requires s.Valid() && Updates(s, s', opt)
    ensures s'.Valid()
  {
    hide Optimal, Shifted, Wrap16, Stamp;
    var tradeoff :| Optimal(s, opt, tradeoff) && s' == AfterUpdate(s, opt, tradeoff);
    OptRange(s, opt, tradeoff);
  }

  lemma PutKeepsValid(s: State, p: Packet)
    requires s.Valid()
    ensures AfterPut(s, p).Valid() && Prepared(s, p).Valid()
  {
    hide D, Wrap32, Useful, JitterState.Late, Clamped;
    assert Prepared(s, p).Valid();
  }

  lemma StepKeepsValid(s: State, e: Event, r: Result, s': State)
    requires s.Valid() && Step(s, e, r, s')
    ensures s'.Valid()
  {
    hide Optimal, Picked, NoneFits, Oldest, FreeSlot, D, Clean, Fit, RoundDown, Useful, JitterState.Late, Shifted,
        Wrap16, Wrap32, Clamped;
    forall opt, t | Updates(s, t, opt) ensures t.Valid() {
      UpdateKeepsValid(s, t, opt);
    }
    hide AfterUpdate, AfterPut, Updates;
    if e.Put? { PutKeepsValid(s, e.p); }
  }

  // ---------- time ----------

  // How far the pointer has moved, counting what is still to be interpolated.
  function Progress(s: State, s': State): int { D(s'.pointer, s.pointer) + s'.interp - s.interp }

  // An adjustment does not move it back, except that it forgets an earlier request.
  lemma UpdateProgress(s: State, s': State, opt: int)
    requires s.Valid() && Updates(s, s', opt)
    ensures Progress(s, s') == if opt < 0 then -s.interp else opt
    ensures Progress(s, s') < 0 <==> opt < 0 && s.interp > 0
  {
    hide Optimal, D, Shifted, Wrap16, Stamp;
    var tradeoff :| Optimal(s, opt, tradeoff) && s' == AfterUpdate(s, opt, tradeoff);
    OptRange(s, opt, tradeoff);
    Ahead(s.pointer, opt);
    NoDistance(s.pointer);
  }

  lemma Ahead(a: Time, k: int)
    requires -0x8000_0000 <= k < 0x8000_0000
    ensures D(Stamp(a + k), a) == k
  {
    StampedDistance(a + k, a);
  }

  lemma LossProgress(s: State, s': State, desired: int, opt: int, tradeoff: int)
    requires s.Valid() && 0 < desired < 0x8000_0000 && s' == Concealed(s, desired, opt, tradeoff)
    ensures Progress(s, s') >= 0 && s'.interp == s.interp && s'.reset == s.reset
  {
    RoundsDown(desired, s.cfg.concealmentSize);
    hide D, RoundDown, Stamp, Shifted, Wrap16, Wrap32;
    Ahead(s.pointer, RoundDown(desired, s.cfg.concealmentSize));
    NoDistance(s.pointer);
  }

  lemma GetProgress(s: State, e: Event, r: Result, s': State)
    requires s.Valid() && e.Get? && Step(s, e, r, s') && !s.reset && AllLive(s.slots, s.pointer, e.desired)
    ensures s'.interp == 0 && !s'.reset
    ensures if r.out.Got? then Progress(s, s') > 0 else Progress(s, s') >= 0
  {
    hide Optimal, Delivers, Concealed, Concealment, D, Stamp, Wrap32, NoneFits, AllLive, Live, Updates, Ticks, Remains;
    if r.out.Got? {
      OkAdvances(s, e.desired, e.wanted, e.capacity, s', r.out);
    } else if s.interp != 0 {
      Ahead(s.pointer, s.interp);
    } else {
      NoPacketProgress(s, e, r, s');
    }
  }

  lemma NoPacketProgress(s: State, e: Event, r: Result, s': State)
    requires s.Valid() && e.Get? && Step(s, e, r, s') && !s.reset && AllLive(s.slots, s.pointer, e.desired)
    requires s.interp == 0 && !r.out.Got?
    ensures s'.interp == 0 && !s'.reset && Progress(s, s') >= 0
  {
    hide Optimal, Concealed, D, Stamp, Wrap32, NoneFits, AllLive, Live, Updates, Ticks, Remains;
    var opt, tradeoff :| s' == Concealed(Synced(s), e.desired, opt, tradeoff) && Optimal(Synced(s), opt, tradeoff);
    WithinDesired(s.slots, s.pointer, e.desired);
    LossProgress(Synced(s), s', e.desired, opt, tradeoff);
  }

  lemma WithinDesired(slots: seq<Slot>, pointer: Time, desired: int)
    requires AllLive(slots, pointer, desired)
    ensures 0 < desired < 0x8000_0000
  {
  }

  // Updates must not come twice without a get in between.
  predicate Adjusts(s: State, e: Event) { e.Update? || ((e.Tick? || e.Remaining?) && s.cfg.autoAdjust) }

  // No reset, live packets at every get, and adjustments in turn with gets; due says that a get is next.
  ghost predicate Calm(s: State, moves: seq<Move>, due: bool)
    decreases |moves|
  {
    && !s.reset
    && (moves != [] ==>
      && (moves[0].e.Get? ==> AllLive(s.slots, s.pointer, moves[0].e.desired))
      && (Adjusts(s, moves[0].e) ==> !due)
      && Calm(moves[0].after, moves[1..], NowDue(s, moves[0].e, due)))
  }

  predicate NowDue(s: State, e: Event, due: bool) { if e.Get? then false else due || Adjusts(s, e) }

  function Total(s: State, moves: seq<Move>): int
    decreases |moves|
  {
    if moves == [] then 0 else Progress(s, moves[0].after) + Total(moves[0].after, moves[1..])
  }

  // Packets that were returned by get.
  function Oks(moves: seq<Move>): nat {
    if moves == [] then 0
        else (if moves[0].e.Get? && moves[0].r.Returned? && moves[0].r.out.Got? then 1 else 0) + Oks(moves[1..])
  }

  lemma StepProgress(s: State, e: Event, r: Result, s': State, due: bool)
    requires s.Valid() && Step(s, e, r, s') && !s.reset && !s'.reset && (s.interp == 0 || due)
             && (Adjusts(s, e) ==> !due)
    requires e.Get? ==> AllLive(s.slots, s.pointer, e.desired)
    ensures Progress(s, s') >= if e.Get? && r.Returned? && r.out.Got? then 1 else 0
    ensures s'.interp == 0 || NowDue(s, e, due)
  {
    if e.Get? {
      GetProgress(s, e, r, s');
    } else {
      OtherProgress(s, e, r, s');
    }
  }

  lemma OtherProgress(s: State, e: Event, r: Result, s': State)
    requires s.Valid() && Step(s, e, r, s') && !e.Get? && !s.reset && !s'.reset && (Adjusts(s, e) ==> s.interp == 0)
    ensures Progress(s, s') >= 0
    ensures s'.interp == s.interp || Adjusts(s, e)
  {
    forall t, opt | Updates(s, t, opt) ensures Progress(s, t) >= 0 || s.interp > 0 {
      UpdateProgress(s, t, opt);
    }
    NoDistance(s.pointer);
    hide D, Updates, Gets;
    if e.Put? { PutMovesNothing(s, e.p); }
    hide AfterPut;
  }

  lemma PutMovesNothing(s: State, p: Packet)
    requires s.Valid()
    ensures var s' := AfterPut(s, p);
            || s'.reset
            || (s'.pointer == s.pointer && s'.interp == s.interp && s'.reset == s.reset)
  {
    hide Clean, D, Clamped, Timed, Useful, JitterState.Late, FreeSlot, Oldest;
  }

  // Over a whole run the pointer moves forward by at least one unit for every packet returned.
  lemma {:induction false} NeverBack(s: State, moves: seq<Move>, due: bool)
    requires s.Valid() && IsRun(s, moves) && Calm(s, moves, due) && (s.interp == 0 || due)
    ensures Total(s, moves) >= Oks(moves)
    decreases |moves|
  {
    hide Progress, Adjusts, NowDue, Step, AllLive;
    if moves != [] {
      var m := moves[0];
      StepKeepsValid(s, m.e, m.r, m.after);
      StepProgress(s, m.e, m.r, m.after, due);
      NeverBack(m.after, moves[1..], NowDue(s, m.e, due));
    }
  }

  function Last(s: State, moves: seq<Move>): State { if moves == [] then s else moves[|moves| - 1].after }

  // The total is the way from the first pointer to the last one, interpolations included.
  lemma {:induction false} TotalIsDistance(s: State, moves: seq<Move>)
    ensures Stamp(s.pointer + s.interp + Total(s, moves)) == Stamp(Last(s, moves).pointer + Last(s, moves).interp)
    decreases |moves|
  {
    if moves != [] {
      var t := moves[0].after;
      TotalIsDistance(t, moves[1..]);
      var way := D(t.pointer, s.pointer);
      assert Stamp(s.pointer + way + (t.interp + Total(t, moves[1..])))
             == Stamp(t.pointer + (t.interp + Total(t, moves[1..]))) by {
        Way(s.pointer, t.pointer, t.interp + Total(t, moves[1..]));
      }
      hide D, Stamp;
    }
  }

  lemma Way(a: Time, b: Time, k: int)
    ensures Stamp(a + D(b, a) + k) == Stamp(b + k)
  {
    assert D(b, a) == b - a || D(b, a) == b - a + 0x1_0000_0000 || D(b, a) == b - a - 0x1_0000_0000;
  }

  // ---------- packets ----------

  // What identifies a packet, whether it was cut or not.
  function Label(p: Packet): Packet { p.(data := []) }

  function Of(x: Slot): multiset<Packet> { if x.Held? then multiset{Label(x.p)} else multiset{} }

  function Stored(slots: seq<Slot>): multiset<Packet> {
    if slots == [] then multiset{} else Stored(slots[..|slots| - 1]) + Of(slots[|slots| - 1])
  }

  lemma Exchange(a: multiset<Packet>, b: multiset<Packet>, u: multiset<Packet>, v: multiset<Packet>,
                 w: multiset<Packet>)
    requires a + u == b + v
    ensures (a + w) + u == (b + w) + v
  {
    assert (a + w) + u == (a + u) + w;
    assert (b + w) + v == (b + v) + w;
  }

  lemma {:induction false} StoredAfter(slots: seq<Slot>, i: nat, x: Slot)
    requires i < |slots|
    ensures Stored(slots[i := x]) + Of(slots[i]) == Stored(slots) + Of(x)
  {
    hide Of;
    var n, r := |slots| - 1, slots[i := x];
    assert Stored(r) == Stored(r[..n]) + Of(r[n]);
    if i < n {
      StoredAfter(slots[..n], i, x);
      assert r[..n] == slots[..n][i := x];
      hide Stored;
      Exchange(Stored(r[..n]), Stored(slots[..n]), Of(slots[i]), Of(x), Of(slots[n]));
    } else {
      assert r[..n] == slots[..n];
      hide Stored;
      assert Stored(slots[..n]) + Of(x) + Of(slots[i]) == Stored(slots[..n]) + Of(slots[i]) + Of(x);
    }
  }

  lemma {:induction false} StoredLess(a: seq<Slot>, b: seq<Slot>)
    requires |a| == |b| && forall k :: 0 <= k < |a| ==> a[k] == b[k] || a[k] == Empty
    ensures Stored(a) <= Stored(b)
  {
    if a != [] {
      var n := |a| - 1;
      StoredLess(a[..n], b[..n]);
      assert Of(a[n]) <= Of(b[n]);
    }
  }

  // Packets that came in and packets that went out.
  function In(e: Event): multiset<Packet> { if e.Put? then multiset{Label(e.p)} else multiset{} }

  function Out(r: Result): multiset<Packet> { if r.Returned? && r.out.Got? then multiset{Label(r.out.p)}
               else multiset{} }

  lemma TakenOut(s: State, i: nat, p: Packet, rest: seq<Slot>)
    requires i < |s.slots| && s.slots[i].Held? && Label(p) == Label(s.slots[i].p) && rest == s.slots[i := Empty]
    ensures Stored(rest) + multiset{Label(p)} == Stored(s.slots)
  {
    StoredAfter(s.slots, i, Empty);
  }

  lemma PreparedIsLess(s: State, p: Packet)
    requires s.Valid()
    ensures Stored(Prepared(s, p).slots) <= Stored(s.slots)
  {
    hide Timed, D, Wrap32, Useful, JitterState.Late, Clamped, Stored;
    StoredLess(Prepared(s, p).slots, s.slots);
  }

  lemma InsertedIsMore(s: State, p: Packet, late: bool)
    requires s.Valid()
    ensures Stored(JitterState.Inserted(s, p, late).slots) <= Stored(s.slots) + multiset{Label(p)}
  {
    hide Stored, Of;
    var free := FreeSlot(s.slots);
    var i := if free < SLOTS then free else Oldest(s.slots);
    StoredAfter(s.slots, i, Held(p));
    assert Of(Held(p)) == multiset{Label(p)} by { OfPacket(p); }
    assert Stored(s.slots[i := Held(p)]) <= Stored(s.slots[i := Held(p)]) + Of(s.slots[i]);
  }

  lemma OfPacket(p: Packet)
    ensures Of(Held(p)) == multiset{Label(p)}
  {
  }

  lemma PutConserves(s: State, p: Packet)
    requires s.Valid()
    ensures Stored(AfterPut(s, p).slots) <= Stored(s.slots) + multiset{Label(p)}
  {
    hide Prepared, Stored, JitterState.Inserted, Useful, JitterState.Late;
    var t := Prepared(s, p);
    PutKeepsValid(s, p);
    PreparedIsLess(s, p);
    InsertedIsMore(t, p, JitterState.Late(s, p));
  }

  lemma PickedHeld(slots: seq<Slot>, pointer: Time, desired: int, i: nat)
    requires Picked(slots, pointer, desired, i)
    ensures i < |slots| && slots[i].Held? && !NoneFits(slots, pointer, desired)
  {
  }

  lemma GetConserves(s: State, e: Event, r: Result, s': State)
    requires s.Valid() && Step(s, e, r, s') && e.Get?
    ensures Stored(s'.slots) + Out(r) == Stored(s.slots)
  {
    hide Optimal, Stored, Timed, D, RoundDown, Wrap32, Picked, NoneFits, Stamp;
    if r.out.Got? {
      var t := Synced(s);
      var i: nat :| i < SLOTS && Delivers(t, i, e.desired, e.wanted, e.capacity, s', r.out);
      PickedHeld(t.slots, t.pointer, e.desired, i);
      TakenOut(s, i, r.out.p, s'.slots);
    }
  }

  lemma OthersConserve(s: State, e: Event, r: Result, s': State)
    requires s.Valid() && Step(s, e, r, s') && (e.Update? || e.Tick? || e.Remaining?)
    ensures s'.slots == s.slots && Out(r) == multiset{}
  {
    hide Optimal, Stamp, ShiftedAll3;
  }

  lemma StepConserves(s: State, e: Event, r: Result, s': State)
    requires s.Valid() && Step(s, e, r, s')
    ensures Stored(s'.slots) + Out(r) <= Stored(s.slots) + In(e)
  {
    match e
    case Put(p) => { PutConserves(s, p); }
    case Get(_, _, _) => { GetConserves(s, e, r, s'); }
    case Another => {
      hide Stored;
      if r.out.Got? {
        var i: nat :| i < |s.slots| && s.slots[i].Held? && r.out == Got(s.slots[i].p, 0)
            && s'.slots == s.slots[i := Empty];
        TakenOut(s, i, r.out.p, s'.slots);
      }
    }
    case Reset => { StoredLess(s'.slots, s.slots); }
    case _ => { OthersConserve(s, e, r, s'); }
  }

  function AllIn(moves: seq<Move>): multiset<Packet> {
    if moves == [] then multiset{} else In(moves[0].e) + AllIn(moves[1..])
  }

  function AllOut(moves: seq<Move>): multiset<Packet> {
    if moves == [] then multiset{} else Out(moves[0].r) + AllOut(moves[1..])
  }

  lemma Combine(a: multiset<Packet>, b: multiset<Packet>, c: multiset<Packet>, i: multiset<Packet>,
                o: multiset<Packet>, i': multiset<Packet>, o': multiset<Packet>)
    requires b + o <= a + i && o' + c <= b + i'
    ensures (o + o') + c <= a + (i + i')
  {
    forall p ensures ((o + o') + c)[p] <= (a + (i + i'))[p] {
      assert (b + o)[p] <= (a + i)[p] && (o' + c)[p] <= (b + i')[p];
    }
  }

  // No packet comes out more often than it was put in.
  lemma {:induction false} NoneTwice(s: State, moves: seq<Move>)
    requires s.Valid() && IsRun(s, moves)
    ensures AllOut(moves) + Stored(Last(s, moves).slots) <= Stored(s.slots) + AllIn(moves)
    decreases |moves|
  {
    hide Stored, Step, In, Out;
    if moves != [] {
      var m := moves[0];
      StepKeepsValid(s, m.e, m.r, m.after);
      StepConserves(s, m.e, m.r, m.after);
      NoneTwice(m.after, moves[1..]);
      assert Last(s, moves) == Last(m.after, moves[1..]);
      Combine(Stored(s.slots), Stored(m.after.slots), Stored(Last(s, moves).slots), In(m.e), Out(m.r),
          AllIn(moves[1..]), AllOut(moves[1..]));
    }
  }
}
