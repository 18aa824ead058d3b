/** Self-delimiting packets: the header loop of nb_decode, which skips wideband layers and
    messages up to the next narrowband frame. */
module Framing {
  import opened BitString
  import opened BitReader
  import opened Bits
  import opened BitRuns
  import opened Modes

  // wb_skip_table
  const WB_SKIP: seq<nat> := [0, 36, 112, 192, 352, 0, 0, 0]

  // The payload of an in-band message that no callback takes.
  function InbandBits(id: nat): nat {
    if id < 2 then 1 else if id < 8 then 4 else if id < 10 then 8 else if id < 12 then 16 else if id < 14 then 32
        else 64
  }

  function UserBits(size: nat): nat { 5 + 8 * size }

  // ---------- what one pass of the loop does ----------

  // -1 for the end of the packet, -2 for a corrupt stream, another pass, or a frame.
  datatype Pass = End | Corrupt | Again | Found(m: nat)

  lemma TakeBound(r: Reader, n: nat)
    ensures Take(r, n).0 < Pow2(n) && Pow2(1) == 2 && Pow2(3) == 8 && Pow2(4) == 16
  {
    HeaderPowers();
    hide Pow2, FromBits;
  }

  lemma HeaderPowers()
    ensures Pow2(1) == 2 && Pow2(3) == 8 && Pow2(4) == 16
  {
    assert Pow2(1) == 2 * Pow2(0);
    assert Pow2(2) == 2 * Pow2(1);
    assert Pow2(3) == 2 * Pow2(2);
  }

  // A wideband layer, from its submode on.
  ghost function SkipLayer(r: Reader): (r': Reader)
    requires Sound(r) && Left(r) >= 3 && r.pos >= 1
    ensures Sound(r') && r'.s == r.s && (r'.overflow || r'.pos >= r.pos - 1)
  {
    var (submode, r1) := Take(r, SB_SUBMODE_BITS);
    TakeBound(r, 3);
    Skip(r1, WB_SKIP[submode] - (SB_SUBMODE_BITS + 1))
  }

  // speex_inband_handler without callbacks
  ghost function SkipInband(r: Reader): (r': Reader)
    requires Sound(r)
    ensures Sound(r') && r'.s == r.s && r'.pos >= r.pos
  {
    var (id, r1) := Take(r, 4);
    Skip(r1, InbandBits(id))
  }

  // speex_default_user_handler
  ghost function SkipUser(r: Reader): (r': Reader)
    requires Sound(r)
    ensures Sound(r') && r'.s == r.s && r'.pos >= r.pos
  {
    var (size, r1) := Take(r, 4);
    Skip(r1, UserBits(size))
  }

  // The pass from the narrowband submode on.
  ghost function SubmodePass(r: Reader): (p: (Pass, Reader))
    requires Sound(r)
    ensures Sound(p.1) && p.1.s == r.s
    ensures p.0.Again? || p.0.Found? ==> p.1.pos >= r.pos + 4 && !r.overflow
    ensures p.0.Found? ==> p.0.m <= 8 && !p.1.overflow
  {
    if Left(r) < 4 then (End, r)
    else
      var (m, r1) := Take(r, NB_SUBMODE_BITS);
      if m == 15 then (End, r1)
      else if m == 14 then (Again, SkipInband(r1))
      else if m == 13 then (Again, SkipUser(r1))
      else if m > 8 then (Corrupt, r1)
      else (Found(m), r1)
  }

  ghost function HeaderPass(r: Reader): (p: (Pass, Reader))
    requires Sound(r)
    ensures Sound(p.1) && p.1.s == r.s
    ensures p.0.Found? ==> p.0.m <= 8 && !p.1.overflow
  {
    if Left(r) < 5 then (End, r)
    else
      var (wideband, r1) := Take(r, 1);
      if wideband == 0 then SubmodePass(r1)
      else
        var r2 := SkipLayer(r1);
        if Left(r2) < 5 then (End, r2)
        else
          var (wideband', r3) := Take(r2, 1);
          if wideband' == 0 then SubmodePass(r3)
          else
            var r4 := SkipLayer(r3);
            var (wideband'', r5) := Take(r4, 1);
            if wideband'' != 0 then (Corrupt, r5) else SubmodePass(r5)
  }

  // A pass that does not return has moved on by at least a header.
  lemma PassAdvances(r: Reader)
    requires Sound(r) && (HeaderPass(r).0.Again? || HeaderPass(r).0.Found?)
    ensures HeaderPass(r).1.pos >= r.pos + NB_SUBMODE_BITS + 1 && !r.overflow
  {
    hide SkipLayer, SubmodePass, FromBits;
    TakeBound(r, 1);
    assert Left(r) >= 5;
    var (wideband, r1) := Take(r, 1);
    if wideband != 0 {
      var r2 := SkipLayer(r1);
      var (wideband', r3) := Take(r2, 1);
      if wideband' != 0 {
        var r4 := SkipLayer(r3);
      }
    }
  }

  ghost function Measure(r: Reader): nat
    requires Sound(r)
  {
    if r.overflow then 0 else |r.s| - r.pos + 1
  }

  // The whole loop.
  ghost function HeaderLoop(r: Reader): (p: (Pass, Reader))
    requires Sound(r)
    ensures Sound(p.1) && p.1.s == r.s && !p.0.Again?
    ensures p.0.Found? ==> p.0.m <= 8 && p.1.pos > r.pos && !p.1.overflow && !r.overflow
    decreases Measure(r)
  {
    var (p, r') := HeaderPass(r);
    if p.Again? then
      PassAdvances(r);
      HeaderLoop(r')
    else
      assert p.Found? ==> r'.pos > r.pos && !r.overflow by { if p.Found? { PassAdvances(r); } }
      (p, r')
  }

  // ---------- the loop on a bit buffer ----------

  method Inband(bits: SpeexBits)
    requires bits.Valid()
    modifies bits`charPtr, bits`bitPtr, bits`overflow
    ensures bits.Valid() && bits.View() == SkipInband(old(bits.View()))
  {
    var id := bits.UnpackUnsigned(4);
    bits.Advance(InbandBits(id));
  }

  method UserRequest(bits: SpeexBits)
    requires bits.Valid()
    modifies bits`charPtr, bits`bitPtr, bits`overflow
    ensures bits.Valid() && bits.View() == SkipUser(old(bits.View()))
  {
    var size := bits.UnpackUnsigned(4);
    bits.Advance(UserBits(size));
  }

  method WidebandLayer(bits: SpeexBits)
    requires bits.Valid() && Left(bits.View()) >= 3 && bits.Cursor() >= 1
    modifies bits`charPtr, bits`bitPtr, bits`overflow
    ensures bits.Valid() && bits.View() == SkipLayer(old(bits.View()))
  {
    TakeBound(bits.View(), 3);
    var submode := bits.UnpackUnsigned(SB_SUBMODE_BITS);
    bits.Advance(WB_SKIP[submode] - (SB_SUBMODE_BITS + 1));
  }

  // The narrowband part of a pass.
  method Narrowband(bits: SpeexBits) returns (p: Pass)
    requires bits.Valid()
    modifies bits`charPtr, bits`bitPtr, bits`overflow
    ensures bits.Valid() && (p, bits.View()) == SubmodePass(old(bits.View()))
  {
    hide SkipInband, SkipUser, Take;
    var left := bits.Remaining();
    if left < 4 { return End; }
    var m := bits.UnpackUnsigned(NB_SUBMODE_BITS);
    if m == 15 { return End; }
    if m == 14 {
      Inband(bits);
      return Again;
    }
    if m == 13 {
      UserRequest(bits);
      return Again;
    }
    p := if m > 8 then Corrupt else Found(m);
  }

  // One pass of the do-while loop.
  method OnePass(bits: SpeexBits) returns (p: Pass)
    requires bits.Valid()
    modifies bits`charPtr, bits`bitPtr, bits`overflow
    ensures bits.Valid() && (p, bits.View()) == HeaderPass(old(bits.View()))
  {
    hide SkipLayer, SubmodePass, FromBits, BitsOf;
    var left := bits.Remaining();
    if left < 5 { return End; }
    var wideband := bits.UnpackUnsigned(1);
    if wideband != 0 {
      WidebandLayer(bits);
      left := bits.Remaining();
      if left < 5 { return End; }
      wideband := bits.UnpackUnsigned(1);
      if wideband != 0 {
        WidebandLayer(bits);
        wideband := bits.UnpackUnsigned(1);
        if wideband != 0 { return Corrupt; }
      }
    }
    p := Narrowband(bits);
  }

  method FindFrame(bits: SpeexBits) returns (p: Pass)
    requires bits.Valid()
    modifies bits`charPtr, bits`bitPtr, bits`overflow
    ensures bits.Valid() && (p, bits.View()) == HeaderLoop(old(bits.View()))
  {
    hide HeaderPass, Take, BitsOf;
    p := Again;
    while p == Again
      invariant bits.Valid()
      invariant HeaderLoop(old(bits.View())) == if p == Again then HeaderLoop(bits.View()) else (p, bits.View())
      decreases p == Again, Measure(bits.View())
    {
      ghost var before := bits.View();
      p := OnePass(bits);
      if p == Again { PassAdvances(before); }
    }
  }

  // ---------- packets ----------

  // The sizes of the in-band requests as the header lists them, by request.
  const REQUEST_BITS: seq<nat> := [1, 1, 4, 4, 4, 4, 4, 4, 8, 8, 16, 16, 32, 32, 64, 64]

  lemma RequestsAreListed(id: nat)
    requires id < 16
    ensures InbandBits(id) == REQUEST_BITS[id]
  {
  }

  // A wideband layer as its encoder packs it: the bit 1, the submode, and the rest.
  datatype Layer = Layer(submode: nat, payload: seq<Field>)

  datatype Body =
    | Frame(m: nat, fields: seq<Field>)
    | InbandMessage(id: nat, payload: seq<Field>)
    | UserMessage(size: nat, payload: seq<Field>)

  // Up to two wideband layers and what follows them.
  datatype Item = Item(layers: seq<Layer>, body: Body)

  // The payload of a layer is as long as the fields that the encoder of the high band packs.
  ghost predicate ProperLayer(l: Layer) {
    1 <= l.submode <= 4 && Total(Widths(l.payload)) == Total(WbLayout(l.submode))
  }

  // The skip table has the lengths of these layers.
  lemma SkipTable(m: nat)
    requires 1 <= m <= 4
    ensures WB_SKIP[m] == 4 + Total(WbLayout(m)) == WbMode(m).bitsPerFrame >= 5
  {
    hide Total, WbLayout;
    WbLayoutFillsLayer(m);
  }

  ghost predicate ProperLayers(ls: seq<Layer>) {
    |ls| <= 2 && forall i :: 0 <= i < |ls| ==> ProperLayer(ls[i])
  }

  ghost predicate ProperBody(b: Body) {
    match b
    case Frame(m, fields) => m <= 8 && Fit(fields) && Widths(fields) == Layout(m)
    case InbandMessage(id, payload) => id < 16 && Total(Widths(payload)) == REQUEST_BITS[id]
    case UserMessage(size, payload) => size < 16 && Total(Widths(payload)) == 5 + 8 * size
  }

  ghost predicate ProperItem(t: Item) { ProperLayers(t.layers) && ProperBody(t.body) }

  ghost function LayerBits(l: Layer): seq<bool> {
    ToBits(1, 1) + (ToBits(l.submode, 3) + FieldBits(l.payload))
  }

  ghost function LayersBits(ls: seq<Layer>): seq<bool> {
    if ls == [] then [] else LayerBits(ls[0]) + LayersBits(ls[1..])
  }

  // From the submode on: speex_bits_pack(bits, m, 4) and what belongs to it.
  ghost function BodyBits(b: Body): seq<bool> {
    match b
    case Frame(m, fields) => ToBits(m, 4) + FieldBits(fields)
    case InbandMessage(id, payload) => ToBits(14, 4) + (ToBits(id, 4) + FieldBits(payload))
    case UserMessage(size, payload) => ToBits(13, 4) + (ToBits(size, 4) + FieldBits(payload))
  }

  ghost function ItemBits(t: Item): seq<bool> {
    LayersBits(t.layers) + (ToBits(0, 1) + BodyBits(t.body))
  }

  // Skipping n bits that are there.
  lemma SkipAhead(r: Reader, t: seq<bool>, n: nat)
    requires Ahead(r, t) && |t| == n
    ensures Skip(r, n) == MovedOn(r, n)
  {
  }

  lemma NumberAhead(r: Reader, v: nat, w: nat, rest: seq<bool>)
    requires Ahead(r, ToBits(v, w) + rest) && v < Pow2(w)
    ensures Take(r, w) == (v, MovedOn(r, w)) && Ahead(MovedOn(r, w), rest)
  {
    AheadSplit(r, ToBits(v, w), rest);
    TakeAhead(r, v, w);
  }

  lemma LayerIs(r: Reader, m: nat)
    requires Sound(r) && Left(r) >= 3 && r.pos >= 1 && 1 <= m <= 4 && Take(r, SB_SUBMODE_BITS) == (m, MovedOn(r, 3))
    ensures WB_SKIP[m] >= 4 && SkipLayer(r) == Skip(MovedOn(r, 3), WB_SKIP[m] - 4)
  {
    hide Take, Skip;
  }

  lemma LayerParts(l: Layer, rest: seq<bool>)
    ensures var tail := ToBits(l.submode, 3) + (FieldBits(l.payload) + rest);
            LayerBits(l) + rest == ToBits(1, 1) + tail && |LayerBits(l)| == 4 + |FieldBits(l.payload)|
  {
    hide ToBits, FieldBits;
  }

  // A layer of submode 1 to 4 is skipped exactly.
  lemma LayerSkipped(r: Reader, l: Layer, rest: seq<bool>)
    requires Ahead(r, LayerBits(l) + rest) && ProperLayer(l)
    ensures Left(r) >= |LayerBits(l)| + |rest| && |LayerBits(l)| == WbMode(l.submode).bitsPerFrame >= 5
    ensures Take(r, 1) == (1, MovedOn(r, 1))
    ensures SkipLayer(MovedOn(r, 1)) == MovedOn(r, |LayerBits(l)|) && Ahead(MovedOn(r, |LayerBits(l)|), rest)
  {
    hide ToBits, FieldBits, Total, Widths, WbLayout, WbMode, Take, Skip, Ahead, SkipLayer, LayerBits;
    SkipTable(l.submode);
    LayerParts(l, rest);
    FieldBitsLength(l.payload);
    TakeBound(r, 1);
    LeftAhead(r, LayerBits(l) + rest);
    var tail := FieldBits(l.payload) + rest;
    NumberAhead(r, 1, 1, ToBits(l.submode, 3) + tail);
    LeftAhead(MovedOn(r, 1), ToBits(l.submode, 3) + tail);
    NumberAhead(MovedOn(r, 1), l.submode, 3, tail);
    AheadSplit(MovedOn(r, 4), FieldBits(l.payload), rest);
    LayerIs(MovedOn(r, 1), l.submode);
    SkipAhead(MovedOn(r, 4), FieldBits(l.payload), WB_SKIP[l.submode] - 4);
  }

  // Submodes 0 and 5 to 7 have no entry in the skip table: the four bits already read are
  // given back, the same bit is taken for a second and a third layer, and the stream is
  // given up as corrupt. The encoder does send submode 0, in four bits.
  lemma UnlistedLayerIsCorrupt(r: Reader, submode: nat, rest: seq<bool>)
    requires Ahead(r, ToBits(1, 1) + (ToBits(submode, 3) + rest)) && |rest| > 0
    requires submode == 0 || 5 <= submode < 8
    ensures HeaderPass(r).0 == Corrupt
  {
    hide ToBits, FromBits, SubmodePass, Ahead;
    assert Left(r) >= 5 by { LeftAhead(r, ToBits(1, 1) + (ToBits(submode, 3) + rest)); }
    TakeBound(r, 1);
    NumberAhead(r, 1, 1, ToBits(submode, 3) + rest);
    NumberAhead(MovedOn(r, 1), submode, 3, rest);
    assert SkipLayer(MovedOn(r, 1)) == r;
  }

  lemma LeftAhead(r: Reader, t: seq<bool>)
    requires Ahead(r, t)
    ensures Sound(r) && Left(r) >= |t|
  {
  }

  // What the loop makes of a body, and how many of its bits it takes.
  ghost function Outcome(b: Body): Pass {
    if b.Frame? then Found(b.m) else Again
  }

  ghost function Consumed(b: Body): nat {
    if b.Frame? then 4 else |BodyBits(b)|
  }

  ghost function LeftOver(b: Body): seq<bool> {
    if b.Frame? then FieldBits(b.fields) else []
  }

  lemma MessageSkipped(r: Reader, v: nat, payload: seq<Field>, n: nat, rest: seq<bool>)
    requires Ahead(r, (ToBits(v, 4) + FieldBits(payload)) + rest) && v < 16 && Total(Widths(payload)) == n
    ensures Take(r, 4) == (v, MovedOn(r, 4)) && Skip(MovedOn(r, 4), n) == MovedOn(r, 4 + n)
    ensures Ahead(MovedOn(r, 4 + n), rest) && |FieldBits(payload)| == n
  {
    hide ToBits, FieldBits, Total;
    FieldBitsLength(payload);
    TakeBound(r, 1);
    assert (ToBits(v, 4) + FieldBits(payload)) + rest == ToBits(v, 4) + (FieldBits(payload) + rest);
    NumberAhead(r, v, 4, FieldBits(payload) + rest);
    AheadSplit(MovedOn(r, 4), FieldBits(payload), rest);
    SkipAhead(MovedOn(r, 4), FieldBits(payload), n);
  }

  lemma SubmodeAhead(r: Reader, m: nat, tail: seq<bool>, rest: seq<bool>)
    requires Ahead(r, (ToBits(m, 4) + tail) + rest) && m < 16
    ensures Take(r, 4) == (m, MovedOn(r, 4)) && Ahead(MovedOn(r, 4), tail + rest) && Sound(r) && Left(r) >= 4
  {
    TakeBound(r, 4);
    LeftAhead(r, (ToBits(m, 4) + tail) + rest);
    assert (ToBits(m, 4) + tail) + rest == ToBits(m, 4) + (tail + rest);
    NumberAhead(r, m, 4, tail + rest);
  }

  lemma BodyPass(r: Reader, b: Body, rest: seq<bool>)
    requires Ahead(r, BodyBits(b) + rest) && ProperBody(b)
    ensures Sound(r) && SubmodePass(r) == (Outcome(b), MovedOn(r, Consumed(b)))
    ensures Ahead(MovedOn(r, Consumed(b)), LeftOver(b) + rest)
  {
    hide ToBits, FromBits, FieldBits, Total, Take, Ahead, Layout;
    match b
    case Frame(m, fields) =>
      SubmodeAhead(r, m, FieldBits(fields), rest);
    case InbandMessage(id, payload) =>
      SubmodeAhead(r, 14, ToBits(id, 4) + FieldBits(payload), rest);
      RequestsAreListed(id);
      MessageSkipped(MovedOn(r, 4), id, payload, InbandBits(id), rest);
      assert LeftOver(b) + rest == rest;
    case UserMessage(size, payload) =>
      SubmodeAhead(r, 13, ToBits(size, 4) + FieldBits(payload), rest);
      MessageSkipped(MovedOn(r, 4), size, payload, UserBits(size), rest);
      assert LeftOver(b) + rest == rest;
  }

  // The bit that announces a narrowband body.
  lemma ZeroAhead(r: Reader, t: seq<bool>)
    requires Ahead(r, ToBits(0, 1) + t)
    ensures Take(r, 1) == (0, MovedOn(r, 1)) && Ahead(MovedOn(r, 1), t) && Sound(r) && Left(r) >= 1 + |t|
  {
    TakeBound(r, 1);
    LeftAhead(r, ToBits(0, 1) + t);
    NumberAhead(r, 0, 1, t);
  }

  lemma BodyLength(b: Body)
    ensures |BodyBits(b)| >= 4
  {
  }

  lemma NoLayers(z: seq<bool>)
    ensures LayersBits([]) == [] && LayersBits([]) + z == z
  {
  }

  lemma OneLayer(ls: seq<Layer>, z: seq<bool>)
    requires |ls| == 1
    ensures LayersBits(ls) + z == LayerBits(ls[0]) + z && |LayersBits(ls)| == |LayerBits(ls[0])|
  {
    hide LayerBits;
    assert LayersBits(ls[1..]) == [];
  }

  lemma TwoLayers(ls: seq<Layer>, z: seq<bool>)
    requires |ls| == 2
    ensures LayersBits(ls) + z == LayerBits(ls[0]) + (LayerBits(ls[1]) + z)
    ensures |LayersBits(ls)| == |LayerBits(ls[0])| + |LayerBits(ls[1])|
  {
    hide LayerBits;
    assert ls[1..][0] == ls[1];
    OneLayer(ls[1..], z);
  }

  // Behind a zero bit, the pass is the narrowband part, whatever layers came before.
  lemma LayersThenZero(r: Reader, ls: seq<Layer>, t: seq<bool>)
    requires ProperLayers(ls) && |t| >= 4 && Ahead(r, LayersBits(ls) + (ToBits(0, 1) + t))
    ensures Sound(r) && Sound(MovedOn(r, |LayersBits(ls)| + 1)) && Ahead(MovedOn(r, |LayersBits(ls)| + 1), t)
    ensures HeaderPass(r) == SubmodePass(MovedOn(r, |LayersBits(ls)| + 1))
  {
    hide Take, SkipLayer, SubmodePass, ToBits, LayerBits, LayersBits, Ahead, ProperLayer;
    var z := ToBits(0, 1) + t;
    if ls == [] {
      NoLayers(z);
      ZeroAhead(r, t);
    } else if |ls| == 1 {
      OneLayer(ls, z);
      LayerSkipped(r, ls[0], z);
      ZeroAhead(MovedOn(r, |LayerBits(ls[0])|), t);
    } else {
      TwoLayers(ls, z);
      LayerSkipped(r, ls[0], LayerBits(ls[1]) + z);
      var r2 := MovedOn(r, |LayerBits(ls[0])|);
      LayerSkipped(r2, ls[1], z);
      ZeroAhead(MovedOn(r2, |LayerBits(ls[1])|), t);
    }
  }

  lemma ItemSplit(t: Item, rest: seq<bool>)
    ensures ItemBits(t) + rest == LayersBits(t.layers) + (ToBits(0, 1) + (BodyBits(t.body) + rest))
  {
    hide ToBits, LayersBits, BodyBits;
    var a, z, b := LayersBits(t.layers), ToBits(0, 1), BodyBits(t.body);
    assert (a + (z + b)) + rest == a + (z + (b + rest));
  }

  lemma ItemPass(r: Reader, t: Item, rest: seq<bool>)
    requires Ahead(r, ItemBits(t) + rest) && ProperItem(t)
    ensures Sound(r)
    ensures HeaderPass(r) == (Outcome(t.body), MovedOn(r, |LayersBits(t.layers)| + 1 + Consumed(t.body)))
    ensures Ahead(MovedOn(r, |LayersBits(t.layers)| + 1 + Consumed(t.body)), LeftOver(t.body) + rest)
  {
    hide HeaderPass, SubmodePass, ToBits, LayersBits, BodyBits, Ahead, Outcome, Consumed, LeftOver, ProperBody,
        ProperLayers;
    BodyLength(t.body);
    var b := BodyBits(t.body) + rest;
    ItemSplit(t, rest);
    LayersThenZero(r, t.layers, b);
    BodyPass(MovedOn(r, |LayersBits(t.layers)| + 1), t.body, rest);
  }

  // ---------- the end of a packet ----------

  ghost predicate AtEnd(r: Reader, t: seq<bool>) {
    !r.overflow && r.pos <= |r.s| && r.s[r.pos..] == t
  }

  lemma OnesAhead(r: Reader, n: nat)
    requires Ahead(r, Ones(4)) && n == 4
    ensures Take(r, n) == (15, MovedOn(r, 4))
  {
    assert FromBits([true]) == 2 * FromBits([true][..0]) + 1 == 1;
    assert FromBits([true, true]) == 2 * FromBits([true, true][..1]) + 1 == 3 by { assert [true, true][..1] == [true]; }
    assert FromBits([true, true, true]) == 2 * FromBits([true, true, true][..2]) + 1 == 7 by {
      assert [true, true, true][..2] == [true, true];
    }
    assert FromBits([true, true, true, true]) == 15 by {
      assert [true, true, true, true][..3] == [true, true, true];
    }
    assert Ones(4) == [true, true, true, true];
  }

  lemma FalseBit()
    ensures ToBits(0, 1) == [false]
  {
  }

  // Nothing or a terminator is all that is left: the narrowband part of a pass ends the packet,
  // with too few bits for a submode or with the submode 15.
  lemma TerminatorPass(r: Reader, k: nat)
    requires k < 8 && AtEnd(r, Terminator(k))
    ensures Sound(r) && SubmodePass(Take(r, 1).1).0 == End && Take(r, 1).0 == 0
    ensures HeaderPass(r).0 == End
  {
    var t := Terminator(k);
    if k == 0 {
      assert Take(r, 1) == (0, r.(overflow := true));
    } else {
      FalseBit();
      hide Take, FromBits, ToBits;
      assert Ahead(r, ToBits(0, 1) + Ones(7 - k));
      ZeroAhead(r, Ones(7 - k));
      if k <= 3 {
        assert Ahead(MovedOn(r, 1), Ones(4) + Ones(3 - k)) by { assert Ones(7 - k) == Ones(4) + Ones(3 - k); }
        AheadSplit(MovedOn(r, 1), Ones(4), Ones(3 - k));
        OnesAhead(MovedOn(r, 1), 4);
      }
    }
  }

  lemma EndMoved(r: Reader, t: seq<bool>, rest: seq<bool>)
    requires AtEnd(r, t + rest)
    ensures Ahead(r, t + rest) && AtEnd(MovedOn(r, |t|), rest)
  {
    assert r.s[r.pos + |t|..] == r.s[r.pos..][|t|..];
  }

  // One or two wideband layers may be all that a packet ends with.
  lemma EndPass(r: Reader, ls: seq<Layer>, k: nat)
    requires ProperLayers(ls) && k < 8 && AtEnd(r, LayersBits(ls) + Terminator(k))
    ensures Sound(r) && HeaderPass(r).0 == End
  {
    hide Take, SkipLayer, SubmodePass, ToBits, LayerBits, LayersBits, Ahead, AtEnd, Terminator, ProperLayer;
    var z := Terminator(k);
    EndSound(r, LayersBits(ls) + z);
    if ls == [] {
      NoLayers(z);
      TerminatorPass(r, k);
    } else if |ls| == 1 {
      OneLayer(ls, z);
      EndMoved(r, LayerBits(ls[0]), z);
      LayerSkipped(r, ls[0], z);
      TerminatorPass(MovedOn(r, |LayerBits(ls[0])|), k);
    } else {
      var tail := LayerBits(ls[1]) + z;
      TwoLayers(ls, z);
      EndMoved(r, LayerBits(ls[0]), tail);
      LayerSkipped(r, ls[0], tail);
      var r2 := MovedOn(r, |LayerBits(ls[0])|);
      EndMoved(r2, LayerBits(ls[1]), z);
      LayerSkipped(r2, ls[1], z);
      TerminatorPass(MovedOn(r2, |LayerBits(ls[1])|), k);
    }
  }

  lemma EndSound(r: Reader, t: seq<bool>)
    requires AtEnd(r, t)
    ensures Sound(r) && Left(r) == |t|
  {
  }

  // ---------- whole packets ----------

  // A decoded frame: its submode and the numbers it holds.
  datatype Decoded = Decoded(m: nat, values: seq<nat>)

  // Calling nb_decode until it does not return a frame.
  ghost function ParseAll(r: Reader): (p: (seq<Decoded>, Pass))
    requires Sound(r)
    decreases Measure(r)
  {
    var (p, r1) := HeaderLoop(r);
    if p.Found? then
      var (vs, r2) := TakeAll(r1, Layout(p.m));
      var (frames, end) := ParseAll(r2);
      ([Decoded(p.m, vs)] + frames, end)
    else ([], p)
  }

  ghost function ItemsBits(ts: seq<Item>): seq<bool> {
    if ts == [] then [] else ItemBits(ts[0]) + ItemsBits(ts[1..])
  }

  ghost function Frames(ts: seq<Item>): seq<Decoded> {
    if ts == [] then []
    else (if ts[0].body.Frame? then [Decoded(ts[0].body.m, Values(ts[0].body.fields))] else []) + Frames(ts[1..])
  }

  ghost predicate ProperItems(ts: seq<Item>) {
    forall i :: 0 <= i < |ts| ==> ProperItem(ts[i])
  }

  // Every packet is parsed back into exactly the frames it was packed from, and then ends.
  lemma {:induction false} PacketParsed(r: Reader, ts: seq<Item>, trailing: seq<Layer>, k: nat)
    requires ProperItems(ts) && ProperLayers(trailing) && k < 8
    requires AtEnd(r, ItemsBits(ts) + (LayersBits(trailing) + Terminator(k)))
    ensures Sound(r) && ParseAll(r) == (Frames(ts), End)
    decreases |ts|
  {
    hide HeaderPass, ItemBits, LayersBits, Terminator, FieldBits, TakeAll, Ahead, AtEnd;
    var z := LayersBits(trailing) + Terminator(k);
    EndSound(r, ItemsBits(ts) + z);
    if ts == [] {
      assert ItemsBits(ts) + z == z;
      EndPass(r, trailing, k);
    } else {
      var t, rest := ts[0], ItemsBits(ts[1..]) + z;
      assert ItemsBits(ts) + z == ItemBits(t) + rest;
      ItemStep(r, t, rest);
      PacketParsed(AfterItem(r, t), ts[1..], trailing, k);
    }
  }

  ghost function AfterItem(r: Reader, t: Item): Reader { MovedOn(r, |ItemBits(t)|) }

  lemma ParseFrame(r: Reader, m: nat, r1: Reader)
    requires Sound(r) && m <= 8 && HeaderPass(r) == (Found(m), r1)
    ensures var (vs, r2) := TakeAll(r1, Layout(m));
            ParseAll(r) == ([Decoded(m, vs)] + ParseAll(r2).0, ParseAll(r2).1)
  {
    assert HeaderLoop(r) == (Found(m), r1);
  }

  lemma ParseMessage(r: Reader, r1: Reader)
    requires Sound(r) && HeaderPass(r) == (Again, r1)
    ensures ParseAll(r) == ([] + ParseAll(r1).0, ParseAll(r1).1)
  {
    assert HeaderLoop(r) == HeaderLoop(r1);
    assert [] + ParseAll(r1).0 == ParseAll(r1).0;
  }

  // One item at the head of a packet contributes its frame, if it is one.
  lemma ItemStep(r: Reader, t: Item, rest: seq<bool>)
    requires ProperItem(t) && AtEnd(r, ItemBits(t) + rest)
    ensures Sound(r) && AtEnd(AfterItem(r, t), rest) && Sound(AfterItem(r, t))
    ensures ParseAll(r) == ((if t.body.Frame? then [Decoded(t.body.m, Values(t.body.fields))] else [])
                            + ParseAll(AfterItem(r, t)).0, ParseAll(AfterItem(r, t)).1)
  {
    hide HeaderPass, ParseAll, FieldBits, TakeAll, Ahead, AtEnd, BodyBits, LayersBits, Layout;
    EndMoved(r, ItemBits(t), rest);
    EndSound(r, ItemBits(t) + rest);
    EndSound(AfterItem(r, t), rest);
    ItemPass(r, t, rest);
    var r1 := MovedOn(r, |LayersBits(t.layers)| + 1 + Consumed(t.body));
    BodySplit(t.body);
    assert AfterItem(r, t) == MovedOn(r1, |LeftOver(t.body)|);
    if t.body.Frame? {
      AheadSplit(r1, FieldBits(t.body.fields), rest);
      TakeAllAhead(r1, t.body.fields);
      ParseFrame(r, t.body.m, r1);
    } else {
      ParseMessage(r, r1);
    }
  }

  lemma BodySplit(b: Body)
    ensures Consumed(b) + |LeftOver(b)| == |BodyBits(b)|
  {
  }
}
