/** A frame from the encoder to the decoder: encoded, written as a packet, read, found and decoded. */
module NbSession {
  import opened BitString
  import opened BitReader
  import opened Bits
  import opened BitRuns
  import opened Modes
  import opened Framing
  import opened QuantLsp
  import opened NbSpec
  import opened Lockstep
  import opened NbEncoder
  import opened NbDecoder
  import W = NbWire
  import P = Packets

  // They are the bits of a packet item without wideband layers.
  lemma WireIsItem(t: Tables, m: nat, p: Params)
    requires IsCoded(m) && AreTables(t) && ProperParams(t, m, p)
    ensures var item := Item([], Frame(m, W.FrameFields(t, m, p)));
            ProperItem(item) && W.WireBits(t, m, p) == ItemBits(item)
  {
    hide FieldBits, ToBits, Fit, Widths, Layout, ItemBits, W.FrameFields;
    W.FrameLayout(t, m, p);
    HeadBits(m, W.FrameFields(t, m, p));
  }

  lemma HeadBits(m: nat, fields: seq<Field>)
    ensures FieldBits([Field(0, 1), Field(m, 4)]) + FieldBits(fields) == ItemBits(Item([], Frame(m, fields)))
  {
    hide FieldBits, ToBits;
    P.TwoFields(Field(0, 1), Field(m, 4), []);
    assert [Field(0, 1), Field(m, 4)] + [] == [Field(0, 1), Field(m, 4)];
    W.NoFieldBits();
    Heads(ToBits(0, 1), ToBits(m, 4), FieldBits(fields));
  }

  lemma Heads(z: seq<bool>, h: seq<bool>, f: seq<bool>)
    ensures (z + (h + [])) + f == [] + (z + (h + f))
  {
  }

  // The header loop finds the frame at once, and its numbers are read back.
  lemma WireParsed(t: Tables, m: nat, p: Params, r: Reader, rest: seq<bool>)
    requires IsCoded(m) && AreTables(t) && ProperParams(t, m, p) && Ahead(r, W.WireBits(t, m, p) + rest)
    ensures Sound(r) && HeaderLoop(r) == (Found(m), MovedOn(r, 5))
    ensures W.TakeFrame(t, m, MovedOn(r, 5)).0 == p
  {
    WireIsItem(t, m, p);
    var item := Item([], Frame(m, W.FrameFields(t, m, p)));
    hide FieldBits, Ahead, ItemBits, W.WireBits, ProperParams;
    FirstItem(r, item, rest);
    W.FrameAhead(t, m, MovedOn(r, 5), p, rest);
  }

  lemma FirstItem(r: Reader, item: Item, rest: seq<bool>)
    requires item.layers == [] && item.body.Frame? && ProperItem(item) && Ahead(r, ItemBits(item) + rest)
    ensures Sound(r) && HeaderLoop(r) == (Found(item.body.m), MovedOn(r, 5))
    ensures Ahead(MovedOn(r, 5), FieldBits(item.body.fields) + rest)
  {
    hide FieldBits, Ahead, ItemBits, HeaderPass;
    ItemPass(r, item, rest);
  }

  // The indices of the frame are those that the searches choose, and the spectra lead in four steps to
  // the one they stand for: from the spectrum before it, or from itself in the first frame.
  ghost predicate Encodes(t: Tables, e: EncState, y: Input, interps: seq<seq<int>>)
    requires AreTables(t) && ProperInput(t, e.bounded, y) && IsEncState(e)
  {
    ProperParts(t, e.bounded, y);
    var q := EncQlsp(t, y);
    && ChosenIds(t, y.m, y.lsp, y.ids) && |interps| == NB_NB_SUBFRAMES && interps[3] == q
    && (Is16(e.oldQlsp) ==> OnTheLine(FromQlsp(e.first, e.oldQlsp, q), q, interps))
  }

  // The packet of a frame.
  method SendFrame(enc: Encoder, x: Input)
                   returns (packet: array<bv8>, y: Input, interps: seq<seq<int>>)
    requires enc.Valid() && ProperInput(enc.t, enc.boundedPitch, x)
    modifies enc, enc.excBuf, enc.oldQlsp
    ensures enc.Valid() && y == x.(ids := y.ids) && ProperInput(enc.t, old(enc.boundedPitch), y)
    ensures enc.State() == EncFrame(enc.t, old(enc.State()), y) && interps == EncInterps(enc.t, old(enc.State()), y)
    ensures Encodes(enc.t, old(enc.State()), y, interps)
    ensures fresh(packet) && IsCoded(x.m)
    ensures var wire := W.WireBits(enc.t, x.m, SentParams(old(enc.boundedPitch), y));
            BitsOf(packet[..], 8 * packet.Length) == wire + Terminator(|wire| % 8)
  {
    hide BitsOf, FieldBits, ClearFrom, ProperInput, EncFrame, EncInterps, Terminator, W.WireBits, AreTables, ChosenIds,
        OnTheLine, Is16, EncQlsp;
    assert IsCoded(x.m) && |x.choices| == NB_NB_SUBFRAMES by { ProperParts(enc.t, enc.boundedPitch, x); }
    var bits := new SpeexBits.Init();
    y, interps := enc.EncodeFrame(bits, x);
    ghost var wire := W.WireBits(enc.t, x.m, SentParams(old(enc.boundedPitch), y));
    assert [] + wire == wire;
    ghost var e := enc.State();
    packet := WritePacket(bits);
    assert enc.State() == e;
  }

  // A packet in a bit buffer of its own, with everything ahead.
  method Load(packet: array<bv8>) returns (bits: SpeexBits)
    ensures bits.Valid() && fresh(bits) && fresh(bits.chars)
    ensures Ahead(bits.View(), BitsOf(packet[..], 8 * packet.Length))
  {
    hide BitsOf;
    bits := new SpeexBits.Init();
    bits.ReadFrom(packet, packet.Length, true);
    assert packet[..packet.Length] == packet[..];
  }

  // The packet on the other side.
  method ReceiveFrame(dec: Decoder, packet: array<bv8>, ghost m: nat, ghost p: Params) returns (interps: seq<seq<int>>)
    requires dec.Valid() && IsCoded(m) && ProperParams(dec.t, m, p)
    requires exists rest :: BitsOf(packet[..], 8 * packet.Length) == W.WireBits(dec.t, m, p) + rest
    modifies dec, dec.excBuf, dec.oldQlsp
    ensures dec.Valid() && dec.State() == DecFrame(dec.t, old(dec.State()), m, p)
    ensures interps == DecInterps(dec.t, old(dec.State()), m, p)
  {
    hide BitsOf, W.WireBits, HeaderLoop, ProperParams, DecFrame, DecInterps, FromBits;
    ghost var rest :| BitsOf(packet[..], 8 * packet.Length) == W.WireBits(dec.t, m, p) + rest;
    var bits := Load(packet);
    WireParsed(dec.t, m, p, bits.View(), rest);
    var found := FindFrame(bits);
    ghost var q;
    q, interps := dec.DecodeFrame(bits, found.m);
  }

  // Encoder and decoder that agree still agree after a frame has gone over the wire, if it
  // fits; and the decoder interpolates the spectra that the encoder did.
  method ExchangeFrame(enc: Encoder, dec: Decoder, x: Input)
                       returns (y: Input, sent: seq<seq<int>>, received: seq<seq<int>>)
    requires enc.Valid() && dec.Valid() && enc.t == dec.t
    requires {enc.excBuf, enc.oldQlsp} !! {dec.excBuf, dec.oldQlsp}
    requires ProperInput(enc.t, enc.boundedPitch, x)
    modifies enc, enc.excBuf, enc.oldQlsp, dec, dec.excBuf, dec.oldQlsp
    ensures enc.Valid() && dec.Valid() && y == x.(ids := y.ids) && ProperInput(enc.t, old(enc.boundedPitch), y)
    ensures enc.State() == EncFrame(enc.t, old(enc.State()), y) && Encodes(enc.t, old(enc.State()), y, sent)
    ensures old(Agree(enc.State(), dec.State())) && FrameFits(enc.t, old(enc.State()), y) ==>
            Agree(enc.State(), dec.State()) && sent == received
  {
    hide BitsOf, W.WireBits, ProperInput, AreTables, EncFrame, EncInterps, DecFrame, DecInterps, Agree, FrameFits,
        Encodes,
        ProperParams;
    assert IsCoded(x.m) && |x.choices| == NB_NB_SUBFRAMES by { ProperParts(enc.t, enc.boundedPitch, x); }
    ghost var e, d := enc.State(), dec.State();
    var packet;
    packet, y, sent := SendFrame(enc, x);
    SentIsProper(enc.t, e.bounded, y);
    ghost var p := SentParams(e.bounded, y);
    assert dec.State() == d;
    received := ReceiveFrame(dec, packet, x.m, p);
    if Agree(e, d) && FrameFits(enc.t, e, y) {
      FrameAgrees(enc.t, e, d, y);
    }
  }

  // ---------- whole runs ----------

  // Only the first frame after a reset has its pitch search confined to the frame.
  ghost predicate AllProper(t: Tables, bounded: bool, xs: seq<Input>)
    requires AreTables(t)
  {
    forall i :: 0 <= i < |xs| ==> ProperInput(t, bounded && i == 0, xs[i])
  }

  lemma {:induction false} OneMoreFrame(t: Tables, e: EncState, xs: seq<Input>, x: Input)
    requires AreTables(t) && IsEncState(e) && ProperRun(t, e, xs) && ProperInput(t, EncRun(t, e, xs).bounded, x)
    ensures ProperRun(t, e, xs + [x]) && EncRun(t, e, xs + [x]) == EncFrame(t, EncRun(t, e, xs), x)
    ensures RunFits(t, e, xs + [x]) <==> RunFits(t, e, xs) && FrameFits(t, EncRun(t, e, xs), x)
    decreases |xs|
  {
    hide EncFrame, FrameFits, ProperInput, AreTables;
    if xs == [] {
      assert (xs + [x])[1..] == [];
    } else {
      assert (xs + [x])[0] == xs[0] && (xs + [x])[1..] == xs[1..] + [x];
      OneMoreFrame(t, EncFrame(t, e, xs[0]), xs[1..], x);
    }
  }

  // The frame has the indices that the searches choose, and its last spectrum is what they stand for.
  ghost predicate Chosen(t: Tables, y: Input, s: seq<seq<int>>)
    requires AreTables(t)
  {
    && IsCoded(y.m) && |y.lsp| == ORDER && AreIds(y.ids, LspStageCount(y.m)) && ChosenIds(t, y.m, y.lsp, y.ids)
    && |s| == NB_NB_SUBFRAMES && s[3] == EncQlsp(t, y)
  }

  // The spectra of a frame take up where those of the frame before it have ended.
  ghost predicate Follows(prev: seq<seq<int>>, s: seq<seq<int>>) {
    |prev| == |s| == NB_NB_SUBFRAMES && |prev[3]| == |s[3]| == ORDER && OnTheLine(prev[3], s[3], s)
  }

  // The state of the encoder that the spectra of the last frame have led to.
  ghost predicate EndsWith(e: EncState, s: seq<seq<int>>) {
    |s| == NB_NB_SUBFRAMES && |s[3]| == ORDER && e.oldQlsp == s[3] && Is16(s[3]) && !e.first && !e.bounded
  }

  lemma FrameDone(t: Tables, e: EncState, y: Input, s: seq<seq<int>>)
    requires AreTables(t) && ProperInput(t, e.bounded, y) && IsEncState(e) && Encodes(t, e, y, s)
    ensures Chosen(t, y, s) && EndsWith(EncFrame(t, e, y), s)
    ensures forall prev :: EndsWith(e, prev) ==> Follows(prev, s)
  {
    hide ChosenIds, OnTheLine, Is16, EncQlsp;
    EncQlspIs16(t, e.bounded, y);
  }

  // Any run of frames over the wire, one packet each: as long as the frames fit, the two objects
  // are in agreement at the end, and every spectrum was interpolated alike.
  method ExchangeRun(enc: Encoder, dec: Decoder, xs: seq<Input>)
                     returns (ys: seq<Input>, sent: seq<seq<seq<int>>>, received: seq<seq<seq<int>>>)
    requires enc.Valid() && dec.Valid() && enc.t == dec.t && Agree(enc.State(), dec.State())
    requires {enc.excBuf, enc.oldQlsp} !! {dec.excBuf, dec.oldQlsp}
    requires AllProper(enc.t, enc.boundedPitch, xs)
    modifies enc, enc.excBuf, enc.oldQlsp, dec, dec.excBuf, dec.oldQlsp
    ensures enc.Valid() && dec.Valid() && |ys| == |xs| && forall i :: 0 <= i < |xs| ==>
            ys[i] == xs[i].(ids := ys[i].ids)
    ensures ProperRun(enc.t, old(enc.State()), ys) && enc.State() == EncRun(enc.t, old(enc.State()), ys)
    ensures RunFits(enc.t, old(enc.State()), ys) ==> Agree(enc.State(), dec.State()) && sent == received
    ensures |sent| == |xs| && forall k :: 0 <= k < |xs| ==> Chosen(enc.t, ys[k], sent[k])
    ensures forall k :: 0 < k < |xs| ==> Follows(sent[k - 1], sent[k])
  {
    hide EncFrame, FrameFits, ProperInput, AreTables, Agree, Encodes, Chosen, Follows, EndsWith;
    ghost var start := enc.State();
    ys, sent, received := [], [], [];
    for i := 0 to |xs|
      invariant enc.Valid() && dec.Valid() && |ys| == i && enc.boundedPitch == (start.bounded && i == 0)
      invariant forall k :: 0 <= k < i ==> ys[k] == xs[k].(ids := ys[k].ids)
      invariant ProperRun(enc.t, start, ys) && enc.State() == EncRun(enc.t, start, ys)
      invariant RunFits(enc.t, start, ys) ==> Agree(enc.State(), dec.State()) && sent == received
      invariant |sent| == i && forall k :: 0 <= k < i ==> Chosen(enc.t, ys[k], sent[k])
      invariant forall k :: 0 < k < i ==> Follows(sent[k - 1], sent[k])
      invariant i > 0 ==> EndsWith(enc.State(), sent[i - 1])
    {
      ghost var e := enc.State();
      var y, s, r := ExchangeFrame(enc, dec, xs[i]);
      OneMoreFrame(enc.t, start, ys, y);
      FrameDone(enc.t, e, y, s);
      NotBounded(enc.t, e, y);
      ys, sent, received := ys + [y], sent + [s], received + [r];
    }
  }

  lemma NotBounded(t: Tables, e: EncState, x: Input)
    requires AreTables(t) && ProperInput(t, e.bounded, x) && IsEncState(e)
    ensures !EncFrame(t, e, x).bounded
  {
  }

  // An encoder and a decoder, both new, and a packet for every frame.
  method Session(t: Tables, xs: seq<Input>)
                 returns (ys: seq<Input>, sent: seq<seq<seq<int>>>, received: seq<seq<seq<int>>>)
    requires AreTables(t) && AllProper(t, true, xs)
    ensures |ys| == |xs| && forall i :: 0 <= i < |xs| ==> ys[i] == xs[i].(ids := ys[i].ids)
    ensures ProperRun(t, EncInit(), ys) && (RunFits(t, EncInit(), ys) ==> sent == received)
    ensures |sent| == |xs| && forall k :: 0 <= k < |xs| ==> Chosen(t, ys[k], sent[k])
    ensures forall k :: 0 < k < |xs| ==> Follows(sent[k - 1], sent[k])
  {
    hide AllProper, ProperRun, RunFits, AreTables, Agree, Chosen, Follows;
    InitAgrees();
    var enc := new Encoder(t);
    assert enc.State() == EncInit();
    var dec := new Decoder(t);
    assert dec.State() == DecInit();
    assert enc.State() == EncInit() && enc.boundedPitch;
    ys, sent, received := ExchangeRun(enc, dec, xs);
  }
}
