/** Packets from end to end: packed field by field, closed by the terminator, read into another
    buffer and parsed until the stream ends. */
module Packets {
  import opened BitString
  import opened BitReader
  import opened Bits
  import opened BitRuns
  import opened Modes
  import opened Framing

  ghost function LayerFields(l: Layer): seq<Field> {
    [Field(1, 1), Field(l.submode, 3)] + l.payload
  }

  ghost function LayersFields(ls: seq<Layer>): seq<Field> {
    if ls == [] then [] else LayerFields(ls[0]) + LayersFields(ls[1..])
  }

  ghost function BodyFields(b: Body): seq<Field> {
    match b
    case Frame(m, fields) => [Field(m, 4)] + fields
    case InbandMessage(id, payload) => [Field(14, 4), Field(id, 4)] + payload
    case UserMessage(size, payload) => [Field(13, 4), Field(size, 4)] + payload
  }

  ghost function ItemFields(t: Item): seq<Field> {
    LayersFields(t.layers) + ([Field(0, 1)] + BodyFields(t.body))
  }

  ghost function ItemsFields(ts: seq<Item>): seq<Field> {
    if ts == [] then [] else ItemFields(ts[0]) + ItemsFields(ts[1..])
  }

  // Everything that is packed, in order.
  ghost function PacketFields(ts: seq<Item>, trailing: seq<Layer>): seq<Field> {
    ItemsFields(ts) + LayersFields(trailing)
  }

  lemma OneField(f: Field)
    ensures FieldBits([f]) == ToBits(f.value, f.width)
  {
    assert FieldBits([f]) == FieldBits([f][..0]) + ToBits(f.value, f.width);
  }

  lemma TwoFields(f: Field, g: Field, rest: seq<Field>)
    ensures FieldBits([f, g] + rest) == ToBits(f.value, f.width) + (ToBits(g.value, g.width) + FieldBits(rest))
  {
    hide FieldBits, ToBits;
    assert [f, g] + rest == [f] + ([g] + rest);
    FieldBitsConcat([f], [g] + rest);
    FieldBitsConcat([g], rest);
    OneField(f);
    OneField(g);
  }

  lemma LayerPacked(l: Layer)
    ensures FieldBits(LayerFields(l)) == LayerBits(l)
  {
    TwoFields(Field(1, 1), Field(l.submode, 3), l.payload);
  }

  lemma {:induction false} LayersPacked(ls: seq<Layer>)
    ensures FieldBits(LayersFields(ls)) == LayersBits(ls)
  {
    if ls != [] {
      LayerPacked(ls[0]);
      LayersPacked(ls[1..]);
      FieldBitsConcat(LayerFields(ls[0]), LayersFields(ls[1..]));
    }
  }

  lemma BodyPacked(b: Body)
    ensures FieldBits(BodyFields(b)) == BodyBits(b)
  {
    hide FieldBits, ToBits;
    match b
    case Frame(m, fields) =>
      OneField(Field(m, 4));
      FieldBitsConcat([Field(m, 4)], fields);
    case InbandMessage(id, payload) =>
      TwoFields(Field(14, 4), Field(id, 4), payload);
    case UserMessage(size, payload) =>
      TwoFields(Field(13, 4), Field(size, 4), payload);
  }

  lemma ItemPacked(t: Item)
    ensures FieldBits(ItemFields(t)) == ItemBits(t)
  {
    hide FieldBits, ToBits, LayersFields, LayersBits, BodyFields, BodyBits;
    LayersPacked(t.layers);
    BodyPacked(t.body);
    OneField(Field(0, 1));
    FieldBitsConcat([Field(0, 1)], BodyFields(t.body));
    FieldBitsConcat(LayersFields(t.layers), [Field(0, 1)] + BodyFields(t.body));
  }

  lemma {:induction false} ItemsPacked(ts: seq<Item>)
    ensures FieldBits(ItemsFields(ts)) == ItemsBits(ts)
  {
    if ts != [] {
      ItemPacked(ts[0]);
      ItemsPacked(ts[1..]);
      FieldBitsConcat(ItemFields(ts[0]), ItemsFields(ts[1..]));
    }
  }

  lemma PacketPacked(ts: seq<Item>, trailing: seq<Layer>)
    ensures FieldBits(PacketFields(ts, trailing)) == ItemsBits(ts) + LayersBits(trailing)
  {
    ItemsPacked(ts);
    LayersPacked(trailing);
    FieldBitsConcat(ItemsFields(ts), LayersFields(trailing));
  }

  lemma LayoutWidths(m: nat)
    requires m <= 8
    ensures forall i :: 0 <= i < |Layout(m)| ==> Layout(m)[i] <= 32
  {
    if m > 0 {
      var s := NbSubmode(m);
      assert Narrow(PreambleWidths(m));
      assert Narrow(SubframeWidths(s));
      hide SubframeWidths, PreambleWidths;
      FourSubframes(s);
    }
  }

  ghost predicate Narrow(ws: seq<nat>) { forall i :: 0 <= i < |ws| ==> ws[i] <= 32 }

  // nb_decode called on one buffer until it returns something else than a frame.
  method DecodePacket(bits: SpeexBits) returns (frames: seq<Decoded>, p: Pass)
    requires bits.Valid()
    modifies bits`charPtr, bits`bitPtr, bits`overflow
    ensures bits.Valid() && (frames, p) == ParseAll(old(bits.View()))
  {
    hide HeaderLoop, TakeAll, Layout, BitsOf;
    ghost var start := bits.View();
    frames := [];
    p := FindFrame(bits);
    ghost var r := start;
    assert [] + ParseAll(r).0 == ParseAll(r).0;
    while p.Found?
      invariant bits.Valid() && Sound(r) && (p, bits.View()) == HeaderLoop(r)
      invariant ParseAll(start) == (frames + ParseAll(r).0, ParseAll(r).1)
      decreases Measure(r)
    {
      LayoutWidths(p.m);
      ghost var before := frames;
      var values := UnpackFields(bits, Layout(p.m));
      frames := frames + [Decoded(p.m, values)];
      ghost var next := bits.View();
      assert before + ([Decoded(p.m, values)] + ParseAll(next).0) == frames + ParseAll(next).0;
      p := FindFrame(bits);
      r := next;
    }
    assert frames + [] == frames;
  }

  // The frames of any packet arrive unchanged, and nothing else does.
  method Deliver(ghost ts: seq<Item>, ghost trailing: seq<Layer>, fields: seq<Field>)
    returns (frames: seq<Decoded>, p: Pass)
    requires ProperItems(ts) && ProperLayers(trailing) && fields == PacketFields(ts, trailing)
    requires forall i :: 0 <= i < |fields| ==> fields[i].width <= 32
    ensures frames == Frames(ts) && p == End
  {
    hide BitsOf, FieldBits, Terminator, ParseAll, ItemsBits, LayersBits, PacketFields;
    var packet := Send(fields);
    var bits := new SpeexBits.Init();
    bits.ReadFrom(packet, packet.Length, true);
    assert packet[..packet.Length] == packet[..];
    Arrived(bits.View(), ts, trailing);
    frames, p := DecodePacket(bits);
  }

  lemma Arrived(r: Reader, ts: seq<Item>, trailing: seq<Layer>)
    requires ProperItems(ts) && ProperLayers(trailing) && r.pos == 0 && !r.overflow
    requires var packed := FieldBits(PacketFields(ts, trailing)); r.s == packed + Terminator(|packed| % 8)
    ensures Sound(r) && ParseAll(r) == (Frames(ts), End)
  {
    hide FieldBits, Terminator, ParseAll, ItemsBits, LayersBits, PacketFields;
    PacketPacked(ts, trailing);
    var a, b, k := ItemsBits(ts), LayersBits(trailing), |ItemsBits(ts) + LayersBits(trailing)| % 8;
    assert r.s[0..] == a + (b + Terminator(k));
    PacketParsed(r, ts, trailing, k);
  }
}
