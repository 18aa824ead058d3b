/** Whole runs over bit buffers: what is packed is what is unpacked, also when the bytes
    leave the writer piece by piece. */
module BitRuns {
  import opened BitString
  import opened BitReader
  import opened Bits

  lemma Pow2Step(n: nat)
    ensures Pow2(n) == if n == 0 then 1 else 2 * Pow2(n - 1)
  {
  }

  lemma {:induction false} Pow2Add(a: nat, b: nat)
    ensures Pow2(a + b) == Pow2(a) * Pow2(b)
  {
    hide Pow2;
    if a == 0 {
      Pow2Step(0);
    } else {
      Pow2Add(a - 1, b);
      Pow2Step(a);
      Pow2Step(a + b);
      Regroup(2, Pow2(a - 1), Pow2(b));
    }
  }

  lemma WordSize()
    ensures Pow2(32) == 0x1_0000_0000
  {
    assert Pow2(8) == 256;
    Pow2Add(8, 8);
    Pow2Add(16, 16);
  }

  // 2^32 is a multiple of 2^n.
  lemma WordMultiple(n: nat)
    requires n <= 32
    ensures Pow2(32 - n) * Pow2(n) == 0x1_0000_0000
  {
    Pow2Add(32 - n, n);
    WordSize();
  }

  // The conversion to a 32-bit word keeps the bits that are packed.
  lemma WordBits(v: nat, n: nat)
    requires n <= 32
    ensures ToBits(Unsigned(v), n) == ToBits(v, n)
  {
    hide Pow2, ToBits;
    var q := v / 0x1_0000_0000;
    WordMultiple(n);
    Regroup(q, Pow2(32 - n), Pow2(n));
    LowBits(Unsigned(v), n, q * Pow2(32 - n));
  }

  lemma Regroup(a: int, b: int, c: int)
    ensures a * b * c == a * (b * c)
  {
  }

  // A negative number packed in n bits is read as 2^n more.
  lemma NegativeBits(v: int, n: nat)
    requires n <= 32 && 0 <= Pow2(n) + v && v < 0
    ensures ToBits(Unsigned(v), n) == ToBits(Pow2(n) + v, n)
  {
    hide Pow2, ToBits, Unsigned;
    var k, p := Pow2(32 - n), Pow2(n);
    assert Unsigned(v) == p + v + (k - 1) * p by {
      WordMultiple(n);
      Wrapped(v, k, p);
    }
    LowBits(p + v, n, k - 1);
  }

  lemma Wrapped(v: int, k: nat, p: nat)
    requires k > 0 && k * p == 0x1_0000_0000 && 0 <= p + v && v < 0
    ensures Unsigned(v) == p + v + (k - 1) * p
  {
    assert (k - 1) * p == k * p - p;
    assert k * p >= p by { if k > 1 { assert (k - 1) * p >= 0; } }
  }

  // Two's complement numbers survive packing and unpacking.
  lemma SignedRoundTrip(v: int, n: nat)
    requires 0 < n < 32 && 0 <= Pow2(n - 1) + v && v < Pow2(n - 1)
    ensures Signed(FromBits(ToBits(Unsigned(v), n)), n) == v
  {
    if v < 0 {
      NegativeBits(v, n);
      ValueOfBits(Pow2(n) + v, n);
    } else {
      WordBits(v, n);
      ValueOfBits(v, n);
    }
  }

  ghost predicate Packable(fs: seq<Field>) {
    Fit(fs) && forall i :: 0 <= i < |fs| ==> fs[i].width <= 32
  }

  method PackFields(bits: SpeexBits, fs: seq<Field>)
    requires bits.Writing() && bits.owner && forall i :: 0 <= i < |fs| ==> fs[i].width <= 32
    modifies bits, bits.chars
    ensures bits.Writing() && bits.overflow == old(bits.overflow)
    ensures bits.Contents() == old(bits.Contents()) + FieldBits(fs)
    ensures bits.chars == old(bits.chars) || fresh(bits.chars)
  {
    hide ToBits, BitsOf, ClearFrom;
    ghost var was := bits.Contents();
    NoFields(was, fs);
    for i := 0 to |fs|
      invariant bits.Writing() && bits.overflow == old(bits.overflow)
      invariant bits.Contents() == was + FieldBits(fs[..i])
      invariant bits.chars == old(bits.chars) || fresh(bits.chars)
    {
      OneMoreField(was, fs, i);
      WordBits(fs[i].value, fs[i].width);
      bits.Pack(fs[i].value, fs[i].width, true);
    }
    assert fs[..|fs|] == fs;
  }

  lemma NoFields(was: seq<bool>, fs: seq<Field>)
    ensures was + FieldBits(fs[..0]) == was
  {
  }

  lemma OneMoreField(was: seq<bool>, fs: seq<Field>, i: nat)
    requires i < |fs|
    ensures was + FieldBits(fs[..i + 1]) == was + FieldBits(fs[..i]) + ToBits(fs[i].value, fs[i].width)
  {
    assert fs[..i + 1][..i] == fs[..i];
  }

  method UnpackFields(bits: SpeexBits, widths: seq<nat>) returns (vs: seq<nat>)
    requires bits.Valid() && forall i :: 0 <= i < |widths| ==> widths[i] <= 32
    modifies bits`charPtr, bits`bitPtr, bits`overflow
    ensures bits.Valid() && (vs, bits.View()) == TakeAll(old(bits.View()), widths)
  {
    ghost var start := bits.View();
    vs := [];
    for i := 0 to |widths|
      invariant bits.Valid() && (vs, bits.View()) == TakeAll(start, widths[..i])
    {
      TakeOneMore(start, widths[..i], widths[i]);
      assert widths[..i + 1] == widths[..i] + [widths[i]];
      var v := bits.UnpackUnsigned(widths[i]);
      vs := vs + [v];
    }
    assert widths[..|widths|] == widths;
  }

  // speex_bits_write into a buffer of the right size.
  method WritePacket(bits: SpeexBits) returns (packet: array<bv8>)
    requires bits.Writing() && bits.owner
    modifies bits, bits.chars
    ensures fresh(packet) && packet.Length == (|old(bits.Contents())| + 7) / 8
    ensures BitsOf(packet[..], 8 * packet.Length) == old(bits.Contents()) + Terminator(|old(bits.Contents())| % 8)
  {
    hide BitsOf, Terminator, ClearFrom;
    var size := bits.Nbytes();
    packet := new bv8[size];
    ghost var padded := bits.Contents() + Terminator(bits.bitPtr);
    assert |padded| == 8 * size && bits.bitPtr == |bits.Contents()| % 8;
    var n := bits.Write(packet, size, true);
    assert packet[..n] == packet[..] && padded[..8 * n] == padded;
  }

  // A packet: the fields packed into a fresh buffer and written out.
  method Send(fs: seq<Field>) returns (packet: array<bv8>)
    requires forall i :: 0 <= i < |fs| ==> fs[i].width <= 32
    ensures fresh(packet) && packet.Length == (|FieldBits(fs)| + 7) / 8
    ensures BitsOf(packet[..], 8 * packet.Length) == FieldBits(fs) + Terminator(|FieldBits(fs)| % 8)
  {
    hide BitsOf, FieldBits, Terminator, ClearFrom;
    var bits := new SpeexBits.Init();
    PackFields(bits, fs);
    assert [] + FieldBits(fs) == FieldBits(fs);
    packet := WritePacket(bits);
  }

  // The packet read into another buffer and unpacked.
  method Transfer(fs: seq<Field>) returns (vs: seq<nat>)
    requires Packable(fs)
    ensures vs == Values(fs)
  {
    hide BitsOf, FieldBits, Terminator;
    var packet := Send(fs);
    var bits := new SpeexBits.Init();
    bits.ReadFrom(packet, packet.Length, true);
    assert packet[..packet.Length] == packet[..];
    Delivered(bits.View(), fs);
    var widths := seq(|fs|, i requires 0 <= i < |fs| => fs[i].width);
    vs := UnpackFields(bits, widths);
  }

  // After a rewind the same numbers come again, also when the first reading ran over the end.
  method ReadTwice(packet: array<bv8>, widths: seq<nat>) returns (first: seq<nat>, second: seq<nat>)
    requires forall i :: 0 <= i < |widths| ==> widths[i] <= 32
    ensures first == second == TakeAll(Reader(BitsOf(packet[..], 8 * packet.Length), 0, false), widths).0
  {
    hide BitsOf, TakeAll;
    var bits := new SpeexBits.Init();
    bits.ReadFrom(packet, packet.Length, true);
    assert packet[..packet.Length] == packet[..];
    first := UnpackFields(bits, widths);
    bits.Rewind();
    second := UnpackFields(bits, widths);
  }

  // Three bits in a buffer of one byte that is not the packer's own: the padding of
  // speex_bits_insert_terminator never comes to its end, however many passes it is given.
  method PadFullBuffer(data: int, limit: nat, canGrow: bool) returns (stuck: bool, passes: nat)
    ensures stuck && passes == limit
  {
    hide BitsOf, ToBits, ClearFrom, Terminator;
    var buff := new bv8[1];
    var bits := new SpeexBits.InitBuffer(buff);
    bits.Pack(data, 3, canGrow);
    passes := bits.InsertTerminatorWithin(limit, canGrow);
    stuck := bits.bitPtr != 0;
  }

  lemma Delivered(r: Reader, fs: seq<Field>)
    requires r.pos == 0 && !r.overflow && r.s == FieldBits(fs) + Terminator(|FieldBits(fs)| % 8) && Fit(fs)
    ensures TakeAll(r, Widths(fs)).0 == Values(fs)
  {
    TakeAllAhead(r, fs);
  }

  ghost function Flat(chunks: seq<seq<Field>>): seq<Field> {
    if chunks == [] then [] else Flat(chunks[..|chunks| - 1]) + chunks[|chunks| - 1]
  }

  // Packing chunk after chunk, with all whole bytes taken out after each of them, gives
  // the bytes and the remainder of one long packing.
  method StreamOut(bits: SpeexBits, chunks: seq<seq<Field>>) returns (out: seq<bv8>)
    requires bits.Writing() && bits.owner && bits.Contents() == []
    requires forall i, j :: 0 <= i < |chunks| && 0 <= j < |chunks[i]| ==> chunks[i][j].width <= 32
    modifies bits, bits.chars
    ensures bits.Writing() && |bits.Contents()| < 8
    ensures BitsOf(out, 8 * |out|) + bits.Contents() == FieldBits(Flat(chunks))
  {
    hide BitsOf, ClearFrom, FieldBits, Flat, ToBits;
    out := [];
    NothingOut();
    for i := 0 to |chunks|
      invariant bits.Writing() && |bits.Contents()| < 8
      invariant BitsOf(out, 8 * |out|) + bits.Contents() == FieldBits(Flat(chunks[..i]))
      invariant bits.chars == old(bits.chars) || fresh(bits.chars)
    {
      ghost var before, pending := out, bits.Contents();
      PackFields(bits, chunks[i]);
      var size := bits.nbBits / 8;
      var dest := new bv8[size];
      ghost var all := bits.Contents();
      var n := bits.WriteWholeBytes(dest, size);
      out := out + dest[..n];
      BytesOut(before, dest[..n], all, bits.Contents(), pending, chunks, i);
    }
    assert chunks[..|chunks|] == chunks;
  }

  lemma NothingOut()
    ensures BitsOf([], 0) + [] == FieldBits(Flat([]))
  {
  }

  lemma BytesOut(before: seq<bv8>, bytes: seq<bv8>, all: seq<bool>, rest: seq<bool>, pending: seq<bool>,
                 chunks: seq<seq<Field>>, i: nat)
    requires i < |chunks| && BitsOf(before, 8 * |before|) + pending == FieldBits(Flat(chunks[..i]))
    requires all == pending + FieldBits(chunks[i])
    requires 8 * |bytes| <= |all| && BitsOf(bytes, 8 * |bytes|) == all[..8 * |bytes|] && rest == all[8 * |bytes|..]
    ensures BitsOf(before + bytes, 8 * |before + bytes|) + rest == FieldBits(Flat(chunks[..i + 1]))
  {
    hide FieldBits, BitsOf, Flat;
    BytesAppended(before + bytes, before + bytes, bytes, |before|);
    BitsLocal(before + bytes, before, 8 * |before|);
    FlatStep(chunks, i);
    FieldBitsConcat(Flat(chunks[..i]), chunks[i]);
    var a, b, c := BitsOf(before, 8 * |before|), BitsOf(bytes, 8 * |bytes|), FieldBits(chunks[i]);
    calc {
      (a + b) + rest;
      a + (b + rest);
    == { assert b + rest == all; }
      a + (pending + c);
      (a + pending) + c;
    }
  }

  lemma FlatStep(chunks: seq<seq<Field>>, i: nat)
    requires i < |chunks|
    ensures Flat(chunks[..i + 1]) == Flat(chunks[..i]) + chunks[i]
  {
    assert chunks[..i + 1][..i] == chunks[..i];
  }
}
