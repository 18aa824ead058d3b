/** The part of nb_encode that the bits depend on, for a frame of submode 2 to 7: every search
    is replaced by the choice it came to. */
module NbEncoder {
  import opened Fixed
  import opened BitString
  import opened BitReader
  import opened Bits
  import opened BitRuns
  import opened Modes
  import opened Ltp
  import opened Innovation
  import opened LspStages
  import opened QuantLsp
  import opened NbSpec
  import opened NbWire
  import opened NbExc
  import NbDecoder

  // Index of st->exc in st->excBuf, and the size of the buffer.
  const EXC := NB_PITCH_END + 2
  const SIZE := NB_FRAME_SIZE + NB_PITCH_END + 2

  class Encoder {
    const t: Tables
    const excBuf: array<int>
    const oldQlsp: array<int>
    var first: bool
    var boundedPitch: bool

    ghost predicate Valid()
      reads this
    {
      AreTables(t) && excBuf.Length == SIZE && oldQlsp.Length == ORDER && excBuf != oldQlsp
    }

    ghost function State(): (e: EncState)
      requires Valid()
      reads this, excBuf, oldQlsp
      ensures IsEncState(e)
    {
      EncState(excBuf[NB_FRAME_SIZE..SIZE], oldQlsp[..], first, boundedPitch)
    }

    ghost predicate Apart(bits: SpeexBits)
      reads this, bits
    {
      (excBuf as object) != bits.chars && (oldQlsp as object) != bits.chars
    }

    constructor (t: Tables)
      requires AreTables(t)
      ensures Valid() && this.t == t && fresh(excBuf) && fresh(oldQlsp)
      ensures State() == EncState(seq(HISTORY, _ => 0), seq(ORDER, _ => 0), true, true)
    {
      this.t := t;
      first, boundedPitch := true, true;
      excBuf := new int[SIZE](_ => 0);
      oldQlsp := new int[ORDER](_ => 0);
    }

    // pitch_search_3tap, from the result of its search on.
    method PitchSearch3Tap(bits: SpeexBits, m: nat, at: nat, start: nat, end: int, c: Choice, exc32: array<int>,
                           ghost h: seq<int>)
      requires Valid() && Apart(bits) && bits.Writing() && bits.owner && IsCoded(m) && ProperSub(t, m, c.sub)
      requires start <= end ==> start <= c.pitch <= end <= NB_PITCH_END && 0 < c.pitch
      requires Past(excBuf[..], at, h) && exc32.Length == NB_SUBFRAME_SIZE && exc32 != excBuf
      requires (exc32 as object) != bits.chars
      modifies bits, bits.chars, exc32
      ensures bits.Writing() && bits.overflow == old(bits.overflow)
              && (bits.chars == old(bits.chars) || fresh(bits.chars))
      ensures bits.Contents() == old(bits.Contents())
        + FieldBits([Field(if end < start then 0 else c.pitch - start, NbSubmode(m).ltp.pitchBits),
                     Field(if end < start then 0 else c.sub.gain, NbSubmode(m).ltp.gainBits)])
      ensures |h| == HISTORY && 4 * c.sub.gain + 2 < |GainBook(t, m)|
      ensures exc32[..] == if end < start then Silence() else Adaptive(h, c.pitch, GainBook(t, m), c.sub.gain)
    {
      hide BitsOf, FieldBits, ClearFrom, Adaptive;
      var pitch, gain := 0, 0;
      if end < start {
        Clear(exc32, 0);
        assert exc32[..] == Silence();
      } else {
        PitchGainExcitation(excBuf, at, exc32, c.pitch, GainBook(t, m), c.sub.gain, h);
        pitch, gain := c.pitch - start, c.sub.gain;
      }
      ghost var e := exc32[..];
      PackFields(bits, [Field(pitch, NbSubmode(m).ltp.pitchBits), Field(gain, NbSubmode(m).ltp.gainBits)]);
      assert exc32[..] == e;
    }

    method SendEnergy(bits: SpeexBits, m: nat, qe: nat, olGain: int) returns (ener: int)
      requires Valid() && bits.Writing() && bits.owner && IsCoded(m)
      requires qe < (if NbSubmode(m).haveSubframeGain == 3 then 8 else if NbSubmode(m).haveSubframeGain == 1 then 2
               else 1)
      modifies bits, bits.chars
      ensures bits.Writing() && bits.overflow == old(bits.overflow)
              && (bits.chars == old(bits.chars) || fresh(bits.chars))
      ensures bits.Contents() == old(bits.Contents())
        + FieldBits(if NbSubmode(m).haveSubframeGain > 0 then [Field(qe, NbSubmode(m).haveSubframeGain)] else [])
      ensures ener == Energy(t, m, qe, olGain)
    {
      hide BitsOf, FieldBits, ClearFrom;
      NoFieldBits();
      if NbSubmode(m).haveSubframeGain == 3 {
        PackFields(bits, [Field(qe, 3)]);
        ener := Mult16_32_Q14(t.scal3[qe], olGain);
      } else if NbSubmode(m).haveSubframeGain == 1 {
        PackFields(bits, [Field(qe, 1)]);
        ener := Mult16_32_Q14(t.scal1[qe], olGain);
      } else {
        ener := olGain;
      }
    }

    // One codebook search, from its result on, and the scaled contribution.
    method SendShapes(bits: SpeexBits, m: nat, inds: seq<nat>, scale: int) returns (innov: array<int>)
      requires Valid() && bits.Writing() && bits.owner && IsCoded(m) && ProperShapes(Book(t, m), inds)
      modifies bits, bits.chars
      ensures bits.Writing() && bits.overflow == old(bits.overflow)
              && (bits.chars == old(bits.chars) || fresh(bits.chars))
      ensures bits.Contents() == old(bits.Contents()) + FieldBits(IndexFields(Book(t, m), inds))
      ensures fresh(innov) && innov.Length == NB_SUBFRAME_SIZE && (innov as object) != bits.chars
      ensures forall k :: 0 <= k < NB_SUBFRAME_SIZE ==> innov[k] == Scaled(Shape40(t, m, inds)[k], scale)
    {
      hide BitsOf, FieldBits, ClearFrom, Excitation, Scaled, IndexFields;
      BookSize(t, m);
      innov := new int[NB_SUBFRAME_SIZE](_ => 0);
      PackAndRebuild(bits, Book(t, m), inds, innov);
      ghost var packed := bits.Contents();
      SignalMul(innov, scale);
      assert bits.Contents() == packed;
    }

    // The innovation of a subframe, from one or from two codebook searches.
    method SendInnovation(bits: SpeexBits, m: nat, at: nat, s: Sub, ener: int, exc32: array<int>)
      requires Valid() && Apart(bits) && bits.Writing() && bits.owner && IsCoded(m) && ProperSub(t, m, s)
      requires exc32.Length == NB_SUBFRAME_SIZE && exc32 != excBuf && (exc32 as object) != bits.chars
               && at + NB_SUBFRAME_SIZE <= SIZE
      modifies bits, bits.chars, excBuf
      ensures bits.Writing() && bits.overflow == old(bits.overflow)
              && (bits.chars == old(bits.chars) || fresh(bits.chars))
      ensures bits.Contents() == old(bits.Contents()) + FieldBits(IndexFields(Book(t, m), s.shape))
        + FieldBits(if NbSubmode(m).doubleCodebook then IndexFields(Book(t, m), s.shape2) else [])
      ensures excBuf[..at] == old(excBuf[..at])
      ensures excBuf[at..at + NB_SUBFRAME_SIZE] == NewSamples(exc32[..], Innov(t, m, s, ener))
    {
      hide BitsOf, FieldBits, ClearFrom, Scaled, IndexFields, Shape40, ProperShapes, NewSamples;
      NoFieldBits();
      ghost var e := exc32[..];
      var innov := SendShapes(bits, m, s.shape, ener);
      ghost var packed := bits.Contents();
      WriteExcitation(excBuf, at, exc32, innov);
      assert bits.Contents() == packed;
      if NbSubmode(m).doubleCodebook {
        var innov2 := SendShapes(bits, m, s.shape2, SecondEnergy(ener));
        packed := bits.Contents();
        AddInnovation(innov, innov2);
      }
      assert exc32[..] == e && innov[..] == Innov(t, m, s, ener);
      WriteExcitation(excBuf, at, exc32, innov);
      assert bits.Contents() == packed;
    }

    // The adaptive part of a subframe and the gain of the innovation.
    method SendAdaptive(bits: SpeexBits, m: nat, at: nat, start: nat, end: int, c: Choice, olGain: int, ghost s: Sub,
                        ghost h: seq<int>)
      returns (exc32: array<int>, ener: int)
      requires Valid() && Apart(bits) && bits.Writing() && bits.owner && IsCoded(m) && ProperSub(t, m, c.sub)
      requires start <= end ==> start <= c.pitch <= end <= NB_PITCH_END && 0 < c.pitch
      requires s == if end < start then c.sub.(pitch := 0, gain := 0) else c.sub.(pitch := c.pitch - start)
      requires Past(excBuf[..], at, h)
      modifies bits, bits.chars
      ensures bits.Writing() && bits.overflow == old(bits.overflow)
              && (bits.chars == old(bits.chars) || fresh(bits.chars))
      ensures bits.Contents() == old(bits.Contents()) + PitchGainBits(m, s) + EnergyBits(m, s)
      ensures |h| == HISTORY && 4 * c.sub.gain + 2 < |GainBook(t, m)| && ener == Energy(t, m, c.sub.energy, olGain)
      ensures fresh(exc32) && exc32.Length == NB_SUBFRAME_SIZE && (exc32 as object) != bits.chars
      ensures exc32[..] == if end < start then Silence() else Adaptive(h, c.pitch, GainBook(t, m), c.sub.gain)
    {
      EnergyBound(t, m, c.sub);
      hide BitsOf, FieldBits, ClearFrom, Energy, Adaptive, Past, Silence, ProperSub, NbSubmode;
      exc32 := new int[NB_SUBFRAME_SIZE];
      PitchSearch3Tap(bits, m, at, start, end, c, exc32, h);
      ghost var e := exc32[..];
      ener := SendEnergy(bits, m, c.sub.energy, olGain);
      assert exc32[..] == e;
    }

    // One pass of the loop over the subframes, for a pitch range from start to end.
    method SendSubframe(bits: SpeexBits, m: nat, at: nat, start: nat, end: int, c: Choice, olGain: int, ghost s: Sub,
                        ghost h: seq<int>)
      requires Valid() && Apart(bits) && bits.Writing() && bits.owner && IsCoded(m) && ProperSub(t, m, c.sub)
      requires start <= end ==> start <= c.pitch <= end <= NB_PITCH_END && 0 < c.pitch
      requires s == if end < start then c.sub.(pitch := 0, gain := 0) else c.sub.(pitch := c.pitch - start)
      requires Past(excBuf[..], at, h) && at + NB_SUBFRAME_SIZE <= SIZE
      modifies bits, bits.chars, excBuf
      ensures bits.Writing() && bits.overflow == old(bits.overflow)
              && (bits.chars == old(bits.chars) || fresh(bits.chars))
      ensures bits.Contents() == old(bits.Contents()) + FieldBits(SubFields(t, m, s))
      ensures excBuf[..at] == old(excBuf[..at])
      ensures |h| == HISTORY && 4 * c.sub.gain + 2 < |GainBook(t, m)|
      ensures excBuf[at..at + NB_SUBFRAME_SIZE]
        == NewSamples(if end < start then Silence() else Adaptive(h, c.pitch, GainBook(t, m), c.sub.gain),
                      Innov(t, m, c.sub, Energy(t, m, c.sub.energy, olGain)))
    {
      ghost var was, pitchGain, energy, shape, shape2 := bits.Contents(), PitchGainBits(m, s), EnergyBits(m, s),
          ShapeBits(t, m, s), Shape2Bits(t, m, s);
      SubPacked(t, m, s);
      InOrder(was, pitchGain, energy, shape, shape2);
      hide BitsOf, FieldBits, ClearFrom, Innov, Energy, NewSamples, IndexFields, Adaptive, Past, Silence, ProperSub,
          SubFields, NbSubmode, PitchGainBits, EnergyBits;
      Clear(excBuf, at);
      assert bits.Contents() == was;
      NbDecoder.PastCleared(old(excBuf[..]), excBuf[..], at, h);
      var exc32, ener := SendAdaptive(bits, m, at, start, end, c, olGain, s, h);
      SendInnovation(bits, m, at, c.sub, ener, exc32);
      assert excBuf[..at] == old(excBuf[..at]);
      assert bits.Contents() == was + pitchGain + energy + shape + shape2;
    }

    method EncodeSubframe(bits: SpeexBits, x: Input, sub: nat, ghost h: seq<int>)
      requires Valid() && Apart(bits) && bits.Writing() && bits.owner && sub < NB_NB_SUBFRAMES
      requires ProperInput(t, boundedPitch, x) && Past(excBuf[..], EXC + NB_SUBFRAME_SIZE * sub, h)
      modifies bits, bits.chars, excBuf
      ensures bits.Writing() && bits.overflow == old(bits.overflow)
              && (bits.chars == old(bits.chars) || fresh(bits.chars))
      ensures bits.Contents() == old(bits.Contents())
        + FieldBits(SubFields(t, x.m, Sent(x.m, x.olPitch, boundedPitch, sub, x.choices[sub])))
      ensures var at := EXC + NB_SUBFRAME_SIZE * sub;
              && excBuf[..at] == old(excBuf[..at]) && |h| == HISTORY
              && excBuf[at..at + NB_SUBFRAME_SIZE] == EncSub(t, h, boundedPitch, x, sub)
    {
      hide BitsOf, FieldBits, ClearFrom, Innov, Energy, NewSamples, Adaptive, Past, ProperSub, SubFields, Silence;
      var m, c, at := x.m, x.choices[sub], EXC + NB_SUBFRAME_SIZE * sub;
      assert ProperChoice(t, m, x.olPitch, boundedPitch, sub, c);
      var start, end := SearchStart(m, x.olPitch), SearchEnd(m, x.olPitch, boundedPitch, sub);
      SendSubframe(bits, m, at, start, end, c, OlGain(t, x.olGain), Sent(m, x.olPitch, boundedPitch, sub, c), h);
    }

    method EncodeSubframes(bits: SpeexBits, x: Input, ghost h: seq<int>)
      requires Valid() && Apart(bits) && bits.Writing() && bits.owner
      requires ProperInput(t, boundedPitch, x) && Past(excBuf[..], EXC, h)
      modifies bits, bits.chars, excBuf
      ensures bits.Writing() && bits.overflow == old(bits.overflow)
              && (bits.chars == old(bits.chars) || fresh(bits.chars))
      ensures bits.Contents() == old(bits.Contents()) + FieldBits(SubsFields(t, x.m, SentParams(boundedPitch, x).subs))
      ensures |h| == HISTORY && Past(excBuf[..], EXC + NB_FRAME_SIZE, EncSubs(t, h, boundedPitch, x, NB_NB_SUBFRAMES))
    {
      hide BitsOf, FieldBits, ClearFrom, EncSub, EncSubs, SubsFields, Slide, Past, ProperChoice, SubFields, Sent,
          AreTables;
      ghost var was, ss, g := bits.Contents(), SentParams(boundedPitch, x).subs, h;
      NoSubsBits(t, x.m, was, ss);
      NbDecoder.PastLength(excBuf[..], EXC, h);
      NoSub(t, h, boundedPitch, x);
      for sub := 0 to NB_NB_SUBFRAMES
        invariant bits.Writing() && bits.overflow == old(bits.overflow) && Apart(bits)
        invariant bits.chars == old(bits.chars) || fresh(bits.chars)
        invariant bits.Contents() == was + FieldBits(SubsFields(t, x.m, ss[..sub]))
        invariant |g| == HISTORY && g == EncSubs(t, h, boundedPitch, x, sub)
                  && Past(excBuf[..], EXC + NB_SUBFRAME_SIZE * sub, g)
      {
        ghost var before, at := excBuf[..], EXC + NB_SUBFRAME_SIZE * sub;
        SubsBits(t, x.m, was, ss, sub);
        OneMoreSub(t, h, boundedPitch, x, sub);
        EncodeSubframe(bits, x, sub, g);
        NbDecoder.PastAdvanced(before, excBuf[..], at, g, excBuf[at..at + NB_SUBFRAME_SIZE]);
        g := Slide(g, excBuf[at..at + NB_SUBFRAME_SIZE]);
      }
      assert ss[..NB_NB_SUBFRAMES] == ss;
    }

    // Quantising and packing the spectrum.
    method SendSpectrum(bits: SpeexBits, m: nat, lsp: seq<int>)
                        returns (qlsp: array<int>, ids: seq<nat>)
      requires Valid() && bits.Writing() && bits.owner && IsCoded(m) && |lsp| == ORDER
      modifies bits, bits.chars
      ensures bits.Writing() && bits.overflow == old(bits.overflow)
              && (bits.chars == old(bits.chars) || fresh(bits.chars))
      ensures AreIds(ids, LspStageCount(m)) && bits.Contents() == old(bits.Contents()) + FieldBits(IdFields(ids))
      ensures fresh(qlsp) && qlsp.Length == ORDER && (qlsp as object) != bits.chars
      ensures qlsp[..] == Quantised(t, m, lsp, ids) && ChosenIds(t, m, lsp, ids)
    {
      hide BitsOf, FieldBits, ClearFrom, Quantised2, Quantised3, NbCode, LbrCode, NbChosen, LbrChosen, Weights,
          LessLinear;
      var input := new int[ORDER](i requires 0 <= i < ORDER => lsp[i]);
      qlsp := new int[ORDER];
      if NbSubmode(m).lsp == Lbr {
        ids := LspQuantLbr(input, qlsp, t.lsp, bits);
      } else {
        ids := LspQuantNb(input, qlsp, t.lsp, bits);
      }
      assert input[..] == lsp;
    }

    // Everything a frame packs before its subframes.
    method SendPreamble(bits: SpeexBits, x: Input) returns (qlsp: array<int>, y: Input)
      requires Valid() && bits.Writing() && bits.owner && ProperInput(t, boundedPitch, x)
      modifies bits, bits.chars
      ensures bits.Writing() && bits.overflow == old(bits.overflow)
              && (bits.chars == old(bits.chars) || fresh(bits.chars))
      ensures y == x.(ids := y.ids) && ProperInput(t, boundedPitch, y)
      ensures bits.Contents() == old(bits.Contents()) + FieldBits([Field(0, 1), Field(x.m, 4)])
                                 + FieldBits(PreambleFields(x.m, SentParams(boundedPitch, y)))
      ensures fresh(qlsp) && qlsp.Length == ORDER && (qlsp as object) != bits.chars && qlsp[..] == EncQlsp(t, y)
      ensures ChosenIds(t, x.m, x.lsp, y.ids)
    {
      hide BitsOf, FieldBits, ClearFrom, ProperChoice, Sent, AreTables, Quantised, ChosenIds, IdFields;
      ghost var was := bits.Contents();
      PackFields(bits, [Field(0, 1), Field(x.m, NB_SUBMODE_BITS)]);
      ghost var header := bits.Contents();
      var ids;
      qlsp, ids := SendSpectrum(bits, x.m, x.lsp);
      y := x.(ids := ids);
      ghost var q := qlsp[..];
      var rest := (if HasOlPitch(x.m) then [Field(x.olPitch - NB_PITCH_START, 7)] else []) + [Field(x.olGain, 5)];
      PackFields(bits, rest);
      assert qlsp[..] == q;
      ghost var p := SentParams(boundedPitch, y);
      assert PreambleFields(x.m, p) == IdFields(ids) + rest;
      FieldBitsConcat(IdFields(ids), rest);
      assert header + FieldBits(IdFields(ids)) + FieldBits(rest)
             == header + (FieldBits(IdFields(ids)) + FieldBits(rest));
    }

    // Special case for the first frame: nothing to interpolate from.
    method StartFrame(bits: SpeexBits, x: Input) returns (qlsp: array<int>, y: Input)
      requires Valid() && Apart(bits) && bits.Writing() && bits.owner && ProperInput(t, boundedPitch, x)
      modifies oldQlsp, bits, bits.chars
      ensures bits.Writing() && bits.overflow == old(bits.overflow)
              && (bits.chars == old(bits.chars) || fresh(bits.chars))
      ensures y == x.(ids := y.ids) && ProperInput(t, boundedPitch, y) && IsCoded(x.m)
      ensures bits.Contents() == old(bits.Contents()) + FieldBits([Field(0, 1), Field(x.m, 4)])
                                 + FieldBits(PreambleFields(x.m, SentParams(boundedPitch, y)))
      ensures fresh(qlsp) && qlsp.Length == ORDER && (qlsp as object) != bits.chars && qlsp[..] == EncQlsp(t, y)
      ensures ChosenIds(t, x.m, x.lsp, y.ids)
      ensures oldQlsp[..] == FromQlsp(first, old(oldQlsp[..]), qlsp[..])
    {
      hide BitsOf, FieldBits, ClearFrom, ProperInput, EncQlsp, ChosenIds, PreambleFields, AreTables;
      assert IsCoded(x.m) && |x.choices| == NB_NB_SUBFRAMES by { ProperParts(t, boundedPitch, x); }
      qlsp, y := SendPreamble(bits, x);
      ghost var preamble := bits.Contents();
      if first { CopyLsp(qlsp, oldQlsp); }
      assert bits.Contents() == preamble;
    }

    // From the header to the last subframe.
    method SendFrame(bits: SpeexBits, x: Input, ghost h: seq<int>)
                     returns (qlsp: array<int>, y: Input)
      requires Valid() && Apart(bits) && bits.Writing() && bits.owner
      requires ProperInput(t, boundedPitch, x) && Past(excBuf[..], EXC, h)
      modifies excBuf, oldQlsp, bits, bits.chars
      ensures bits.Writing() && bits.overflow == old(bits.overflow)
              && (bits.chars == old(bits.chars) || fresh(bits.chars))
      ensures y == x.(ids := y.ids) && ProperInput(t, boundedPitch, y) && IsCoded(x.m)
      ensures bits.Contents() == old(bits.Contents()) + WireBits(t, x.m, SentParams(boundedPitch, y))
      ensures fresh(qlsp) && qlsp.Length == ORDER && (qlsp as object) != bits.chars && qlsp[..] == EncQlsp(t, y)
      ensures ChosenIds(t, x.m, x.lsp, y.ids)
      ensures oldQlsp[..] == FromQlsp(first, old(oldQlsp[..]), qlsp[..])
      ensures |h| == HISTORY && Past(excBuf[..], EXC + NB_FRAME_SIZE, EncSubs(t, h, boundedPitch, y, NB_NB_SUBFRAMES))
    {
      hide BitsOf, FieldBits, ClearFrom, ProperInput, EncSubs, Past, EncQlsp, ChosenIds, PreambleFields, SubsFields,
          FrameFields,
          AreTables, WireBits;
      assert IsCoded(x.m) && |x.choices| == NB_NB_SUBFRAMES by { ProperParts(t, boundedPitch, x); }
      qlsp, y := StartFrame(bits, x);
      ghost var q := qlsp[..];
      FrameJoined(t, x.m, SentParams(boundedPitch, y), old(bits.Contents()));
      EncodeSubframes(bits, y, h);
      assert qlsp[..] == q;
    }

    // A whole frame. The indices in x are placeholders that the quantiser replaces.
    method EncodeFrame(bits: SpeexBits, x: Input) returns (y: Input, interps: seq<seq<int>>)
      requires Valid() && Apart(bits) && bits.Writing() && bits.owner
      requires ProperInput(t, boundedPitch, x)
      modifies this, excBuf, oldQlsp, bits, bits.chars
      ensures Valid() && bits.Writing() && bits.overflow == old(bits.overflow)
      ensures bits.chars == old(bits.chars) || fresh(bits.chars)
      ensures y == x.(ids := y.ids) && ProperInput(t, old(boundedPitch), y)
      ensures bits.Contents() == old(bits.Contents()) + WireBits(t, x.m, SentParams(old(boundedPitch), y))
      ensures State() == EncFrame(t, old(State()), y) && interps == EncInterps(t, old(State()), y)
      ensures ChosenIds(t, x.m, x.lsp, y.ids)
      ensures |interps| == NB_NB_SUBFRAMES && interps[3] == EncQlsp(t, y)
      ensures Is16(old(State()).oldQlsp) ==>
        OnTheLine(FromQlsp(old(first), old(State()).oldQlsp, EncQlsp(t, y)), EncQlsp(t, y), interps)
    {
      hide BitsOf, FieldBits, ClearFrom, ProperInput, EncSubs, Past, EncQlsp, Interps, FrameFields, WireBits,
          ChosenIds, Is16, OnTheLine;
      ghost var was, before := State(), bits.Contents();
      ShiftFrame(excBuf, NB_PITCH_END + 2);
      EncPastShifted(old(excBuf[..]), excBuf[..], was.h);
      assert bits.Contents() == before;
      var qlsp;
      qlsp, y := SendFrame(bits, x, was.h);
      ghost var packed := bits.Contents();
      EncQlspIs16(t, old(boundedPitch), y);
      InterpsOnTheLine(oldQlsp[..], qlsp[..]);
      interps := InterpolateFrame(oldQlsp, qlsp);
      CopyLsp(qlsp, oldQlsp);
      first, boundedPitch := false, false;
      assert bits.Contents() == packed;
      NbDecoder.PastIs(excBuf[..], EXC + NB_FRAME_SIZE, EncSubs(t, was.h, was.bounded, y, NB_NB_SUBFRAMES));
    }
  }

  lemma EncQlspIs16(t: Tables, bounded: bool, y: Input)
    requires AreTables(t) && ProperInput(t, bounded, y)
    ensures Is16(EncQlsp(t, y))
  {
    QlspIs16(t, y.m, y.lsp, y.ids);
  }

  lemma FrameJoined(t: Tables, m: nat, p: Params, was: seq<bool>)
    requires IsCoded(m) && AreTables(t)
    ensures was + FieldBits([Field(0, 1), Field(m, 4)]) + FieldBits(PreambleFields(m, p))
            + FieldBits(SubsFields(t, m, p.subs)) == was + WireBits(t, m, p)
  {
    hide FieldBits, PreambleFields, SubsFields;
    FieldBitsConcat(PreambleFields(m, p), SubsFields(t, m, p.subs));
    FourJoined(was, FieldBits([Field(0, 1), Field(m, 4)]), FieldBits(PreambleFields(m, p)),
               FieldBits(SubsFields(t, m, p.subs)));
  }

  lemma FourJoined(a: seq<bool>, b: seq<bool>, c: seq<bool>, d: seq<bool>)
    ensures a + b + c + d == a + (b + (c + d))
  {
  }

  lemma EncPastShifted(before: seq<int>, now: seq<int>, h: seq<int>)
    requires |before| == |now| == SIZE && h == before[NB_FRAME_SIZE..SIZE]
    requires now[..EXC] == before[NB_FRAME_SIZE..NB_FRAME_SIZE + EXC]
    ensures Past(now, EXC, h)
  {
  }

  lemma NoSubsBits(t: Tables, m: nat, was: seq<bool>, ss: seq<Sub>)
    requires IsCoded(m) && AreTables(t)
    ensures was + FieldBits(SubsFields(t, m, ss[..0])) == was
  {
  }

  lemma NoSub(t: Tables, h: seq<int>, bounded: bool, x: Input)
    requires AreTables(t) && ProperInput(t, bounded, x) && |h| == HISTORY
    ensures EncSubs(t, h, bounded, x, 0) == h
  {
  }

  lemma OneMoreSub(t: Tables, h: seq<int>, bounded: bool, x: Input, n: nat)
    requires AreTables(t) && ProperInput(t, bounded, x) && |h| == HISTORY && n < NB_NB_SUBFRAMES
    ensures var h1 := EncSubs(t, h, bounded, x, n);
            EncSubs(t, h, bounded, x, n + 1) == Slide(h1, EncSub(t, h1, bounded, x, n))
  {
    hide EncSub, Slide;
  }

  lemma SubsBits(t: Tables, m: nat, was: seq<bool>, ss: seq<Sub>, n: nat)
    requires IsCoded(m) && AreTables(t) && n < |ss|
    ensures was + FieldBits(SubsFields(t, m, ss[..n + 1]))
            == was + FieldBits(SubsFields(t, m, ss[..n])) + FieldBits(SubFields(t, m, ss[n]))
  {
    hide FieldBits, SubFields;
    assert ss[..n + 1][..n] == ss[..n];
    FieldBitsConcat(SubsFields(t, m, ss[..n]), SubFields(t, m, ss[n]));
  }

  lemma InOrder(was: seq<bool>, a: seq<bool>, b: seq<bool>, c: seq<bool>, d: seq<bool>)
    ensures was + a + b + c + d == was + (a + b + c + d)
  {
  }

  lemma EnergyBound(t: Tables, m: nat, s: Sub)
    requires IsCoded(m) && AreTables(t) && ProperSub(t, m, s)
    ensures s.energy < (if NbSubmode(m).haveSubframeGain == 3 then 8 else if NbSubmode(m).haveSubframeGain == 1 then 2
            else 1)
    ensures NbSubmode(m).ltp.ThreeTap?
  {
  }

  // The pieces of a subframe, as they are packed.
  ghost function PitchGainBits(m: nat, s: Sub): seq<bool>
    requires IsCoded(m)
  {
    FieldBits([Field(s.pitch, NbSubmode(m).ltp.pitchBits), Field(s.gain, NbSubmode(m).ltp.gainBits)])
  }

  ghost function EnergyBits(m: nat, s: Sub): seq<bool>
    requires IsCoded(m)
  {
    FieldBits(if NbSubmode(m).haveSubframeGain > 0 then [Field(s.energy, NbSubmode(m).haveSubframeGain)] else [])
  }

  ghost function ShapeBits(t: Tables, m: nat, s: Sub): seq<bool>
    requires IsCoded(m) && AreTables(t)
  {
    FieldBits(IndexFields(Book(t, m), s.shape))
  }

  ghost function Shape2Bits(t: Tables, m: nat, s: Sub): seq<bool>
    requires IsCoded(m) && AreTables(t)
  {
    FieldBits(if NbSubmode(m).doubleCodebook then IndexFields(Book(t, m), s.shape2) else [])
  }

  lemma SubPacked(t: Tables, m: nat, s: Sub)
    requires IsCoded(m) && AreTables(t)
    ensures FieldBits(SubFields(t, m, s))
            == PitchGainBits(m, s) + EnergyBits(m, s) + ShapeBits(t, m, s) + Shape2Bits(t, m, s)
  {
    hide FieldBits, IndexFields;
    var sm, c := NbSubmode(m), Book(t, m);
    var a := [Field(s.pitch, sm.ltp.pitchBits), Field(s.gain, sm.ltp.gainBits)];
    var b := if sm.haveSubframeGain > 0 then [Field(s.energy, sm.haveSubframeGain)] else [];
    var d, e := IndexFields(c, s.shape), if sm.doubleCodebook then IndexFields(c, s.shape2) else [];
    FieldBitsConcat(a + b + d, e);
    FieldBitsConcat(a + b, d);
    FieldBitsConcat(a, b);
  }
}
