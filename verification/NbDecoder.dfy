/** nb_decode for a frame of submode 2 to 7 that arrives: no losses, no enhancer. */
module NbDecoder {
  import opened Fixed
  import opened BitString
  import opened BitReader
  import opened Bits
  import opened Modes
  import opened Ltp
  import opened Innovation
  import opened LspStages
  import opened QuantLsp
  import opened NbSpec
  import opened NbWire
  import opened NbExc

  // Index of st->exc in st->excBuf, and the size of the buffer.
  const EXC := 2 * NB_PITCH_END + NB_SUBFRAME_SIZE + 6
  const SIZE := NB_FRAME_SIZE + 2 * NB_PITCH_END + NB_SUBFRAME_SIZE + 12

  class Decoder {
    const t: Tables
    const excBuf: array<int>
    const oldQlsp: array<int>
    var first: bool

    ghost predicate Valid()
      reads this
    {
      AreTables(t) && excBuf.Length == SIZE && oldQlsp.Length == ORDER && excBuf != oldQlsp
    }

    // Between frames, the past ends with the last sample of the frame in the buffer.
    ghost function State(): (d: DecState)
      requires Valid()
      reads this, excBuf, oldQlsp
      ensures IsDecState(d)
    {
      DecState(excBuf[EXC + NB_FRAME_SIZE - HISTORY..EXC + NB_FRAME_SIZE], oldQlsp[..], first)
    }

    ghost predicate Apart(bits: SpeexBits)
      reads this, bits
    {
      (excBuf as object) != bits.chars && (oldQlsp as object) != bits.chars
    }

    constructor (t: Tables)
      requires AreTables(t)
      ensures Valid() && this.t == t && fresh(excBuf) && fresh(oldQlsp)
      ensures State() == DecState(seq(HISTORY, _ => 0), seq(ORDER, _ => 0), true)
    {
      this.t := t;
      first := true;
      excBuf := new int[SIZE](_ => 0);
      oldQlsp := new int[ORDER](_ => 0);
    }

    // Pitch and gain from the bits, and the adaptive codebook they select, made sane.
    method ReadAdaptive(bits: SpeexBits, m: nat, at: nat, olPitch: nat, exc32: array<int>, ghost h: seq<int>)
      returns (pitch: nat, gain: nat)
      requires Valid() && bits.Valid() && Apart(bits) && IsCoded(m) && olPitch < (if HasOlPitch(m) then 128 else 1)
      requires Past(excBuf[..], at, h) && exc32.Length == NB_SUBFRAME_SIZE && exc32 != excBuf
      requires (exc32 as object) != bits.chars
      modifies bits`charPtr, bits`bitPtr, bits`overflow, exc32
      ensures bits.Valid()
      ensures var (p, r1) := TakeIf(old(bits.View()), true, NbSubmode(m).ltp.pitchBits);
              var (g, r2) := TakeIf(r1, true, NbSubmode(m).ltp.gainBits);
              pitch == p && gain == g && bits.View() == r2
      ensures 0 < PitchStart(m, olPitch) + pitch <= NB_PITCH_END && 4 * gain + 2 < |GainBook(t, m)|
      ensures exc32[..] == AllSane(Adaptive(h, PitchStart(m, olPitch) + pitch, GainBook(t, m), gain))
    {
      hide BitsOf, FromBits, Adaptive;
      SmallPowers();
      pitch := bits.UnpackUnsigned(NbSubmode(m).ltp.pitchBits);
      gain := bits.UnpackUnsigned(NbSubmode(m).ltp.gainBits);
      ghost var r := bits.View();
      PitchUnquant3Tap(excBuf, at, exc32, PitchStart(m, olPitch) + pitch, GainBook(t, m), gain, h);
      SanitizeValues32(exc32);
      assert bits.View() == r;
    }

    method ReadEnergy(bits: SpeexBits, m: nat, olGain: int) returns (q: nat, ener: int)
      requires Valid() && bits.Valid() && IsCoded(m)
      modifies bits`charPtr, bits`bitPtr, bits`overflow
      ensures bits.Valid() && ener == Energy(t, m, q, olGain)
      ensures (q, bits.View())
              == TakeIf(old(bits.View()), NbSubmode(m).haveSubframeGain > 0, NbSubmode(m).haveSubframeGain)
    {
      hide BitsOf, FromBits;
      SmallPowers();
      q := 0;
      if NbSubmode(m).haveSubframeGain == 3 {
        q := bits.UnpackUnsigned(3);
        ener := Mult16_32_Q14(t.scal3[q], olGain);
      } else if NbSubmode(m).haveSubframeGain == 1 {
        q := bits.UnpackUnsigned(1);
        ener := Mult16_32_Q14(t.scal1[q], olGain);
      } else {
        ener := olGain;
      }
    }

    // One codebook contribution, scaled.
    method ReadShapes(bits: SpeexBits, m: nat, scale: int) returns (innov: array<int>, ghost inds: seq<nat>)
      requires Valid() && bits.Valid() && IsCoded(m)
      modifies bits`charPtr, bits`bitPtr, bits`overflow
      ensures bits.Valid() && fresh(innov) && innov.Length == NB_SUBFRAME_SIZE
      ensures (inds, bits.View()) == TakeIndices(Book(t, m), old(bits.View()), Book(t, m).nbSubvect)
      ensures ProperShapes(Book(t, m), inds)
      ensures forall k :: 0 <= k < NB_SUBFRAME_SIZE ==> innov[k] == Scaled(Shape40(t, m, inds)[k], scale)
    {
      hide BitsOf, TakeIndices, Excitation, Scaled;
      BookSize(t, m);
      innov := new int[NB_SUBFRAME_SIZE];
      inds := TakeIndices(Book(t, m), bits.View(), Book(t, m).nbSubvect).0;
      SplitCbShapeSignUnquant(bits, Book(t, m), innov);
      ghost var r := bits.View();
      SignalMul(innov, scale);
      assert bits.View() == r;
    }

    // The innovation of a subframe, from one or from two codebook searches.
    method ReadInnovation(bits: SpeexBits, m: nat, ener: int)
                          returns (innov: array<int>, ghost shape: seq<nat>, ghost shape2: seq<nat>)
      requires Valid() && bits.Valid() && IsCoded(m)
      modifies bits`charPtr, bits`bitPtr, bits`overflow
      ensures bits.Valid() && fresh(innov) && innov.Length == NB_SUBFRAME_SIZE
      ensures var c := Book(t, m);
              var (s1, r1) := TakeIndices(c, old(bits.View()), c.nbSubvect);
              var (s2, r2) := if NbSubmode(m).doubleCodebook then TakeIndices(c, r1, c.nbSubvect) else ([], r1);
              shape == s1 && shape2 == s2 && bits.View() == r2
      ensures forall s: Sub :: ProperSub(t, m, s) && s.shape == shape && s.shape2 == shape2 ==>
                innov[..] == Innov(t, m, s, ener)
    {
      hide BitsOf, TakeIndices, Scaled, Shape40;
      innov, shape := ReadShapes(bits, m, ener);
      shape2 := [];
      if NbSubmode(m).doubleCodebook {
        var innov2;
        innov2, shape2 := ReadShapes(bits, m, SecondEnergy(ener));
        ghost var r := bits.View();
        AddInnovation(innov, innov2);
        assert bits.View() == r;
      }
    }

    // One pass of the first loop over the subframes.
    method DecodeSubframe(bits: SpeexBits, m: nat, at: nat, olPitch: nat, olGain: int, ghost h: seq<int>)
                          returns (ghost s: Sub)
      requires Valid() && bits.Valid() && Apart(bits) && IsCoded(m) && olPitch < (if HasOlPitch(m) then 128 else 1)
      requires Past(excBuf[..], at, h) && at + NB_SUBFRAME_SIZE <= SIZE
      modifies bits`charPtr, bits`bitPtr, bits`overflow, excBuf
      ensures bits.Valid() && (s, bits.View()) == TakeSub(t, m, old(bits.View()))
      ensures excBuf[..at] == old(excBuf[..at])
      ensures excBuf[at..at + NB_SUBFRAME_SIZE] == DecSub(t, m, h, olPitch, olGain, s)
    {
      hide BitsOf, TakeIf, TakeIndices, Adaptive, NewSamples, Innov, Energy, AllSane, ProperShapes, Past;
      ghost var start := bits.View();
      s := TakeSub(t, m, start).0;
      PastKept(excBuf, at, h);
      Clear(excBuf, at);
      assert bits.View() == start;
      var exc32 := new int[NB_SUBFRAME_SIZE];
      PastCleared(old(excBuf[..]), excBuf[..], at, h);
      var pitch, gain := ReadAdaptive(bits, m, at, olPitch, exc32, h);
      var q, ener := ReadEnergy(bits, m, olGain);
      var innov, shape, shape2 := ReadInnovation(bits, m, ener);
      ghost var r := bits.View();
      WriteExcitation(excBuf, at, exc32, innov);
      assert bits.View() == r;
    }

    method ReadSpectrum(bits: SpeexBits, m: nat) returns (qlsp: array<int>, ghost ids: seq<nat>)
      requires Valid() && bits.Valid() && IsCoded(m)
      modifies bits`charPtr, bits`bitPtr, bits`overflow
      ensures bits.Valid() && fresh(qlsp) && qlsp.Length == ORDER && AreIds(ids, LspStageCount(m))
      ensures (ids, bits.View()) == TakeAll(old(bits.View()), Repeat(LspStageCount(m), 6))
      ensures qlsp[..] == DecQlsp(t, m, ids)
    {
      hide BitsOf, TakeAll, NbVector, LbrVector;
      qlsp := new int[ORDER];
      if NbSubmode(m).lsp == Lbr {
        assert Repeat(3, 6) == [6, 6, 6];
        ids := LspUnquantLbr(qlsp, t.lsp, bits);
      } else {
        assert Repeat(5, 6) == [6, 6, 6, 6, 6];
        ids := LspUnquantNb(qlsp, t.lsp, bits);
      }
    }

    // The first loop over the subframes: p is what the frame will turn out to hold.
    method DecodeSubframes(bits: SpeexBits, m: nat, olPitch: nat, olGain: int, ghost p: Params, ghost h: seq<int>)
      requires Valid() && bits.Valid() && Apart(bits) && IsCoded(m) && ProperParams(t, m, p)
      requires p.olPitch == olPitch && olGain == OlGain(t, p.olGain)
      requires p.subs == TakeSubs(t, m, bits.View(), NB_NB_SUBFRAMES).0
      requires Past(excBuf[..], EXC, h)
      modifies bits`charPtr, bits`bitPtr, bits`overflow, excBuf
      ensures bits.Valid() && bits.View() == TakeSubs(t, m, old(bits.View()), NB_NB_SUBFRAMES).1
      ensures Past(excBuf[..], EXC + NB_FRAME_SIZE, DecSubs(t, m, h, p, NB_NB_SUBFRAMES))
    {
      hide BitsOf, TakeSub, TakeSubs, DecSub, Slide, Past, ProperSub;
      ghost var start := bits.View();
      NoSubs(t, m, start);
      ghost var g := h;
      PastLength(excBuf[..], EXC, h);
      for sub := 0 to NB_NB_SUBFRAMES
        invariant bits.Valid() && bits.View() == TakeSubs(t, m, start, sub).1
        invariant |g| == HISTORY && g == DecSubs(t, m, h, p, sub) && Past(excBuf[..], EXC + NB_SUBFRAME_SIZE * sub, g)
      {
        TakeSubsAt(t, m, start, NB_NB_SUBFRAMES, sub);
        ghost var before, at := excBuf[..], EXC + NB_SUBFRAME_SIZE * sub;
        var s := DecodeSubframe(bits, m, EXC + NB_SUBFRAME_SIZE * sub, olPitch, olGain, g);
        PastAdvanced(before, excBuf[..], at, g, excBuf[at..at + NB_SUBFRAME_SIZE]);
        g := Slide(g, excBuf[at..at + NB_SUBFRAME_SIZE]);
      }
    }

    method DecodeFrame(bits: SpeexBits, m: nat) returns (ghost p: Params, interps: seq<seq<int>>)
      requires Valid() && bits.Valid() && Apart(bits) && IsCoded(m)
      modifies this, excBuf, oldQlsp, bits`charPtr, bits`bitPtr, bits`overflow
      ensures Valid() && bits.Valid() && (p, bits.View()) == TakeFrame(t, m, old(bits.View()))
      ensures State() == DecFrame(t, old(State()), m, p)
      ensures interps == DecInterps(t, old(State()), m, p)
      ensures |interps| == NB_NB_SUBFRAMES && interps[3] == DecQlsp(t, m, p.lspIds)
      ensures Is16(old(State()).oldQlsp) ==>
        OnTheLine(FromQlsp(old(first), old(State()).oldQlsp, interps[3]), interps[3], interps)
    {
      hide BitsOf, TakeAll, TakeSubs, DecSubs, Past, ProperSub, DecQlsp, Take, Interps, Is16, OnTheLine;
      ghost var start, was := bits.View(), State();
      p := TakeFrame(t, m, start).0;
      SmallPowers();
      ShiftFrame(excBuf, 2 * NB_PITCH_END + NB_SUBFRAME_SIZE + 12);
      PastShifted(old(excBuf[..]), excBuf[..], was.h);
      assert bits.View() == start;
      var qlsp := DecodeParameters(bits, m, p, was.h);
      ghost var r := bits.View();
      DecQlspIs16(t, m, p.lspIds);
      InterpsOnTheLine(oldQlsp[..], qlsp[..]);
      interps := InterpolateFrame(oldQlsp, qlsp);
      CopyLsp(qlsp, oldQlsp);
      first := false;
      assert bits.View() == r;
      PastIs(excBuf[..], EXC + NB_FRAME_SIZE, DecSubs(t, m, was.h, p, NB_NB_SUBFRAMES));
    }

    // From the spectrum to the last subframe.
    method DecodeParameters(bits: SpeexBits, m: nat, ghost p: Params, ghost h: seq<int>) returns (qlsp: array<int>)
      requires Valid() && bits.Valid() && Apart(bits) && IsCoded(m)
      requires p == TakeFrame(t, m, bits.View()).0 && Past(excBuf[..], EXC, h)
      modifies excBuf, oldQlsp, bits`charPtr, bits`bitPtr, bits`overflow
      ensures bits.Valid() && bits.View() == TakeFrame(t, m, old(bits.View())).1
      ensures fresh(qlsp) && qlsp.Length == ORDER && qlsp[..] == DecQlsp(t, m, p.lspIds)
      ensures oldQlsp[..] == FromQlsp(first, old(oldQlsp[..]), qlsp[..])
      ensures Past(excBuf[..], EXC + NB_FRAME_SIZE, DecSubs(t, m, h, p, NB_NB_SUBFRAMES))
    {
      hide BitsOf, TakeAll, TakeSubs, DecSubs, Past, ProperSub, DecQlsp, Take;
      SmallPowers();
      ghost var ids;
      qlsp, ids := ReadSpectrum(bits, m);
      ghost var r1 := bits.View();
      if first { CopyLsp(qlsp, oldQlsp); }
      assert bits.View() == r1;
      var olPitch := 0;
      if HasOlPitch(m) { olPitch := bits.UnpackUnsigned(7); }
      var qe := bits.UnpackUnsigned(5);
      assert qe == p.olGain;
      DecodeSubframes(bits, m, olPitch, OlGain(t, qe), p, h);
    }
  }

  lemma PastLength(exc: seq<int>, at: nat, h: seq<int>)
    requires Past(exc, at, h)
    ensures |h| == HISTORY
  {
  }

  lemma PastIs(exc: seq<int>, at: nat, h: seq<int>)
    requires Past(exc, at, h)
    ensures HISTORY <= at <= |exc| && exc[at - HISTORY..at] == h
  {
  }

  lemma PastShifted(before: seq<int>, now: seq<int>, h: seq<int>)
    requires |before| == |now| == SIZE && h == before[EXC + NB_FRAME_SIZE - HISTORY..EXC + NB_FRAME_SIZE]
    requires now[..EXC + 6] == before[NB_FRAME_SIZE..NB_FRAME_SIZE + EXC + 6]
    ensures Past(now, EXC, h)
  {
    assert forall k :: 0 <= k < EXC + 6 ==> now[k] == now[..EXC + 6][k] == before[NB_FRAME_SIZE + k];
  }

  lemma PastAdvanced(before: seq<int>, now: seq<int>, at: nat, h: seq<int>, e: seq<int>)
    requires Past(before, at, h) && |now| == |before| && at + NB_SUBFRAME_SIZE <= |now|
    requires now[..at] == before[..at] && e == now[at..at + NB_SUBFRAME_SIZE]
    ensures Past(now, at + NB_SUBFRAME_SIZE, Slide(h, e))
  {
    assert forall k :: 0 <= k < at ==> now[k] == now[..at][k] == before[k];
  }

  lemma PastKept(exc: array<int>, at: nat, h: seq<int>)
    requires Past(exc[..], at, h)
    ensures at <= exc.Length
  {
  }

  lemma PastCleared(before: seq<int>, now: seq<int>, at: nat, h: seq<int>)
    requires Past(before, at, h) && |now| == |before| && now[..at] == before[..at]
    ensures Past(now, at, h)
  {
    assert now[at - HISTORY..at] == now[..at][at - HISTORY..] == before[..at][at - HISTORY..];
  }
}
