/** The bitstream keeps the decoder in the state of the encoder, over whole runs. */
module Lockstep {
  import opened Fixed
  import opened Modes
  import opened Ltp
  import opened Innovation
  import opened LspStages
  import opened QuantLsp
  import opened NbSpec

  ghost predicate Agree(e: EncState, d: DecState) {
    && IsEncState(e) && IsDecState(d)
    && e.h == d.h && e.first == d.first && (e.first || e.oldQlsp == d.oldQlsp)
  }

  // nb_encoder_init and nb_decoder_init
  ghost function EncInit(): (e: EncState) { EncState(seq(HISTORY, _ => 0), seq(ORDER, _ => 0), true, true) }

  ghost function DecInit(): (d: DecState) { DecState(seq(HISTORY, _ => 0), seq(ORDER, _ => 0), true) }

  lemma InitAgrees()
    ensures Agree(EncInit(), DecInit())
  {
  }

  // What the encoder sends is what the decoder can read.
  lemma SentIsProper(t: Tables, bounded: bool, x: Input)
    requires AreTables(t) && ProperInput(t, bounded, x)
    ensures IsCoded(x.m) && |x.choices| == NB_NB_SUBFRAMES && ProperParams(t, x.m, SentParams(bounded, x))
  {
    hide ProperShapes;
    var p := SentParams(bounded, x);
    forall i: nat | i < NB_NB_SUBFRAMES ensures ProperSub(t, x.m, p.subs[i]) {
      assert ProperChoice(t, x.m, x.olPitch, bounded, i, x.choices[i]);
    }
  }

  // The adaptive part is the same, up to the clamp that only the decoder has.
  lemma AdaptiveAgrees(t: Tables, h: seq<int>, bounded: bool, x: Input, sub: nat)
    requires AreTables(t) && ProperInput(t, bounded, x) && |h| == HISTORY && sub < NB_NB_SUBFRAMES
    ensures var p := SentParams(bounded, x);
            && ProperParams(t, x.m, p)
            && DecExc32(t, x.m, h, p.olPitch, p.subs[sub])
               == AllSane(EncExc32(t, x.m, h, x.olPitch, bounded, sub, x.choices[sub]))
  {
    hide Adaptive, Sane, ProperShapes;
    SentIsProper(t, bounded, x);
    var p, c := SentParams(bounded, x), x.choices[sub];
    assert ProperChoice(t, x.m, x.olPitch, bounded, sub, c);
    assert PitchStart(x.m, p.olPitch) == SearchStart(x.m, x.olPitch);
    if SearchEnd(x.m, x.olPitch, bounded, sub) < SearchStart(x.m, x.olPitch) {
      FirstVectorIsSilence(h, PitchStart(x.m, p.olPitch), GainBook(t, x.m), NbSubmode(x.m).ltp.gainBits);
    }
  }

  // A loud history and a gain vector with one tap above one, at any pitch: the adaptive part leaves
  // the bounds of the clamp, and the excitation of the two sides differs.
  lemma ClampMatters(h: seq<int>, cdbk: seq<int>, pitch: nat)
    requires h == seq(HISTORY, _ => 20000) && 0 < pitch <= NB_PITCH_END
    requires cdbk == seq(128, i => if i == 4 then 72 else -32)
    ensures IsGainCodebook(cdbk, 5) && Adaptive(h, pitch, cdbk, 1)[0] == 266240000
    ensures NewSample(AllSane(Adaptive(h, pitch, cdbk, 1))[0], 0) == 32000
            && NewSample(Adaptive(h, pitch, cdbk, 1)[0], 0) == 32500
  {
    hide Adaptive, NewSample, Sane, IsGainCodebook;
    LoudBook(cdbk);
    LoudAdaptive(h, cdbk, pitch);
    LoudSample();
  }

  lemma LoudAdaptive(h: seq<int>, cdbk: seq<int>, pitch: nat)
    requires h == seq(HISTORY, _ => 20000) && 0 < pitch <= NB_PITCH_END
    requires cdbk == seq(128, i => if i == 4 then 72 else -32)
    ensures Adaptive(h, pitch, cdbk, 1)[0] == 266240000
  {
    hide Gain, Shifted, Mac16_16, Tap;
    LoudGains(cdbk);
    LoudTap();
    TapOfLevel(h, pitch, 0, 0);
    TapOfLevel(h, pitch, 1, 0);
    TapOfLevel(h, pitch, 2, 13312);
    assert Mac16_16(0, 0, 20000) == 0 by { ZeroTimes(); }
    assert Taps(1, h, pitch, cdbk, 1, 0) == 0;
    assert Taps(2, h, pitch, cdbk, 1, 0) == 0;
  }

  lemma LoudBook(cdbk: seq<int>)
    requires cdbk == seq(128, i => if i == 4 then 72 else -32)
    ensures IsGainCodebook(cdbk, 5)
  {
  }

  lemma LoudGains(cdbk: seq<int>)
    requires cdbk == seq(128, i => if i == 4 then 72 else -32)
    ensures Shifted(Gain(cdbk, 1, 0)) == 13312 && Shifted(Gain(cdbk, 1, 1)) == Shifted(Gain(cdbk, 1, 2)) == 0
  {
  }

  lemma LoudTap()
    ensures Mac16_16(0, 13312, 20000) == 266240000
  {
  }

  lemma LoudSample()
    ensures NewSample(Sane(266240000), 0) == 32000 && NewSample(266240000, 0) == 32500
  {
  }

  lemma TapOfLevel(h: seq<int>, pitch: nat, i: nat, g: int)
    requires h == seq(HISTORY, _ => 20000) && 0 < pitch <= NB_PITCH_END && i < 3
    ensures Tap(0, h, pitch, i, 0, g) == Mac16_16(0, g, 20000)
  {
    hide Mac16_16;
  }

  const STEP := 0x4000

  // The clamp takes the adaptive part x by so little, or the fixed part v is so large, that the new
  // sample stays the same.
  predicate ClampHarmless(x: int, v: int) {
    var r := v + STEP / 2;
    || -SANE <= x <= SANE
    || (x > SANE && (2 * (x - SANE) + r % STEP < STEP || r >= 767 * STEP || 2 * x + r < -32766 * STEP))
    || (x < -SANE && (2 * (-SANE - x) <= r % STEP || r < -766 * STEP || 2 * x + r >= 32767 * STEP))
  }

  // Sample by sample, and as long as no sum overflows, that is exactly when the two sides agree.
  lemma SampleAgrees(x: int, v: int)
    requires -0x2000_0000 <= x < 0x2000_0000 && -0x2000_0000 <= v < 0x2000_0000
    ensures NewSample(Sane(x), v) == NewSample(x, v) <==> ClampHarmless(x, v)
  {
    hide NewSample, Saturate;
    Rounded(x, v);
    Rounded(Sane(x), v);
    Buckets(x, v + STEP / 2);
  }

  lemma Buckets(x: int, r: int)
    ensures x > SANE ==> (Saturate((2 * SANE + r) / STEP, 32767) == Saturate((2 * x + r) / STEP, 32767)
                          <==> 2 * (x - SANE) + r % STEP < STEP || r >= 767 * STEP || 2 * x + r < -32766 * STEP)
    ensures x < -SANE ==> (Saturate((-2 * SANE + r) / STEP, 32767) == Saturate((2 * x + r) / STEP, 32767)
                           <==> 2 * (-SANE - x) <= r % STEP || r < -766 * STEP || 2 * x + r >= 32767 * STEP)
  {
    var q, k, u := r / STEP, r % STEP, (2 * x + r) / STEP;
    assert 2 * SANE + r == (32000 + q) * STEP + k && -2 * SANE + r == (q - 32000) * STEP + k;
    assert (2 * SANE + r) / STEP == 32000 + q && (-2 * SANE + r) / STEP == q - 32000;
    assert u * STEP <= 2 * x + r < u * STEP + STEP;
  }

  lemma Rounded(x: int, v: int)
    requires -0x2000_0000 <= x < 0x2000_0000 && -0x2000_0000 <= v < 0x2000_0000
    ensures NewSample(x, v) == Saturate((2 * x + v + STEP / 2) / STEP, 32767)
  {
  }

  // And so for the new excitation of a whole subframe.
  lemma SamplesAgree(e: seq<int>, v: seq<int>)
    requires |e| == |v| == NB_SUBFRAME_SIZE
    requires forall j :: 0 <= j < |e| ==> -0x2000_0000 <= e[j] < 0x2000_0000 && -0x2000_0000 <= v[j] < 0x2000_0000
    ensures NewSamples(AllSane(e), v) == NewSamples(e, v) <==> forall j :: 0 <= j < |e| ==> ClampHarmless(e[j], v[j])
  {
    hide NewSample, Sane, ClampHarmless;
    forall j | 0 <= j < |e|
      ensures NewSamples(AllSane(e), v)[j] == NewSamples(e, v)[j] <==> ClampHarmless(e[j], v[j])
    {
      SampleAgrees(e[j], v[j]);
    }
  }

  lemma SameInnovation(t: Tables, bounded: bool, x: Input, sub: nat, ener: int)
    requires AreTables(t) && ProperInput(t, bounded, x) && sub < NB_NB_SUBFRAMES
    requires ProperSub(t, x.m, SentParams(bounded, x).subs[sub])
    ensures Innov(t, x.m, SentParams(bounded, x).subs[sub], ener) == Innov(t, x.m, x.choices[sub].sub, ener)
    ensures SentParams(bounded, x).subs[sub].energy == x.choices[sub].sub.energy
  {
  }

  // The sample is within the bounds of the clamp, or no sum overflows and the clamp does not matter.
  predicate Tolerated(x: int, v: int) {
    || -SANE <= x <= SANE
    || (-0x2000_0000 <= x < 0x2000_0000 && -0x2000_0000 <= v < 0x2000_0000 && ClampHarmless(x, v))
  }

  lemma ToleratedAgree(e: seq<int>, v: seq<int>)
    requires |e| == |v| == NB_SUBFRAME_SIZE && forall j :: 0 <= j < |e| ==> Tolerated(e[j], v[j])
    ensures NewSamples(AllSane(e), v) == NewSamples(e, v)
  {
    hide NewSample, ClampHarmless;
    forall j | 0 <= j < |e| ensures NewSample(Sane(e[j]), v[j]) == NewSample(e[j], v[j]) {
      if !(-SANE <= e[j] <= SANE) { SampleAgrees(e[j], v[j]); }
    }
  }

  // The decoder's clamp does not matter in the subframe.
  ghost predicate SubframeFits(t: Tables, h: seq<int>, bounded: bool, x: Input, sub: nat)
    requires AreTables(t) && ProperInput(t, bounded, x) && |h| == HISTORY && sub < NB_NB_SUBFRAMES
  {
    var c := x.choices[sub];
    var e := EncExc32(t, x.m, h, x.olPitch, bounded, sub, c);
    var v := Innov(t, x.m, c.sub, Energy(t, x.m, c.sub.energy, OlGain(t, x.olGain)));
    forall j :: 0 <= j < |e| ==> Tolerated(e[j], v[j])
  }

  // Nor in any subframe before the n-th.
  ghost predicate ExcitationFits(t: Tables, h: seq<int>, bounded: bool, x: Input, n: nat)
    requires AreTables(t) && ProperInput(t, bounded, x) && |h| == HISTORY && n <= NB_NB_SUBFRAMES
  {
    forall i: nat :: i < n ==>
      SubframeFits(t, EncSubs(t, h, bounded, x, i), bounded, x, i)
  }

  lemma SubframeAgrees(t: Tables, h: seq<int>, bounded: bool, x: Input, sub: nat)
    requires AreTables(t) && ProperInput(t, bounded, x) && |h| == HISTORY && sub < NB_NB_SUBFRAMES
    requires SubframeFits(t, h, bounded, x, sub)
    ensures var p := SentParams(bounded, x);
            && ProperParams(t, x.m, p)
            && DecSub(t, x.m, h, p.olPitch, OlGain(t, p.olGain), p.subs[sub]) == EncSub(t, h, bounded, x, sub)
  {
    hide Innov, DecExc32, EncExc32, NewSamples, Energy, Tolerated;
    var p, c := SentParams(bounded, x), x.choices[sub];
    AdaptiveAgrees(t, h, bounded, x, sub);
    var energy := Energy(t, x.m, c.sub.energy, OlGain(t, x.olGain));
    SameInnovation(t, bounded, x, sub, energy);
    ToleratedAgree(EncExc32(t, x.m, h, x.olPitch, bounded, sub, c), Innov(t, x.m, c.sub, energy));
  }

  lemma FitsBefore(t: Tables, h: seq<int>, bounded: bool, x: Input, n: nat)
    requires AreTables(t) && ProperInput(t, bounded, x) && |h| == HISTORY && n <= NB_NB_SUBFRAMES
    requires ExcitationFits(t, h, bounded, x, n)
    ensures n > 0 ==> ExcitationFits(t, h, bounded, x, n - 1) && |EncSubs(t, h, bounded, x, n - 1)| == HISTORY
    ensures n > 0 ==> SubframeFits(t, EncSubs(t, h, bounded, x, n - 1), bounded, x, n - 1)
  {
    hide SubframeFits;
  }

  lemma OneMoreSubframe(t: Tables, h: seq<int>, bounded: bool, x: Input, p: Params, n: nat)
    requires AreTables(t) && ProperInput(t, bounded, x) && |h| == HISTORY && n < NB_NB_SUBFRAMES
    requires p == SentParams(bounded, x) && ProperParams(t, x.m, p)
    requires SubframeFits(t, EncSubs(t, h, bounded, x, n), bounded, x, n)
    requires DecSubs(t, x.m, h, p, n) == EncSubs(t, h, bounded, x, n)
    ensures DecSubs(t, x.m, h, p, n + 1) == EncSubs(t, h, bounded, x, n + 1)
  {
    hide DecSub, EncSub, Slide, SubframeFits, SentParams, ProperInput, AreTables, ProperParams;
    SubframeAgrees(t, EncSubs(t, h, bounded, x, n), bounded, x, n);
  }

  lemma NoSubframes(t: Tables, h: seq<int>, bounded: bool, x: Input, p: Params)
    requires AreTables(t) && ProperInput(t, bounded, x) && |h| == HISTORY && ProperParams(t, x.m, p)
    ensures DecSubs(t, x.m, h, p, 0) == EncSubs(t, h, bounded, x, 0)
  {
  }

  // After every subframe both sides remember the same excitation.
  lemma {:induction false} SubframesAgree(t: Tables, h: seq<int>, bounded: bool, x: Input, n: nat)
    requires AreTables(t) && ProperInput(t, bounded, x) && |h| == HISTORY && n <= NB_NB_SUBFRAMES
    requires ExcitationFits(t, h, bounded, x, n)
    ensures var p := SentParams(bounded, x);
            ProperParams(t, x.m, p) && DecSubs(t, x.m, h, p, n) == EncSubs(t, h, bounded, x, n)
  {
    hide ProperInput, AreTables, ProperParams, ExcitationFits, SubframeFits, SentParams, EncSubs, DecSubs;
    SentIsProper(t, bounded, x);
    var p := SentParams(bounded, x);
    if n == 0 {
      NoSubframes(t, h, bounded, x, p);
    } else {
      FitsBefore(t, h, bounded, x, n);
      SubframesAgree(t, h, bounded, x, n - 1);
      OneMoreSubframe(t, h, bounded, x, p, n - 1);
    }
  }

  // The residual of the spectrum fits the scale of its last stage.
  ghost predicate SpectrumFits(t: Tables, x: Input)
    requires AreTables(t) && IsCoded(x.m) && |x.lsp| == ORDER && AreIds(x.ids, LspStageCount(x.m))
  {
    if NbSubmode(x.m).lsp == Lbr then LbrFits(x.lsp, t.lsp, x.ids) else NbFits(x.lsp, t.lsp, x.ids)
  }

  lemma SpectrumAgrees(t: Tables, x: Input)
    requires AreTables(t) && IsCoded(x.m) && AreLsps(x.lsp) && AreIds(x.ids, LspStageCount(x.m))
    ensures EncQlsp(t, x) == DecQlsp(t, x.m, x.ids) <==> SpectrumFits(t, x)
  {
    if NbSubmode(x.m).lsp == Lbr {
      LbrExact(x.lsp, EncQlsp(t, x), t.lsp, x.ids);
    } else {
      NbExact(x.lsp, EncQlsp(t, x), t.lsp, x.ids);
    }
  }

  ghost predicate FrameFits(t: Tables, e: EncState, x: Input)
    requires AreTables(t) && ProperInput(t, e.bounded, x) && IsEncState(e)
  {
    SpectrumFits(t, x) && ExcitationFits(t, e.h, e.bounded, x, NB_NB_SUBFRAMES)
  }

  // One frame: the same interpolated spectra, the same excitation after each subframe, and
  // states that agree again.
  lemma FrameAgrees(t: Tables, e: EncState, d: DecState, x: Input)
    requires AreTables(t) && Agree(e, d) && ProperInput(t, e.bounded, x) && FrameFits(t, e, x)
    ensures var p := SentParams(e.bounded, x);
            && ProperParams(t, x.m, p)
            && Agree(EncFrame(t, e, x), DecFrame(t, d, x.m, p))
            && EncInterps(t, e, x) == DecInterps(t, d, x.m, p)
            && (forall n: nat :: n <= NB_NB_SUBFRAMES ==>
                  DecSubs(t, x.m, d.h, p, n) == EncSubs(t, e.h, e.bounded, x, n))
  {
    hide DecSubs, EncSubs, Interps, EncQlsp, DecQlsp, SpectrumFits;
    SentIsProper(t, e.bounded, x);
    assert EncQlsp(t, x) == DecQlsp(t, x.m, x.ids) by { ProperParts(t, e.bounded, x); SpectrumAgrees(t, x); }
    forall n: nat | n <= NB_NB_SUBFRAMES
      ensures DecSubs(t, x.m, d.h, SentParams(e.bounded, x), n) == EncSubs(t, e.h, e.bounded, x, n)
    {
      SubframesAgree(t, e.h, e.bounded, x, n);
    }
  }

  // ---------- whole runs ----------

  // The encoder over the first n frames; bounded tells whether the pitch search is confined.
  ghost predicate ProperRun(t: Tables, e: EncState, xs: seq<Input>)
    requires AreTables(t) && IsEncState(e)
    decreases |xs|
  {
    xs == [] || (ProperInput(t, e.bounded, xs[0]) && ProperRun(t, EncFrame(t, e, xs[0]), xs[1..]))
  }

  ghost predicate RunFits(t: Tables, e: EncState, xs: seq<Input>)
    requires AreTables(t) && IsEncState(e) && ProperRun(t, e, xs)
    decreases |xs|
  {
    xs == [] || (FrameFits(t, e, xs[0]) && RunFits(t, EncFrame(t, e, xs[0]), xs[1..]))
  }

  ghost function EncRun(t: Tables, e: EncState, xs: seq<Input>): (e': EncState)
    requires AreTables(t) && IsEncState(e) && ProperRun(t, e, xs)
    ensures IsEncState(e')
    decreases |xs|
  {
    if xs == [] then e else EncRun(t, EncFrame(t, e, xs[0]), xs[1..])
  }

  // A frame on its way: its submode and its numbers.
  datatype Sent = Sent(m: nat, p: Params)

  ghost function SentRun(t: Tables, e: EncState, xs: seq<Input>): (s: seq<Sent>)
    requires AreTables(t) && IsEncState(e) && ProperRun(t, e, xs)
    ensures |s| == |xs|
    decreases |xs|
  {
    if xs == [] then []
    else [Sent(xs[0].m, SentParams(e.bounded, xs[0]))] + SentRun(t, EncFrame(t, e, xs[0]), xs[1..])
  }

  ghost predicate ProperSent(t: Tables, s: seq<Sent>)
    requires AreTables(t)
  {
    forall i :: 0 <= i < |s| ==> IsCoded(s[i].m) && ProperParams(t, s[i].m, s[i].p)
  }

  ghost function DecRun(t: Tables, d: DecState, s: seq<Sent>): (d': DecState)
    requires AreTables(t) && IsDecState(d) && ProperSent(t, s)
    ensures IsDecState(d')
    decreases |s|
  {
    if s == [] then d else DecRun(t, DecFrame(t, d, s[0].m, s[0].p), s[1..])
  }

  // However the encoder chooses, a decoder that starts out in agreement ends up in agreement,
  // frame after frame, as long as nothing leaves the range that both can represent.
  lemma {:induction false} RunAgrees(t: Tables, e: EncState, d: DecState, xs: seq<Input>)
    requires AreTables(t) && Agree(e, d) && ProperRun(t, e, xs) && RunFits(t, e, xs)
    ensures ProperSent(t, SentRun(t, e, xs)) && Agree(EncRun(t, e, xs), DecRun(t, d, SentRun(t, e, xs)))
    decreases |xs|
  {
    if xs != [] {
      var e1, p := EncFrame(t, e, xs[0]), SentParams(e.bounded, xs[0]);
      FrameAgrees(t, e, d, xs[0]);
      var d1 := DecFrame(t, d, xs[0].m, p);
      RunAgrees(t, e1, d1, xs[1..]);
      RunUnfolds(t, e, d, xs, e1, d1, p);
    }
  }

  lemma RunUnfolds(t: Tables, e: EncState, d: DecState, xs: seq<Input>, e1: EncState, d1: DecState, p: Params)
    requires AreTables(t) && IsEncState(e) && IsDecState(d) && xs != [] && ProperRun(t, e, xs)
    requires e1 == EncFrame(t, e, xs[0]) && p == SentParams(e.bounded, xs[0])
    requires ProperParams(t, xs[0].m, p) && d1 == DecFrame(t, d, xs[0].m, p)
    requires ProperSent(t, SentRun(t, e1, xs[1..]))
    ensures ProperSent(t, SentRun(t, e, xs))
    ensures EncRun(t, e, xs) == EncRun(t, e1, xs[1..])
    ensures DecRun(t, d, SentRun(t, e, xs)) == DecRun(t, d1, SentRun(t, e1, xs[1..]))
  {
    hide EncFrame, DecFrame, AreTables, ProperParams;
    assert IsCoded(xs[0].m) by { ProperParts(t, e.bounded, xs[0]); }
    hide ProperInput;
    var s := SentRun(t, e, xs);
    assert s[0] == Sent(xs[0].m, p) && s[1..] == SentRun(t, e1, xs[1..]);
    assert forall i :: 0 < i < |s| ==> s[i] == s[1..][i - 1];
  }
}
