/** Encoder and decoder of the narrowband codec as state machines: what a frame of submode 2 to 7
    does to the past excitation and to the spectrum kept for interpolation, on either side. */
module NbSpec {
  import opened Fixed
  import opened Modes
  import opened Ltp
  import opened Innovation
  import opened LspStages
  import opened QuantLsp

  // The code and gain tables; their entries do not matter beyond AreTables.
  datatype Tables = Tables(lsp: Books, gainLbr: seq<int>, gainNb: seq<int>, shapes: seq<seq<int>>,
                           scal1: seq<int>, scal3: seq<int>, olGain: seq<int>)

  predicate IsCoded(m: nat) { 2 <= m <= 7 }

  // The innovation codebook of a submode.
  function Book(t: Tables, m: nat): Codebook
    requires IsCoded(m) && |t.shapes| == 9
  {
    var i := NbSubmode(m).innovation;
    Codebook(i.subvectSize, i.nbSubvect, i.shapeBits, false, t.shapes[m])
  }

  function GainBook(t: Tables, m: nat): seq<int>
    requires IsCoded(m)
  {
    if m <= 4 then t.gainLbr else t.gainNb
  }

  ghost predicate AreTables(t: Tables) {
    && AreBooks(t.lsp) && IsGainCodebook(t.gainLbr, 5) && IsGainCodebook(t.gainNb, 7)
    && |t.shapes| == 9 && (forall m: nat :: IsCoded(m) ==> IsCodebook(Book(t, m)))
    && |t.scal1| == 2 && |t.scal3| == 8 && |t.olGain| == 32
  }

  // ---------- what a frame carries ----------

  // The numbers of a subframe and of a frame, as they are packed.
  datatype Sub = Sub(pitch: nat, gain: nat, energy: nat, shape: seq<nat>, shape2: seq<nat>)

  datatype Params = Params(lspIds: seq<nat>, olPitch: nat, olGain: nat, subs: seq<Sub>)

  function LspStageCount(m: nat): nat
    requires IsCoded(m)
  {
    if NbSubmode(m).lsp == Lbr then 3 else 5
  }

  function HasOlPitch(m: nat): bool
    requires IsCoded(m)
  {
    NbSubmode(m).lbrPitch != -1
  }

  ghost predicate ProperShapes(c: Codebook, inds: seq<nat>) {
    |inds| == c.nbSubvect && AreIndices(c, inds)
  }

  ghost predicate ProperSub(t: Tables, m: nat, s: Sub)
    requires IsCoded(m) && AreTables(t)
  {
    var sm := NbSubmode(m);
    && s.pitch < (if sm.ltp.pitchBits == 7 then 128 else 1)
    && s.gain < GainVectors(sm.ltp.gainBits)
    && s.energy < (if sm.haveSubframeGain == 3 then 8 else if sm.haveSubframeGain == 1 then 2 else 1)
    && ProperShapes(Book(t, m), s.shape)
    && (if sm.doubleCodebook then ProperShapes(Book(t, m), s.shape2) else s.shape2 == [])
  }

  ghost predicate ProperParams(t: Tables, m: nat, p: Params)
    requires IsCoded(m) && AreTables(t)
  {
    && AreIds(p.lspIds, LspStageCount(m))
    && p.olPitch < (if HasOlPitch(m) then 128 else 1) && p.olGain < 32
    && |p.subs| == NB_NB_SUBFRAMES && forall i :: 0 <= i < NB_NB_SUBFRAMES ==> ProperSub(t, m, p.subs[i])
  }

  // ---------- excitation ----------

  function OlGain(t: Tables, qe: nat): int
    requires qe < |t.olGain|
  {
    Mult16_32_Q15(28406, t.olGain[qe])
  }

  // The gain of the innovation of a subframe.
  function Energy(t: Tables, m: nat, qe: nat, olGain: int): int
    requires IsCoded(m) && |t.scal1| == 2 && |t.scal3| == 8
  {
    var bits := NbSubmode(m).haveSubframeGain;
    if bits == 3 then (if qe < 8 then Mult16_32_Q14(t.scal3[qe], olGain) else 0)
    else if bits == 1 then (if qe < 2 then Mult16_32_Q14(t.scal1[qe], olGain) else 0)
    else olGain
  }

  // signal_mul on one sample
  function Scaled(x: int, scale: int): int { Shl32(Mult16_32_Q14(Wrap16(x / 128), scale), 128) }

  // 0.454545 of the gain, for the second codebook
  function SecondEnergy(ener: int): int { Mult16_32_Q15(14895, ener) }

  lemma BookSize(t: Tables, m: nat)
    requires IsCoded(m) && AreTables(t)
    ensures Book(t, m).nbSubvect * Book(t, m).subvectSize == NB_SUBFRAME_SIZE && IsCodebook(Book(t, m))
  {
  }

  ghost function Shape40(t: Tables, m: nat, inds: seq<nat>): (e: seq<int>)
    requires IsCoded(m) && AreTables(t) && ProperShapes(Book(t, m), inds)
    ensures |e| == NB_SUBFRAME_SIZE
  {
    BookSize(t, m);
    ExcitationLength(Book(t, m), inds);
    Excitation(Book(t, m), inds)
  }

  // The scaled innovation, from one or from two searches.
  ghost function Innov(t: Tables, m: nat, s: Sub, ener: int): (e: seq<int>)
    requires IsCoded(m) && AreTables(t) && ProperSub(t, m, s)
    ensures |e| == NB_SUBFRAME_SIZE
  {
    var x := Shape40(t, m, s.shape);
    if NbSubmode(m).doubleCodebook then
      var y := Shape40(t, m, s.shape2);
      seq(NB_SUBFRAME_SIZE,
          j requires 0 <= j < NB_SUBFRAME_SIZE => Add32(Scaled(x[j], ener), Scaled(y[j], SecondEnergy(ener))))
    else seq(NB_SUBFRAME_SIZE, j requires 0 <= j < NB_SUBFRAME_SIZE => Scaled(x[j], ener))
  }

  // The excitation sample from its adaptive and its fixed part.
  function NewSample(exc32: int, innov: int): int {
    Saturate(Pshr32Sig(Add32(Shl32(exc32, 2), innov)), 32767)
  }

  ghost function NewSamples(exc32: seq<int>, innov: seq<int>): (e: seq<int>)
    requires |exc32| == |innov| == NB_SUBFRAME_SIZE
    ensures |e| == NB_SUBFRAME_SIZE
  {
    seq(NB_SUBFRAME_SIZE, j requires 0 <= j < NB_SUBFRAME_SIZE => NewSample(exc32[j], innov[j]))
  }

  // QCONST32(32000, SIG_SHIFT - 1)
  const SANE := 262144000

  // sanitize_values32 on one sample
  function Sane(x: int): int {
    if x < -SANE then -SANE else if x > SANE then SANE else x
  }

  ghost function AllSane(e: seq<int>): (r: seq<int>)
    ensures |r| == |e|
  {
    seq(|e|, j requires 0 <= j < |e| => Sane(e[j]))
  }

  // The last samples, after new ones have come in.
  ghost function Slide(h: seq<int>, e: seq<int>): (h': seq<int>)
    requires |h| == HISTORY && |e| <= HISTORY
    ensures |h'| == HISTORY
  {
    h[|e|..] + e
  }

  // ---------- the decoder ----------

  // The smallest pitch of a subframe, which the pitch index counts from.
  function PitchStart(m: nat, olPitch: nat): nat
    requires IsCoded(m)
  {
    if HasOlPitch(m) then NB_PITCH_START + olPitch else NB_PITCH_START
  }

  lemma PitchRange(t: Tables, m: nat, olPitch: nat, s: Sub)
    requires IsCoded(m) && AreTables(t) && ProperSub(t, m, s) && olPitch < (if HasOlPitch(m) then 128 else 1)
    ensures 0 < PitchStart(m, olPitch) + s.pitch <= NB_PITCH_END && 4 * s.gain + 2 < |GainBook(t, m)|
  {
  }

  ghost function DecExc32(t: Tables, m: nat, h: seq<int>, olPitch: nat, s: Sub): (e: seq<int>)
    requires IsCoded(m) && AreTables(t) && ProperSub(t, m, s) && |h| == HISTORY
    requires olPitch < (if HasOlPitch(m) then 128 else 1)
    ensures |e| == NB_SUBFRAME_SIZE
  {
    PitchRange(t, m, olPitch, s);
    AllSane(Adaptive(h, PitchStart(m, olPitch) + s.pitch, GainBook(t, m), s.gain))
  }

  ghost function DecSub(t: Tables, m: nat, h: seq<int>, olPitch: nat, olGain: int, s: Sub): (e: seq<int>)
    requires IsCoded(m) && AreTables(t) && ProperSub(t, m, s) && |h| == HISTORY
    requires olPitch < (if HasOlPitch(m) then 128 else 1)
    ensures |e| == NB_SUBFRAME_SIZE
  {
    NewSamples(DecExc32(t, m, h, olPitch, s), Innov(t, m, s, Energy(t, m, s.energy, olGain)))
  }

  // The past after n subframes.
  ghost function DecSubs(t: Tables, m: nat, h: seq<int>, p: Params, n: nat): (h': seq<int>)
    requires IsCoded(m) && AreTables(t) && ProperParams(t, m, p) && |h| == HISTORY && n <= NB_NB_SUBFRAMES
    ensures |h'| == HISTORY
  {
    if n == 0 then h
    else
      var h1 := DecSubs(t, m, h, p, n - 1);
      Slide(h1, DecSub(t, m, h1, p.olPitch, OlGain(t, p.olGain), p.subs[n - 1]))
  }

  datatype DecState = DecState(h: seq<int>, oldQlsp: seq<int>, first: bool)

  ghost predicate IsDecState(d: DecState) { |d.h| == HISTORY && |d.oldQlsp| == ORDER }

  ghost function DecQlsp(t: Tables, m: nat, ids: seq<nat>): (q: seq<int>)
    requires IsCoded(m) && AreTables(t) && AreIds(ids, LspStageCount(m))
    ensures |q| == ORDER
  {
    if NbSubmode(m).lsp == Lbr then LbrVector(t.lsp, ids) else NbVector(t.lsp, ids)
  }

  // lsp_interpolate for subframe sub of four
  ghost function Interpolated(prev: seq<int>, cur: seq<int>, sub: nat): seq<int>
    requires |prev| == |cur| == ORDER && sub < NB_NB_SUBFRAMES
  {
    var tmp := 4096 * (1 + sub);
    seq(ORDER, i requires 0 <= i < ORDER => Wrap16(Mult16_16_P14(16384 - tmp, prev[i]) + Mult16_16_P14(tmp, cur[i])))
  }

  ghost predicate Is16(s: seq<int>) { forall i :: 0 <= i < |s| ==> -0x8000 <= s[i] < 0x8000 }

  // The spectra go in four equal steps from prev to cur: each entry is within one unit of the line, and
  // the last spectrum is cur itself. The sum of two entries of 32767 wraps in the second step.
  ghost predicate OnTheLine(prev: seq<int>, cur: seq<int>, s: seq<seq<int>>)
    requires |prev| == |cur| == ORDER
  {
    && |s| == NB_NB_SUBFRAMES && s[3] == cur && (forall sub :: 0 <= sub < 4 ==> |s[sub]| == ORDER)
    && forall sub, i :: 0 <= sub < 4 && 0 <= i < ORDER && (prev[i] < 32767 || cur[i] < 32767) ==>
         -4 <= 4 * s[sub][i] - ((3 - sub) * prev[i] + (sub + 1) * cur[i]) <= 4
  }

  lemma StepOnTheLine(p: int, c: int, sub: nat)
    requires sub < 4 && -0x8000 <= p < 0x8000 && -0x8000 <= c < 0x8000 && (p < 32767 || c < 32767)
    ensures var tmp := 4096 * (1 + sub);
            var v := Wrap16(Mult16_16_P14(16384 - tmp, p) + Mult16_16_P14(tmp, c));
            -4 <= 4 * v - ((3 - sub) * p + (sub + 1) * c) <= 4
  {
    hide Mult16_16_P14;
    Quarters(3 - sub, p);
    Quarters(sub + 1, c);
    assert sub == 0 || sub == 1 || sub == 2 || sub == 3;
  }

  lemma Quarters(k: int, x: int)
    requires 0 <= k <= 4 && -0x8000 <= x < 0x8000
    ensures Mult16_16_P14(4096 * k, x) == (k * x + 2) / 4
  {
    assert Wrap16(4096 * k) == 4096 * k && Wrap16(x) == x;
    hide Wrap16, Wrap32;
    FewTimes(k, x);
    var y := k * x;
    assert Mult16_16(4096 * k, x) == 4096 * y;
    assert Add32(0x2000, 4096 * y) == 0x2000 + 4096 * y;
    assert (0x2000 + 4096 * y) / 0x4000 == (y + 2) / 4;
  }

  lemma FewTimes(k: int, x: int)
    requires 0 <= k <= 4 && -0x8000 <= x < 0x8000
    ensures (4096 * k) * x == 4096 * (k * x) && -0x2_0000 <= k * x <= 0x2_0000
  {
    assert k == 0 || k == 1 || k == 2 || k == 3 || k == 4;
  }

  lemma LastStep(p: int, c: int)
    requires -0x8000 <= c < 0x8000
    ensures Wrap16(Mult16_16_P14(0, p) + Mult16_16_P14(16384, c)) == c
  {
    ZeroTimesAny(p);
  }

  lemma ZeroTimesAny(p: int)
    ensures Mult16_16_P14(0, p) == 0
  {
  }

  // The spectra of a frame lie on the line between the one before it and its own.
  lemma InterpsOnTheLine(prev: seq<int>, cur: seq<int>)
    requires |prev| == |cur| == ORDER && Is16(cur)
    ensures Interps(prev, cur)[3] == cur
    ensures Is16(prev) ==> OnTheLine(prev, cur, Interps(prev, cur))
  {
    hide Mult16_16_P14, Wrap16;
    forall i | 0 <= i < ORDER ensures Interpolated(prev, cur, 3)[i] == cur[i] { LastStep(prev[i], cur[i]); }
    if Is16(prev) {
      forall sub, i | 0 <= sub < 4 && 0 <= i < ORDER && (prev[i] < 32767 || cur[i] < 32767)
        ensures -4 <= 4 * Interpolated(prev, cur, sub)[i] - ((3 - sub) * prev[i] + (sub + 1) * cur[i]) <= 4
      {
        StepOnTheLine(prev[i], cur[i], sub);
      }
    }
  }

  // The one exception.
  lemma LoudSpectrumWraps(prev: seq<int>, cur: seq<int>, i: nat)
    requires |prev| == |cur| == ORDER && i < ORDER && prev[i] == cur[i] == 32767
    ensures Interpolated(prev, cur, 1)[i] == -32768
  {
  }

  // The spectra of the four subframes.
  ghost function Interps(prev: seq<int>, cur: seq<int>): (s: seq<seq<int>>)
    requires |prev| == |cur| == ORDER
    ensures |s| == NB_NB_SUBFRAMES
  {
    seq(NB_NB_SUBFRAMES, sub requires 0 <= sub < NB_NB_SUBFRAMES => Interpolated(prev, cur, sub))
  }

  // What the interpolation of a frame starts from.
  ghost function FromQlsp(first: bool, prev: seq<int>, qlsp: seq<int>): seq<int> { if first then qlsp else prev }

  ghost function DecFrame(t: Tables, d: DecState, m: nat, p: Params): (d': DecState)
    requires IsCoded(m) && AreTables(t) && ProperParams(t, m, p) && IsDecState(d)
    ensures IsDecState(d')
  {
    DecState(DecSubs(t, m, d.h, p, NB_NB_SUBFRAMES), DecQlsp(t, m, p.lspIds), false)
  }

  ghost function DecInterps(t: Tables, d: DecState, m: nat, p: Params): seq<seq<int>>
    requires IsCoded(m) && AreTables(t) && ProperParams(t, m, p) && IsDecState(d)
  {
    var q := DecQlsp(t, m, p.lspIds);
    Interps(FromQlsp(d.first, d.oldQlsp, q), q)
  }

  // ---------- the encoder ----------

  // What the searches of the encoder settle on: any pitch in its range and any indices.
  datatype Choice = Choice(pitch: nat, sub: Sub)

  datatype Input = Input(m: nat, lsp: seq<int>, ids: seq<nat>, olPitch: nat, olGain: nat, choices: seq<Choice>)

  datatype EncState = EncState(h: seq<int>, oldQlsp: seq<int>, first: bool, bounded: bool)

  ghost predicate IsEncState(e: EncState) { |e.h| == HISTORY && |e.oldQlsp| == ORDER }

  // Only some submodes search around an open-loop pitch and send it.
  predicate OlPitchFits(m: nat, olPitch: nat)
    requires IsCoded(m)
  {
    HasOlPitch(m) ==> NB_PITCH_START <= olPitch <= NB_PITCH_END
  }

  // The range of the pitch search; right after a reset it must stay within the frame.
  function SearchStart(m: nat, olPitch: nat): nat
    requires IsCoded(m)
  {
    if HasOlPitch(m) then olPitch else NB_PITCH_START
  }

  function SearchEnd(m: nat, olPitch: nat, bounded: bool, sub: nat): int
    requires IsCoded(m)
  {
    var max := if HasOlPitch(m) then olPitch else NB_PITCH_END;
    if bounded && max > NB_SUBFRAME_SIZE * sub then NB_SUBFRAME_SIZE * sub else max
  }

  ghost predicate ProperChoice(t: Tables, m: nat, olPitch: nat, bounded: bool, sub: nat, c: Choice)
    requires IsCoded(m) && AreTables(t)
  {
    && ProperSub(t, m, c.sub)
    && (SearchStart(m, olPitch) <= SearchEnd(m, olPitch, bounded, sub) ==>
          SearchStart(m, olPitch) <= c.pitch <= SearchEnd(m, olPitch, bounded, sub))
  }

  ghost predicate ProperInput(t: Tables, bounded: bool, x: Input)
    requires AreTables(t)
  {
    && IsCoded(x.m) && AreLsps(x.lsp) && AreIds(x.ids, LspStageCount(x.m))
    && OlPitchFits(x.m, x.olPitch) && x.olGain < 32 && |x.choices| == NB_NB_SUBFRAMES
    && forall i: nat :: i < NB_NB_SUBFRAMES ==> ProperChoice(t, x.m, x.olPitch, bounded, i, x.choices[i])
  }

  lemma ProperParts(t: Tables, bounded: bool, x: Input)
    requires AreTables(t) && ProperInput(t, bounded, x)
    ensures IsCoded(x.m) && AreLsps(x.lsp) && AreIds(x.ids, LspStageCount(x.m)) && |x.choices| == NB_NB_SUBFRAMES
  {
  }

  // What pitch_search_3tap sends: zeros when there is nothing to search.
  function Sent(m: nat, olPitch: nat, bounded: bool, sub: nat, c: Choice): Sub
    requires IsCoded(m)
  {
    var start := SearchStart(m, olPitch);
    if SearchEnd(m, olPitch, bounded, sub) < start then c.sub.(pitch := 0, gain := 0)
    else if c.pitch < start then c.sub else c.sub.(pitch := c.pitch - start)
  }

  ghost function EncExc32(t: Tables, m: nat, h: seq<int>, olPitch: nat, bounded: bool, sub: nat,
                          c: Choice): (e: seq<int>)
    requires IsCoded(m) && AreTables(t) && ProperChoice(t, m, olPitch, bounded, sub, c) && |h| == HISTORY
    requires OlPitchFits(m, olPitch)
    ensures |e| == NB_SUBFRAME_SIZE
  {
    if SearchEnd(m, olPitch, bounded, sub) < SearchStart(m, olPitch) then Silence()
    else Adaptive(h, c.pitch, GainBook(t, m), c.sub.gain)
  }

  ghost function EncSub(t: Tables, h: seq<int>, bounded: bool, x: Input, sub: nat): (e: seq<int>)
    requires AreTables(t) && ProperInput(t, bounded, x) && |h| == HISTORY && sub < NB_NB_SUBFRAMES
    ensures |e| == NB_SUBFRAME_SIZE
  {
    var c := x.choices[sub];
    NewSamples(EncExc32(t, x.m, h, x.olPitch, bounded, sub, c),
               Innov(t, x.m, c.sub, Energy(t, x.m, c.sub.energy, OlGain(t, x.olGain))))
  }

  ghost function EncSubs(t: Tables, h: seq<int>, bounded: bool, x: Input, n: nat): (h': seq<int>)
    requires AreTables(t) && ProperInput(t, bounded, x) && |h| == HISTORY && n <= NB_NB_SUBFRAMES
    ensures |h'| == HISTORY
  {
    if n == 0 then h
    else
      var h1 := EncSubs(t, h, bounded, x, n - 1);
      Slide(h1, EncSub(t, h1, bounded, x, n - 1))
  }

  // qlsp as the quantiser of the encoder leaves it.
  ghost function Quantised(t: Tables, m: nat, lsp: seq<int>, ids: seq<nat>): (q: seq<int>)
    requires AreTables(t) && IsCoded(m) && |lsp| == ORDER && AreIds(ids, LspStageCount(m))
    ensures |q| == ORDER
  {
    if NbSubmode(m).lsp == Lbr then
      seq(ORDER, i requires 0 <= i < ORDER => Quantised2(lsp[i], Linear(i), LbrCode(t.lsp, ids, 0, i),
          LbrCode(t.lsp, ids, 1, i)))
    else
      seq(ORDER, i requires 0 <= i < ORDER =>
        Quantised3(lsp[i], Linear(i), NbCode(t.lsp, ids, 0, i), NbCode(t.lsp, ids, 1, i), NbCode(t.lsp, ids, 2, i)))
  }

  // The indices of a spectrum are those that the searches choose for it.
  ghost predicate ChosenIds(t: Tables, m: nat, lsp: seq<int>, ids: seq<nat>)
    requires AreTables(t) && IsCoded(m) && |lsp| == ORDER && AreIds(ids, LspStageCount(m))
  {
    if NbSubmode(m).lsp == Lbr then LbrChosen(LessLinear(lsp, false), Weights(lsp), t.lsp, ids)
    else NbChosen(LessLinear(lsp, false), Weights(lsp), t.lsp, ids)
  }

  // The spectra of both sides are 16-bit numbers.
  lemma QlspIs16(t: Tables, m: nat, lsp: seq<int>, ids: seq<nat>)
    requires AreTables(t) && IsCoded(m) && |lsp| == ORDER && AreIds(ids, LspStageCount(m))
    ensures Is16(Quantised(t, m, lsp, ids))
  {
    hide NbCode, LbrCode, Quartered, Halved, Residual2, Residual3, Wrap16;
  }

  lemma DecQlspIs16(t: Tables, m: nat, ids: seq<nat>)
    requires AreTables(t) && IsCoded(m) && AreIds(ids, LspStageCount(m))
    ensures Is16(DecQlsp(t, m, ids))
  {
    hide NbCode, LbrCode, Wrap16;
  }

  ghost function EncQlsp(t: Tables, x: Input): (q: seq<int>)
    requires AreTables(t) && IsCoded(x.m) && |x.lsp| == ORDER && AreIds(x.ids, LspStageCount(x.m))
    ensures |q| == ORDER
  {
    Quantised(t, x.m, x.lsp, x.ids)
  }

  ghost function EncFrame(t: Tables, e: EncState, x: Input): (e': EncState)
    requires AreTables(t) && ProperInput(t, e.bounded, x) && IsEncState(e)
    ensures IsEncState(e')
  {
    EncState(EncSubs(t, e.h, e.bounded, x, NB_NB_SUBFRAMES), EncQlsp(t, x), false, false)
  }

  ghost function EncInterps(t: Tables, e: EncState, x: Input): seq<seq<int>>
    requires AreTables(t) && ProperInput(t, e.bounded, x) && IsEncState(e)
  {
    var q := EncQlsp(t, x);
    Interps(FromQlsp(e.first, e.oldQlsp, q), q)
  }

  // What the encoder packs for a frame.
  ghost function SentParams(bounded: bool, x: Input): Params
    requires IsCoded(x.m) && |x.choices| == NB_NB_SUBFRAMES
  {
    Params(x.ids, if HasOlPitch(x.m) then (if x.olPitch < NB_PITCH_START then 0 else x.olPitch - NB_PITCH_START)
        else 0, x.olGain,
           seq(NB_NB_SUBFRAMES, i requires 0 <= i < NB_NB_SUBFRAMES => Sent(x.m, x.olPitch, bounded, i, x.choices[i])))
  }
}
