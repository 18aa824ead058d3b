/** The narrowband submodes of modes.c and the layout that each of them gives to a frame. */
module Modes {
  import opened BitReader

  const NB_SUBMODE_BITS := 4
  const SB_SUBMODE_BITS := 3
  const NB_FRAME_SIZE := 160
  const NB_SUBFRAME_SIZE := 40
  const NB_NB_SUBFRAMES := 4
  const NB_PITCH_START := 17
  const NB_PITCH_END := 144

  // The pitch quantiser: a three-tap gain codebook, or pitch and gain forced from outside.
  datatype PitchQuantiser = ForcedPitch | ThreeTap(gainBits: nat, pitchBits: nat)

  // The innovation quantiser: noise, or a codebook shared by equally long pieces of the subframe.
  datatype InnovationQuantiser = Noise | SplitCodebook(subvectSize: nat, nbSubvect: nat, shapeBits: nat)

  // How many six-bit stages the line spectral pairs take.
  datatype LspQuantiser = Lbr | Nb

  // lbrPitch is -1 or 0, haveSubframeGain is the number of bits of the subframe gain.
  datatype Submode = Submode(lbrPitch: int, forcedPitchGain: bool, haveSubframeGain: nat, doubleCodebook: bool,
                             lsp: LspQuantiser, ltp: PitchQuantiser, innovation: InnovationQuantiser, bitsPerFrame: nat)

  // The entries 1 to 8 of nb_mode.submodes.
  function NbSubmode(m: nat): (s: Submode)
    requires 1 <= m <= 8
  {
    if m == 1 then Submode(0, true, 0, false, Lbr, ForcedPitch, Noise, 43)
    else if m == 2 then Submode(0, false, 0, false, Lbr, ThreeTap(5, 0), SplitCodebook(10, 4, 4), 119)
    else if m == 3 then Submode(-1, false, 1, false, Lbr, ThreeTap(5, 7), SplitCodebook(10, 4, 5), 160)
    else if m == 4 then Submode(-1, false, 1, false, Lbr, ThreeTap(5, 7), SplitCodebook(8, 5, 7), 220)
    else if m == 5 then Submode(-1, false, 3, false, Nb, ThreeTap(7, 7), SplitCodebook(5, 8, 6), 300)
    else if m == 6 then Submode(-1, false, 3, false, Nb, ThreeTap(7, 7), SplitCodebook(5, 8, 8), 364)
    else if m == 7 then Submode(-1, false, 3, true, Nb, ThreeTap(7, 7), SplitCodebook(5, 8, 6), 492)
    else Submode(0, true, 0, false, Lbr, ForcedPitch, SplitCodebook(20, 2, 5), 79)
  }

  // The size of a whole frame; submode 0 is the bare header.
  function BitsPerFrame(m: nat): nat
    requires m <= 8
  {
    if m == 0 then NB_SUBMODE_BITS + 1 else NbSubmode(m).bitsPerFrame
  }

  function Repeat(n: nat, w: nat): seq<nat> { seq(n, _ => w) }

  function LspWidths(q: LspQuantiser): seq<nat> {
    Repeat(if q == Lbr then 3 else 5, 6)
  }

  function InnovationWidths(i: InnovationQuantiser): seq<nat> {
    if i == Noise then [] else Repeat(i.nbSubvect, i.shapeBits)
  }

  // Pitch and gain, the gain of the innovation, and the one or two codebook searches.
  function SubframeWidths(s: Submode): seq<nat> {
    (if s.ltp == ForcedPitch then [] else [s.ltp.pitchBits, s.ltp.gainBits])
    + (if s.haveSubframeGain > 0 then [s.haveSubframeGain] else [])
    + InnovationWidths(s.innovation)
    + (if s.doubleCodebook then InnovationWidths(s.innovation) else [])
  }

  function SubframesWidths(s: Submode, n: nat): seq<nat> {
    if n == 0 then [] else SubframesWidths(s, n - 1) + SubframeWidths(s)
  }

  // What comes before the subframes: the spectrum, the open-loop pitch and gains, and the
  // four bits that submode 1 spends on announcing silence.
  function PreambleWidths(m: nat): seq<nat>
    requires 1 <= m <= 8
  {
    var s := NbSubmode(m);
    LspWidths(s.lsp)
    + (if s.lbrPitch != -1 then [7] else [])
    + (if s.forcedPitchGain then [4] else [])
    + [5]
    + (if m == 1 then [4] else [])
  }

  // The widths of everything that follows the header of a frame.
  function Layout(m: nat): seq<nat>
    requires m <= 8
  {
    if m == 0 then [] else PreambleWidths(m) + SubframesWidths(NbSubmode(m), NB_NB_SUBFRAMES)
  }

  lemma {:induction false} TotalConcat(a: seq<nat>, b: seq<nat>)
    ensures Total(a + b) == Total(a) + Total(b)
  {
    if b == [] {
      assert a + b == a;
    } else {
      TotalConcat(a, b[..|b| - 1]);
      assert (a + b)[..|a + b| - 1] == a + b[..|b| - 1];
    }
  }

  lemma {:induction false} TotalRepeat(n: nat, w: nat)
    ensures Total(Repeat(n, w)) == n * w
  {
    if n > 0 {
      TotalRepeat(n - 1, w);
      assert Repeat(n, w)[..n - 1] == Repeat(n - 1, w);
    }
  }

  lemma TotalOne(w: nat)
    ensures Total([w]) == w && Total([]) == 0
  {
    assert Total([w]) == Total([w][..0]) + w;
  }

  function InnovationBits(i: InnovationQuantiser): nat {
    if i == Noise then 0 else i.nbSubvect * i.shapeBits
  }

  lemma SubframeTotal(s: Submode)
    ensures Total(SubframeWidths(s)) ==
            (if s.ltp == ForcedPitch then 0 else s.ltp.pitchBits + s.ltp.gainBits) + s.haveSubframeGain
            + (if s.doubleCodebook then 2 * InnovationBits(s.innovation) else InnovationBits(s.innovation))
  {
    var a := if s.ltp == ForcedPitch then [] else [s.ltp.pitchBits, s.ltp.gainBits];
    var b := if s.haveSubframeGain > 0 then [s.haveSubframeGain] else [];
    var c := InnovationWidths(s.innovation);
    var d := if s.doubleCodebook then c else [];
    TotalConcat(a + b + c, d);
    TotalConcat(a + b, c);
    TotalConcat(a, b);
    if s.ltp != ForcedPitch {
      assert a == [s.ltp.pitchBits] + [s.ltp.gainBits];
      TotalConcat([s.ltp.pitchBits], [s.ltp.gainBits]);
      TotalOne(s.ltp.pitchBits);
      TotalOne(s.ltp.gainBits);
    }
    TotalOne(s.haveSubframeGain);
    if s.innovation != Noise { TotalRepeat(s.innovation.nbSubvect, s.innovation.shapeBits); }
  }

  lemma SubframesTotal(s: Submode, t: nat)
    requires t == Total(SubframeWidths(s))
    ensures Total(SubframesWidths(s, 4)) == 4 * t
  {
    hide Total, SubframeWidths;
    FourSubframes(s);
    var w := SubframeWidths(s);
    TotalConcat(w + w + w, w);
    TotalConcat(w + w, w);
    TotalConcat(w, w);
  }

  lemma FourSubframes(s: Submode)
    ensures SubframesWidths(s, 4) == SubframeWidths(s) + SubframeWidths(s) + SubframeWidths(s) + SubframeWidths(s)
  {
    assert SubframesWidths(s, 1) == SubframeWidths(s);
    assert SubframesWidths(s, 2) == SubframesWidths(s, 1) + SubframeWidths(s);
    assert SubframesWidths(s, 3) == SubframesWidths(s, 2) + SubframeWidths(s);
  }

  lemma PreambleTotal(m: nat)
    requires 1 <= m <= 8
    ensures var s := NbSubmode(m);
            Total(PreambleWidths(m)) == (if s.lsp == Lbr then 18 else 30) + (if s.lbrPitch != -1 then 7 else 0)
                                        + (if s.forcedPitchGain then 4 else 0) + 5 + (if m == 1 then 4 else 0)
  {
    var s := NbSubmode(m);
    var a, b := LspWidths(s.lsp), if s.lbrPitch != -1 then [7] else [];
    var c, d := if s.forcedPitchGain then [4] else [], if m == 1 then [4] else [];
    TotalConcat(a + b + c + [5], d);
    TotalConcat(a + b + c, [5]);
    TotalConcat(a + b, c);
    TotalConcat(a, b);
    TotalRepeat(if s.lsp == Lbr then 3 else 5, 6);
    TotalOne(4);
    TotalOne(5);
    TotalOne(7);
  }

  lemma LayoutTotal(m: nat, s: Submode)
    requires 1 <= m <= 8 && s == NbSubmode(m)
    ensures Total(Layout(m)) == Total(PreambleWidths(m)) + 4 * Total(SubframeWidths(s))
  {
    hide Total, PreambleWidths, SubframesWidths, SubframeWidths, NbSubmode;
    SubframesTotal(s, Total(SubframeWidths(s)));
    TotalConcat(PreambleWidths(m), SubframesWidths(s, NB_NB_SUBFRAMES));
  }

  lemma CodedLayout(m: nat)
    requires 1 <= m <= 8
    ensures 5 + Total(Layout(m)) == BitsPerFrame(m)
  {
    hide Total, PreambleWidths, SubframesWidths, SubframeWidths, Layout;
    var s := NbSubmode(m);
    LayoutTotal(m, s);
    assert Total(PreambleWidths(m)) == [0, 38, 30, 23, 23, 35, 35, 35, 34][m] by { PreambleTotal(m); }
    assert Total(SubframeWidths(s)) == [0, 0, 21, 33, 48, 65, 81, 113, 10][m] by { SubframeTotal(s); }
  }

  // The fields of every submode fill exactly the frame size that its table entry promises.
  lemma LayoutFillsFrame(m: nat)
    requires m <= 8
    ensures NB_SUBMODE_BITS + 1 + Total(Layout(m)) == BitsPerFrame(m)
  {
    hide Total;
    if m == 0 {
      TotalOne(0);
    } else {
      CodedLayout(m);
    }
  }

  // ---------- the wideband layer ----------

  // The codebook of the high band, the same for every subframe; without one, the excitation of the
  // low band is folded.
  datatype HighCodebook = Folding | HighCodebook(subvectSize: nat, nbSubvect: nat, shapeBits: nat, haveSign: bool)

  datatype WbSubmode = WbSubmode(doubleCodebook: bool, innovation: HighCodebook, bitsPerFrame: nat)

  // wb_submode1 to wb_submode4
  function WbMode(m: nat): WbSubmode
    requires 1 <= m <= 4
  {
    if m == 1 then WbSubmode(false, Folding, 36)
    else if m == 2 then WbSubmode(false, HighCodebook(10, 4, 5, false), 112)
    else if m == 3 then WbSubmode(false, HighCodebook(8, 5, 7, true), 192)
    else WbSubmode(true, HighCodebook(8, 5, 7, true), 352)
  }

  function HighWidths(c: HighCodebook): seq<nat> {
    if c == Folding then [] else Repeat(c.nbSubvect, c.shapeBits + if c.haveSign then 1 else 0)
  }

  // The gain of a subframe, finer when it is all there is, and the one or two codebook searches.
  function WbSubframeWidths(s: WbSubmode): seq<nat> {
    [if s.innovation == Folding then 5 else 4] + HighWidths(s.innovation)
    + if s.doubleCodebook then HighWidths(s.innovation) else []
  }

  function WbSubframesWidths(s: WbSubmode, n: nat): seq<nat> {
    if n == 0 then [] else WbSubframesWidths(s, n - 1) + WbSubframeWidths(s)
  }

  // What sb_encode packs behind the bit and the submode that announce a layer.
  function WbLayout(m: nat): seq<nat>
    requires 1 <= m <= 4
  {
    Repeat(2, 6) + WbSubframesWidths(WbMode(m), 4)
  }

  lemma WbSubframeTotal(s: WbSubmode)
    ensures Total(WbSubframeWidths(s)) ==
            if s.innovation == Folding then 5
            else 4 + (if s.doubleCodebook then 2 else 1)
                     * (s.innovation.nbSubvect * (s.innovation.shapeBits + if s.innovation.haveSign then 1 else 0))
  {
    var c := HighWidths(s.innovation);
    var a, d := [if s.innovation == Folding then 5 else 4], if s.doubleCodebook then c else [];
    TotalConcat(a + c, d);
    TotalConcat(a, c);
    TotalOne(4);
    TotalOne(5);
    if s.innovation != Folding {
      TotalRepeat(s.innovation.nbSubvect, s.innovation.shapeBits + if s.innovation.haveSign then 1 else 0);
    }
  }

  lemma WbSubframesTotal(s: WbSubmode)
    ensures Total(WbSubframesWidths(s, 4)) == 4 * Total(WbSubframeWidths(s))
  {
    hide Total, WbSubframeWidths;
    var w := WbSubframeWidths(s);
    assert WbSubframesWidths(s, 1) == w;
    assert WbSubframesWidths(s, 2) == WbSubframesWidths(s, 1) + w;
    assert WbSubframesWidths(s, 3) == WbSubframesWidths(s, 2) + w;
    TotalConcat(w + w + w, w);
    TotalConcat(w + w, w);
    TotalConcat(w, w);
  }

  // So do the fields of a wideband layer, behind one bit and its submode.
  lemma WbLayoutFillsLayer(m: nat)
    requires 1 <= m <= 4
    ensures 1 + SB_SUBMODE_BITS + Total(WbLayout(m)) == WbMode(m).bitsPerFrame
  {
    hide Total, WbSubframeWidths, WbSubframesWidths;
    var s := WbMode(m);
    TotalConcat(Repeat(2, 6), WbSubframesWidths(s, 4));
    TotalRepeat(2, 6);
    WbSubframesTotal(s);
    WbSubframeTotal(s);
  }
}
