/** Long-term prediction: the excitation that the pitch search of the encoder settles on and
    the one that the decoder rebuilds from the pitch and gain indices (ltp.c, fixed-point build). */
module Ltp {
  import opened Fixed
  import opened Modes

  // Samples that the longest lag of the three taps reaches back.
  const HISTORY := NB_PITCH_END + 2

  // Of the gain codebook only the size of its entries and its first vector matter: it is
  // silence, since 32 is added to every gain.
  ghost predicate IsGainCodebook(cdbk: seq<int>, bits: nat) {
    && 0 < |cdbk| == 4 * GainVectors(bits)
    && (forall i :: 0 <= i < |cdbk| ==> -128 <= cdbk[i] < 128)
    && cdbk[0] == cdbk[1] == cdbk[2] == -32
  }

  // 1 << gain_bits, for the two sizes in use
  function GainVectors(bits: nat): (n: nat)
    ensures n > 0
  {
    if bits == 5 then 32 else if bits == 7 then 128 else 1
  }

  // The gains of vector index, one per tap.
  function Gain(cdbk: seq<int>, index: nat, tap: nat): int
    requires tap < 3 && 4 * index + 2 < |cdbk|
  {
    Wrap16(32 + cdbk[4 * index + tap])
  }

  // One tap's share in sample j: h holds the past, newest last; lags beyond the subframe
  // repeat one pitch period, and what is still not there adds nothing.
  function Tap(c: int, h: seq<int>, pitch: nat, i: nat, j: nat, g: int): int
    requires |h| == HISTORY && i < 3 && 0 < pitch <= NB_PITCH_END
  {
    var pp := pitch + 1 - i;
    if j < pp then Mac16_16(c, g, h[HISTORY + j - pp])
    else if j < pp + pitch then Mac16_16(c, g, h[HISTORY + j - pp - pitch])
    else c
  }

  // SHL16(gain, 7)
  function Shifted(gain: int): int { Wrap16(128 * gain) }

  // The first n taps of sample j, in the order in which the loops add them.
  function Taps(n: nat, h: seq<int>, pitch: nat, cdbk: seq<int>, index: nat, j: nat): int
    requires n <= 3 && |h| == HISTORY && 0 < pitch <= NB_PITCH_END && 4 * index + 2 < |cdbk|
  {
    if n == 0 then 0
    else Tap(Taps(n - 1, h, pitch, cdbk, index, j), h, pitch, n - 1, j, Shifted(Gain(cdbk, index, 3 - n)))
  }

  // The adaptive codebook contribution to a subframe.
  function Adaptive(h: seq<int>, pitch: nat, cdbk: seq<int>, index: nat): (e: seq<int>)
    requires |h| == HISTORY && 0 < pitch <= NB_PITCH_END && 4 * index + 2 < |cdbk|
    ensures |e| == NB_SUBFRAME_SIZE
  {
    seq(NB_SUBFRAME_SIZE, j requires 0 <= j < NB_SUBFRAME_SIZE => Taps(3, h, pitch, cdbk, index, j))
  }

  function Silence(): (e: seq<int>)
    ensures |e| == NB_SUBFRAME_SIZE
  {
    seq(NB_SUBFRAME_SIZE, _ => 0)
  }

  // The first gain vector gives silence at any pitch: the decoder follows an encoder that
  // found no pitch to search and sent zeros.
  lemma FirstVectorIsSilence(h: seq<int>, pitch: nat, cdbk: seq<int>, bits: nat)
    requires |h| == HISTORY && 0 < pitch <= NB_PITCH_END && IsGainCodebook(cdbk, bits)
    ensures Adaptive(h, pitch, cdbk, 0) == Silence()
  {
    forall j | 0 <= j < NB_SUBFRAME_SIZE ensures Taps(3, h, pitch, cdbk, 0, j) == 0 {
      NoTaps(h, pitch, cdbk, j);
    }
  }

  lemma NoTaps(h: seq<int>, pitch: nat, cdbk: seq<int>, j: nat)
    requires |h| == HISTORY && 0 < pitch <= NB_PITCH_END && 4 <= |cdbk|
    requires cdbk[0] == cdbk[1] == cdbk[2] == -32
    ensures Taps(3, h, pitch, cdbk, 0, j) == 0
  {
    assert Shifted(Gain(cdbk, 0, 0)) == Shifted(Gain(cdbk, 0, 1)) == Shifted(Gain(cdbk, 0, 2)) == 0;
    hide Tap, Gain, Shifted;
    ZeroGain(h, pitch, 0, j);
    ZeroGain(h, pitch, 1, j);
    ZeroGain(h, pitch, 2, j);
    assert Taps(1, h, pitch, cdbk, 0, j) == 0;
    assert Taps(2, h, pitch, cdbk, 0, j) == 0;
  }

  lemma ZeroGain(h: seq<int>, pitch: nat, i: nat, j: nat)
    requires |h| == HISTORY && i < 3 && 0 < pitch <= NB_PITCH_END
    ensures Tap(0, h, pitch, i, j, 0) == 0
  {
    ZeroTimes();
  }

  lemma ZeroTimes()
    ensures forall x :: Mac16_16(0, 0, x) == 0
  {
  }

  // ---------- the two implementations ----------

  // The past samples that the pointer exc of the source sees before index at.
  ghost predicate Past(exc: seq<int>, at: nat, h: seq<int>) {
    HISTORY <= at <= |exc| && h == exc[at - HISTORY..at]
  }

  // The two inner loops, the same on both sides: one tap with the shifted gain g.
  method AddTap(exc: array<int>, at: nat, excOut: array<int>, pitch: nat, i: nat, g: int, ghost h: seq<int>)
    requires Past(exc[..], at, h) && 0 < pitch <= NB_PITCH_END && i < 3
    requires excOut.Length == NB_SUBFRAME_SIZE && excOut != exc
    modifies excOut
    ensures forall k :: 0 <= k < NB_SUBFRAME_SIZE ==> excOut[k] == Tap(old(excOut[k]), h, pitch, i, k, g)
  {
    hide Mac16_16;
    var nsf, pp := NB_SUBFRAME_SIZE, pitch + 1 - i;
    var tmp1 := if nsf > pp then pp else nsf;
    for j := 0 to tmp1
      invariant forall k :: 0 <= k < nsf ==>
        excOut[k] == if k < j then Tap(old(excOut[k]), h, pitch, i, k, g) else old(excOut[k])
    {
      assert exc[..][at + j - pp] == h[HISTORY + j - pp];
      excOut[j] := Mac16_16(excOut[j], g, exc[at + j - pp]);
    }
    var tmp3 := if nsf > pp + pitch then pp + pitch else nsf;
    for j := tmp1 to tmp3
      invariant forall k :: 0 <= k < nsf ==>
        excOut[k] == if k < j then Tap(old(excOut[k]), h, pitch, i, k, g) else old(excOut[k])
    {
      assert exc[..][at + j - pp - pitch] == h[HISTORY + j - pp - pitch];
      excOut[j] := Mac16_16(excOut[j], g, exc[at + j - pp - pitch]);
    }
  }

  method Clear(x: array<int>, at: nat)
    requires at + NB_SUBFRAME_SIZE <= x.Length
    modifies x
    ensures x[..] == old(x[..at]) + Silence() + old(x[at + NB_SUBFRAME_SIZE..])
  {
    for j := 0 to NB_SUBFRAME_SIZE
      invariant forall k :: 0 <= k < x.Length ==> x[k] == if at <= k < at + j then 0 else old(x[k])
    {
      x[at + j] := 0;
    }
  }

  // pitch_unquant_3tap without losses: the gains are shifted first.
  method PitchUnquant3Tap(exc: array<int>, at: nat, excOut: array<int>, pitch: nat, cdbk: seq<int>, index: nat,
                          ghost h: seq<int>)
    requires Past(exc[..], at, h) && 0 < pitch <= NB_PITCH_END && 4 * index + 2 < |cdbk|
    requires excOut.Length == NB_SUBFRAME_SIZE && excOut != exc
    modifies excOut
    ensures excOut[..] == Adaptive(h, pitch, cdbk, index)
  {
    hide Tap, Gain, Shifted;
    var gain := [Shifted(Gain(cdbk, index, 0)), Shifted(Gain(cdbk, index, 1)), Shifted(Gain(cdbk, index, 2))];
    Clear(excOut, 0);
    for i := 0 to 3
      invariant forall k :: 0 <= k < NB_SUBFRAME_SIZE ==> excOut[k] == Taps(i, h, pitch, cdbk, index, k)
    {
      AddTap(exc, at, excOut, pitch, i, gain[2 - i], h);
    }
  }

  // The excitation part of pitch_gain_search_3tap: the gains are shifted as they are used.
  method PitchGainExcitation(exc2: array<int>, at: nat, exc: array<int>, pitch: nat, cdbk: seq<int>, index: nat,
                             ghost h: seq<int>)
    requires Past(exc2[..], at, h) && 0 < pitch <= NB_PITCH_END && 4 * index + 2 < |cdbk|
    requires exc.Length == NB_SUBFRAME_SIZE && exc != exc2
    modifies exc
    ensures exc[..] == Adaptive(h, pitch, cdbk, index)
  {
    hide Tap, Gain, Shifted;
    var gain := [Gain(cdbk, index, 0), Gain(cdbk, index, 1), Gain(cdbk, index, 2)];
    Clear(exc, 0);
    for i := 0 to 3
      invariant forall k :: 0 <= k < NB_SUBFRAME_SIZE ==> exc[k] == Taps(i, h, pitch, cdbk, index, k)
    {
      AddTap(exc2, at, exc, pitch, i, Shifted(gain[2 - i]), h);
    }
  }
}
