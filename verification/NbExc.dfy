/** The array loops that nb_encode and nb_decode share. */
module NbExc {
  import opened Fixed
  import opened Modes
  import opened Ltp
  import opened LspStages
  import opened QuantLsp
  import opened NbSpec

  method SanitizeValues32(vec: array<int>)
    modifies vec
    ensures vec[..] == AllSane(old(vec[..]))
  {
    for i := 0 to vec.Length
      invariant forall k :: 0 <= k < vec.Length ==> vec[k] == if k < i then Sane(old(vec[k])) else old(vec[k])
    {
      if !(vec[i] >= -SANE && vec[i] <= SANE) {
        if vec[i] < -SANE {
          vec[i] := -SANE;
        } else if vec[i] > SANE {
          vec[i] := SANE;
        }
      }
    }
  }

  method SignalMul(x: array<int>, scale: int)
    modifies x
    ensures forall k :: 0 <= k < x.Length ==> x[k] == Scaled(old(x[k]), scale)
  {
    for i := 0 to x.Length
      invariant forall k :: 0 <= k < x.Length ==> x[k] == if k < i then Scaled(old(x[k]), scale) else old(x[k])
    {
      x[i] := Scaled(x[i], scale);
    }
  }

  method AddInnovation(innov: array<int>, innov2: array<int>)
    requires innov.Length == innov2.Length && innov != innov2
    modifies innov
    ensures forall k :: 0 <= k < innov.Length ==> innov[k] == Add32(old(innov[k]), innov2[k])
  {
    for i := 0 to innov.Length
      invariant forall k :: 0 <= k < innov.Length ==>
        innov[k] == if k < i then Add32(old(innov[k]), innov2[k]) else old(innov[k])
    {
      innov[i] := Add32(innov[i], innov2[i]);
    }
  }

  // The loop that writes the excitation of a subframe.
  method WriteExcitation(exc: array<int>, at: nat, exc32: array<int>, innov: array<int>)
    requires at + NB_SUBFRAME_SIZE <= exc.Length && exc32.Length == innov.Length == NB_SUBFRAME_SIZE
    requires exc != exc32 && exc != innov
    modifies exc
    ensures exc[..at] == old(exc[..at]) && exc[at + NB_SUBFRAME_SIZE..] == old(exc[at + NB_SUBFRAME_SIZE..])
    ensures exc[at..at + NB_SUBFRAME_SIZE] == NewSamples(exc32[..], innov[..])
  {
    hide NewSample;
    for i := 0 to NB_SUBFRAME_SIZE
      invariant forall k :: 0 <= k < exc.Length ==>
        exc[k] == if at <= k < at + i then NewSample(exc32[k - at], innov[k - at]) else old(exc[k])
    {
      exc[at + i] := NewSample(exc32[i], innov[i]);
    }
  }

  // SPEEX_MOVE(excBuf, excBuf + frameSize, n)
  method ShiftFrame(excBuf: array<int>, n: nat)
    requires NB_FRAME_SIZE + n <= excBuf.Length
    modifies excBuf
    ensures excBuf[..n] == old(excBuf[NB_FRAME_SIZE..NB_FRAME_SIZE + n])
    ensures excBuf[n..] == old(excBuf[n..])
  {
    for i := 0 to n
      invariant forall k :: 0 <= k < excBuf.Length ==>
        excBuf[k] == if k < i then old(excBuf[k + NB_FRAME_SIZE]) else old(excBuf[k])
    {
      excBuf[i] := excBuf[i + NB_FRAME_SIZE];
    }
  }

  method LspInterpolate(prev: array<int>, cur: array<int>, sub: nat) returns (interp: seq<int>)
    requires prev.Length == cur.Length == ORDER && sub < NB_NB_SUBFRAMES
    ensures interp == Interpolated(prev[..], cur[..], sub)
  {
    hide Mult16_16_P14, Wrap16;
    var tmp := 16384 * (1 + sub) / NB_NB_SUBFRAMES;
    var tmp2 := 16384 - tmp;
    interp := [];
    for i := 0 to ORDER
      invariant |interp| == i && forall k :: 0 <= k < i ==>
        interp[k] == Wrap16(Mult16_16_P14(tmp2, prev[k]) + Mult16_16_P14(tmp, cur[k]))
    {
      interp := interp + [Wrap16(Mult16_16_P14(tmp2, prev[i]) + Mult16_16_P14(tmp, cur[i]))];
    }
  }

  method CopyLsp(src: array<int>, dest: array<int>)
    requires src.Length == dest.Length && src != dest
    modifies dest
    ensures dest[..] == src[..]
  {
    for i := 0 to src.Length
      invariant forall k :: 0 <= k < i ==> dest[k] == src[k]
    {
      dest[i] := src[i];
    }
  }

  method InterpolateFrame(prev: array<int>, cur: array<int>) returns (interps: seq<seq<int>>)
    requires prev.Length == cur.Length == ORDER
    ensures interps == Interps(prev[..], cur[..])
  {
    hide Interpolated;
    interps := [];
    for sub := 0 to NB_NB_SUBFRAMES
      invariant |interps| == sub && forall k :: 0 <= k < sub ==> interps[k] == Interpolated(prev[..], cur[..], k)
    {
      var interp := LspInterpolate(prev, cur, sub);
      interps := interps + [interp];
    }
  }
}
