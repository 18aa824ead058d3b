/** What the parts of an excitation are that encoder and decoder make alike: the adaptive codebook as a
    predictor with three taps, the shapes in their places, and the gains as fractions. */
module NbLaws {
  import opened Arith
  import opened Fixed
  import opened Modes
  import opened Ltp
  import opened Innovation
  import opened NbSpec

  // ---------- the adaptive codebook ----------

  // The past continued into the subframe: sample k from its beginning, with one pitch period repeated
  // and nothing behind it.
  function Before(h: seq<int>, pitch: nat, k: int): int
    requires |h| == HISTORY && -HISTORY <= k && 0 < pitch <= NB_PITCH_END
  {
    if k < 0 then h[HISTORY + k] else if k < pitch then h[HISTORY + k - pitch] else 0
  }

  // Gain v of the vector, which is 32 more than its entry, in units of 1/64.
  function Weighted(h: seq<int>, pitch: nat, cdbk: seq<int>, index: nat, v: nat, j: nat): int
    requires |h| == HISTORY && 0 < pitch <= NB_PITCH_END && v < 3 && 4 * index + 2 < |cdbk|
  {
    128 * (32 + cdbk[4 * index + v]) * Before(h, pitch, j - (pitch - 1 + v))
  }

  // Sample j is predicted from the three samples around the one a pitch period before it, the first gain
  // going with the latest of them; only the width of the sum is limited.
  lemma ThreeTaps(h: seq<int>, pitch: nat, cdbk: seq<int>, bits: nat, index: nat, j: nat)
    requires |h| == HISTORY && 0 < pitch <= NB_PITCH_END && IsGainCodebook(cdbk, bits) && 4 * index + 2 < |cdbk|
    requires Is16(h) && j < NB_SUBFRAME_SIZE
    ensures Adaptive(h, pitch, cdbk, index)[j]
         == Wrap32(Weighted(h, pitch, cdbk, index, 0, j) + Weighted(h, pitch, cdbk, index, 1, j)
                   + Weighted(h, pitch, cdbk, index, 2, j))
  {
    hide Tap, Weighted, Wrap32, Gain, Shifted, Adaptive;
    var a, b, c := Weighted(h, pitch, cdbk, index, 0, j), Weighted(h, pitch, cdbk, index, 1, j),
        Weighted(h, pitch, cdbk, index, 2, j);
    assert Adaptive(h, pitch, cdbk, index)[j]
           == Taps(3, h, pitch, cdbk, index, j) by { AdaptiveAt(h, pitch, cdbk, index, j); }
    assert Wrap32(0) == 0;
    OneTap(0, h, pitch, cdbk, bits, index, 2, j);
    OneTap(c, h, pitch, cdbk, bits, index, 1, j);
    OneTap(c + b, h, pitch, cdbk, bits, index, 0, j);
    ThreeUnfold(h, pitch, cdbk, index, j);
    assert c + b + a == a + b + c;
  }

  lemma AdaptiveAt(h: seq<int>, pitch: nat, cdbk: seq<int>, index: nat, j: nat)
    requires |h| == HISTORY && 0 < pitch <= NB_PITCH_END && 4 * index + 2 < |cdbk| && j < NB_SUBFRAME_SIZE
    ensures Adaptive(h, pitch, cdbk, index)[j] == Taps(3, h, pitch, cdbk, index, j)
  {
    hide Taps;
  }

  lemma ThreeUnfold(h: seq<int>, pitch: nat, cdbk: seq<int>, index: nat, j: nat)
    requires |h| == HISTORY && 0 < pitch <= NB_PITCH_END && 4 * index + 2 < |cdbk|
    ensures Taps(3, h, pitch, cdbk, index, j)
         == Tap(Tap(Tap(0, h, pitch, 0, j, Shifted(Gain(cdbk, index, 2))), h, pitch, 1, j,
                Shifted(Gain(cdbk, index, 1))), h, pitch, 2, j, Shifted(Gain(cdbk, index, 0)))
  {
    hide Tap, Gain, Shifted;
    assert Taps(0, h, pitch, cdbk, index, j) == 0;
    assert Taps(1, h, pitch, cdbk, index, j) == Tap(0, h, pitch, 0, j, Shifted(Gain(cdbk, index, 2)));
    assert Taps(2, h, pitch, cdbk, index, j)
           == Tap(Taps(1, h, pitch, cdbk, index, j), h, pitch, 1, j, Shifted(Gain(cdbk, index, 1)));
  }

  lemma OneTap(s: int, h: seq<int>, pitch: nat, cdbk: seq<int>, bits: nat, index: nat, v: nat, j: nat)
    requires |h| == HISTORY && 0 < pitch <= NB_PITCH_END && IsGainCodebook(cdbk, bits) && 4 * index + 2 < |cdbk|
    requires Is16(h) && v < 3
    ensures Tap(Wrap32(s), h, pitch, 2 - v, j, Shifted(Gain(cdbk, index, v)))
         == Wrap32(s + Weighted(h, pitch, cdbk, index, v, j))
  {
    var g, k := 128 * (32 + cdbk[4 * index + v]), j - (pitch - 1 + v);
    assert Shifted(Gain(cdbk, index, v)) == g && Wrap16(g) == g;
    assert pitch + 1 - (2 - v) == pitch - 1 + v;
    var x := Before(h, pitch, k);
    assert Wrap16(x) == x;
    hide Wrap16, Wrap32, Shifted, Gain;
    if k < pitch {
      WrapSum(s, Mult16_16(g, x));
    } else {
      assert x == 0 && g * x == 0;
    }
  }

  // ---------- the shapes ----------

  // A sign and a shape stand for the shape times 512, negated or not, without any overflow.
  lemma SubvectorAt(c: Codebook, negative: bool, shape: nat, j: nat)
    requires IsCodebook(c) && shape < Shapes(c) && j < c.subvectSize
    ensures 0 <= shape * c.subvectSize && shape * c.subvectSize + j < |c.shapes|
    ensures Subvector(c, negative, shape)[j] == (if negative then -512 else 512) * c.shapes[shape * c.subvectSize + j]
  {
    ShapeInBook(c, shape, j);
  }

  // Sample i*size+j of the excitation is sample j of what index i stands for.
  lemma {:induction false} ExcitationAt(c: Codebook, inds: seq<nat>, i: nat, j: nat)
    requires IsCodebook(c) && AreIndices(c, inds) && i < |inds| && j < c.subvectSize
    ensures 0 <= i * c.subvectSize && i * c.subvectSize + j < |Excitation(c, inds)|
    ensures IsIndex(c, inds[i]) && Shape(c, inds[i]) < Shapes(c)
    ensures Excitation(c, inds)[i * c.subvectSize + j] == Subvector(c, Negative(c, inds[i]), Shape(c, inds[i]))[j]
  {
    hide Subvector, IsIndex, IsCodebook;
    var n := |inds| - 1;
    var front := inds[..n];
    ShapeBound(c, inds[i]);
    ExcitationLength(c, front);
    ExcitationLength(c, inds);
    FlatIndex(i, j, |inds|, c.subvectSize);
    if i < n {
      FlatIndex(i, j, n, c.subvectSize);
      ExcitationAt(c, front, i, j);
    }
  }

  // What the index at place i of a codebook search adds to sample j of its subvector.
  ghost function Entry(c: Codebook, inds: seq<nat>, i: nat, j: nat): int
    requires IsCodebook(c) && AreIndices(c, inds) && i < |inds| && j < c.subvectSize
  {
    ShapeBound(c, inds[i]);
    ShapeInBook(c, Shape(c, inds[i]), j);
    var v := c.shapes[Shape(c, inds[i]) * c.subvectSize + j];
    if Negative(c, inds[i]) then -v else v
  }

  // Sample i*size+j of the innovation of a subframe is 512 times the entry that its index stands for, times
  // the gain; a second search adds its own, times the second gain.
  lemma InnovationAt(t: Tables, m: nat, s: Sub, ener: int, i: nat, j: nat)
    requires IsCoded(m) && AreTables(t) && ProperSub(t, m, s)
    requires i < Book(t, m).nbSubvect && j < Book(t, m).subvectSize
    ensures IsCodebook(Book(t, m)) && ProperShapes(Book(t, m), s.shape)
    ensures NbSubmode(m).doubleCodebook ==> ProperShapes(Book(t, m), s.shape2)
    ensures var c, k := Book(t, m), i * Book(t, m).subvectSize + j;
            && 0 <= k < NB_SUBFRAME_SIZE
            && Innov(t, m, s, ener)[k]
               == if NbSubmode(m).doubleCodebook then
                    Add32(Scaled(512 * Entry(c, s.shape, i, j), ener),
                          Scaled(512 * Entry(c, s.shape2, i, j), SecondEnergy(ener)))
                  else Scaled(512 * Entry(c, s.shape, i, j), ener)
  {
    var c := Book(t, m);
    BookSize(t, m);
    hide Excitation, Scaled, Book, AreTables, SecondEnergy, IsCodebook, IsIndex, Entry, NbSubmode;
    FlatIndex(i, j, c.nbSubvect, c.subvectSize);
    EntryAt(c, s.shape, i, j);
    if NbSubmode(m).doubleCodebook { EntryAt(c, s.shape2, i, j); }
  }

  lemma EntryAt(c: Codebook, inds: seq<nat>, i: nat, j: nat)
    requires IsCodebook(c) && AreIndices(c, inds) && i < |inds| && j < c.subvectSize
    ensures 0 <= i * c.subvectSize && i * c.subvectSize + j < |Excitation(c, inds)|
    ensures Excitation(c, inds)[i * c.subvectSize + j] == 512 * Entry(c, inds, i, j)
  {
    hide Excitation, Subvector, IsCodebook, IsIndex;
    ExcitationAt(c, inds, i, j);
    SubvectorAt(c, Negative(c, inds[i]), Shape(c, inds[i]), j);
  }

  // ---------- gains ----------

  // The innovation of a subframe keeps its samples, times the gain, but for what rounding down takes.
  lemma ScaledIsProduct(x: int, scale: int)
    requires x % 128 == 0 && -0x1_0000 <= x <= 0x1_0000 && -0x1000_0000 <= scale < 0x1000_0000
    ensures Scaled(x, scale) == 128 * ((x / 128) * scale / 0x4000)
  {
    var y := x / 128;
    assert Wrap16(y) == y;
    FloorQ14(y, scale);
    Magnitude(y, scale);
    hide Wrap16, Mult16_32_Q14;
  }

  lemma Magnitude(y: int, scale: int)
    requires -512 <= y <= 512 && -0x1000_0000 <= scale < 0x1000_0000
    ensures -0x80_0000 <= y * scale / 0x4000 <= 0x80_0000
  {
    var a := if y < 0 then -y else y;
    MulLe(-0x1000_0000, scale, a);
    MulLe(scale, 0x1000_0000, a);
    if y < 0 { Negated(scale, a); }
    assert y * scale == scale * y;
  }

  // Every gain is a fraction of another, rounded down: the table entry of the gain of the frame, 0.8669 of
  // the entry of the frame, and 0.4545 of the gain for the second codebook.
  lemma GainsAreProducts(t: Tables, m: nat, qe: nat, olGain: int)
    requires IsCoded(m) && AreTables(t) && Is16(t.scal1) && Is16(t.scal3)
    requires -0x2000_0000 <= olGain < 0x2000_0000
    ensures var bits := NbSubmode(m).haveSubframeGain;
            && (bits == 3 && qe < 8 ==> Energy(t, m, qe, olGain) == t.scal3[qe] * olGain / 0x4000)
            && (bits == 1 && qe < 2 ==> Energy(t, m, qe, olGain) == t.scal1[qe] * olGain / 0x4000)
            && (bits == 0 ==> Energy(t, m, qe, olGain) == olGain)
    ensures qe < |t.olGain| && 0 <= t.olGain[qe] < 0x4000_0000 ==>
            86688 * t.olGain[qe] - 100000 < 100000 * OlGain(t, qe) <= 86689 * t.olGain[qe]
    ensures olGain >= 0 ==> 45455 * olGain - 100000 < 100000 * SecondEnergy(olGain) <= 45456 * olGain
  {
    hide Mult16_32_Q14, Mult16_32_Q15;
    if qe < 8 { FloorQ14(t.scal3[qe], olGain); }
    if qe < 2 { FloorQ14(t.scal1[qe], olGain); }
    FloorQ15(14895, olGain);
    if qe < |t.olGain| && 0 <= t.olGain[qe] < 0x4000_0000 { FloorQ15(28406, t.olGain[qe]); }
  }
}
