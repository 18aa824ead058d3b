/** The multistage vector quantisers of the line spectral pairs (quant_lsp.c, fixed-point build). */
module QuantLsp {
  import opened Arith
  import opened Fixed
  import opened BitString
  import opened BitReader
  import opened Bits
  import opened BitRuns
  import opened LspStages

  const ORDER := 10
  const CDBK_SIZE := 64

  // Codewords of dim entries, one after the other.
  ghost predicate IsBook(cdbk: seq<int>, dim: nat) {
    |cdbk| == CDBK_SIZE * dim && forall i :: 0 <= i < |cdbk| ==> IsCode(cdbk[i])
  }

  datatype Books = Books(nb: seq<int>, low1: seq<int>, low2: seq<int>, high1: seq<int>, high2: seq<int>)

  ghost predicate AreBooks(b: Books) {
    IsBook(b.nb, ORDER) && IsBook(b.low1, 5) && IsBook(b.low2, 5) && IsBook(b.high1, 5) && IsBook(b.high2, 5)
  }

  function Code(cdbk: seq<int>, dim: nat, id: nat, j: nat): (c: int)
    requires |cdbk| == CDBK_SIZE * dim && id < CDBK_SIZE && j < dim
  {
    FlatIndex(id, j, CDBK_SIZE, dim);
    cdbk[id * dim + j]
  }

  // What one coordinate adds to the distance; without weights, its plain square.
  function Term(weights: seq<int>, j: nat, tmp: int): int
    requires weights == [] || j < |weights|
  {
    if weights == [] then Mult16_16(tmp, tmp) else Mult16_32_Q15(weights[j], Mult16_16(tmp, tmp))
  }

  // The distance of codeword id from x, over the first n coordinates.
  function Distance(x: seq<int>, weights: seq<int>, cdbk: seq<int>, id: nat, n: nat): int
    requires |cdbk| == CDBK_SIZE * |x| && id < CDBK_SIZE && n <= |x| && (weights == [] || |x| <= |weights|)
  {
    if n == 0 then 0
    else Add32(Distance(x, weights, cdbk, id, n - 1), Term(weights, n - 1, Stage(x[n - 1], Code(cdbk, |x|, id, n - 1))))
  }

  // id is the first of the n first codewords that is nearest.
  ghost predicate FirstNearest(x: seq<int>, weights: seq<int>, cdbk: seq<int>, id: nat, n: nat)
    requires |cdbk| == CDBK_SIZE * |x| && (weights == [] || |x| <= |weights|)
  {
    && id < n <= CDBK_SIZE
    && (forall k :: 0 <= k < n ==> Distance(x, weights, cdbk, id, |x|) <= Distance(x, weights, cdbk, k, |x|))
    && (forall k :: 0 <= k < id ==> Distance(x, weights, cdbk, id, |x|) < Distance(x, weights, cdbk, k, |x|))
  }

  const VERY_LARGE32 := 0x7fff_ffff

  // The inner loop: the distance of the codeword that ptr has reached.
  method CodewordDistance(x: array<int>, off: nat, weights: seq<int>, cdbk: seq<int>, nbDim: nat, id: nat, ptr: nat)
    returns (dist: int)
    requires off + nbDim <= x.Length && |cdbk| == CDBK_SIZE * nbDim && id < CDBK_SIZE && ptr == id * nbDim
    requires weights == [] || nbDim <= |weights|
    ensures dist == Distance(x[off..off + nbDim], weights, cdbk, id, nbDim) <= VERY_LARGE32
  {
    hide Term, Stage;
    dist := 0;
    for j := 0 to nbDim
      invariant dist == Distance(x[off..off + nbDim], weights, cdbk, id, j) <= VERY_LARGE32
    {
      FlatIndex(id, j, CDBK_SIZE, nbDim);
      var tmp := Stage(x[off + j], cdbk[ptr + j]);
      dist := Add32(dist, Term(weights, j, tmp));
    }
  }

  // lsp_quant, and with weights lsp_weight_quant, up to the choice of the codeword.
  method Search(x: array<int>, off: nat, weights: seq<int>, cdbk: seq<int>, nbDim: nat) returns (bestId: nat)
    requires off + nbDim <= x.Length && |cdbk| == CDBK_SIZE * nbDim && (weights == [] || nbDim <= |weights|)
    ensures FirstNearest(x[off..off + nbDim], weights, cdbk, bestId, CDBK_SIZE)
  {
    hide Distance, StandsAt;
    ghost var v := x[off..off + nbDim];
    var bestDist, ptr := VERY_LARGE32, 0;
    bestId := 0;
    StandsFirst(0, nbDim);
    for i := 0 to CDBK_SIZE
      invariant StandsAt(ptr, 0, nbDim, i)
      invariant i == 0 ==> bestDist == VERY_LARGE32 && bestId == 0
      invariant i > 0 ==> FirstNearest(v, weights, cdbk, bestId, i)
      invariant i > 0 ==> bestDist == Distance(v, weights, cdbk, bestId, nbDim)
    {
      StandsNext(ptr, 0, CDBK_SIZE, nbDim, i);
      var dist := CodewordDistance(x, off, weights, cdbk, nbDim, i, ptr);
      ptr := ptr + nbDim;
      if dist < bestDist {
        bestDist := dist;
        bestId := i;
      }
    }
  }

  // Both searches end by taking the chosen codeword off the vector.
  method SearchAndSubtract(x: array<int>, off: nat, weights: seq<int>, cdbk: seq<int>, nbDim: nat) returns (id: nat)
    requires off + nbDim <= x.Length && |cdbk| == CDBK_SIZE * nbDim && (weights == [] || nbDim <= |weights|)
    modifies x
    ensures FirstNearest(old(x[off..off + nbDim]), weights, cdbk, id, CDBK_SIZE)
    ensures forall i :: 0 <= i < x.Length ==>
      x[i] == if off <= i < off + nbDim then Stage(old(x[i]), Code(cdbk, nbDim, id, i - off)) else old(x[i])
  {
    hide FirstNearest, Stage;
    id := Search(x, off, weights, cdbk, nbDim);
    assert id < CDBK_SIZE by { Chosen(x[off..off + nbDim], weights, cdbk, id); }
    for j := 0 to nbDim
      invariant forall i :: 0 <= i < x.Length ==>
        x[i] == if off <= i < off + j then Stage(old(x[i]), Code(cdbk, nbDim, id, i - off)) else old(x[i])
    {
      FlatIndex(id, j, CDBK_SIZE, nbDim);
      x[off + j] := Stage(x[off + j], cdbk[id * nbDim + j]);
    }
  }

  lemma Chosen(x: seq<int>, weights: seq<int>, cdbk: seq<int>, id: nat)
    requires |cdbk| == CDBK_SIZE * |x| && (weights == [] || |x| <= |weights|)
    requires FirstNearest(x, weights, cdbk, id, CDBK_SIZE)
    ensures id < CDBK_SIZE
  {
  }

  method DoubleRange(x: array<int>, lo: nat, hi: nat)
    requires lo <= hi <= x.Length
    modifies x
    ensures forall i :: 0 <= i < x.Length ==> x[i] == if lo <= i < hi then Doubled(old(x[i])) else old(x[i])
  {
    for i := lo to hi
      invariant forall k :: 0 <= k < x.Length ==> x[k] == if lo <= k < i then Doubled(old(x[k])) else old(x[k])
    {
      x[i] := Doubled(x[i]);
    }
  }

  // ---------- the quantisers ----------

  ghost predicate AreIds(ids: seq<nat>, n: nat) {
    |ids| == n && forall i :: 0 <= i < n ==> ids[i] < CDBK_SIZE
  }

  // The codeword entries that coordinate i gets in the three stages of the nb quantiser.
  function NbCode(b: Books, ids: seq<nat>, stage: nat, i: nat): int
    requires AreBooks(b) && AreIds(ids, 5) && stage < 3 && i < ORDER
  {
    if stage == 0 then Code(b.nb, ORDER, ids[0], i)
    else if stage == 1 then (if i < 5 then Code(b.low1, 5, ids[1], i) else Code(b.high1, 5, ids[3], i - 5))
    else (if i < 5 then Code(b.low2, 5, ids[2], i) else Code(b.high2, 5, ids[4], i - 5))
  }

  // And in the two stages of the low bit-rate quantiser.
  function LbrCode(b: Books, ids: seq<nat>, stage: nat, i: nat): int
    requires AreBooks(b) && AreIds(ids, 3) && stage < 2 && i < ORDER
  {
    if stage == 0 then Code(b.nb, ORDER, ids[0], i)
    else if i < 5 then Code(b.low1, 5, ids[1], i) else Code(b.high1, 5, ids[2], i - 5)
  }

  // The vector that both sides are meant to use.
  ghost function NbVector(b: Books, ids: seq<nat>): (v: seq<int>)
    requires AreBooks(b) && AreIds(ids, 5)
    ensures |v| == ORDER
  {
    seq(ORDER, i requires 0 <= i < ORDER =>
      Unquantised3(Linear(i), NbCode(b, ids, 0, i), NbCode(b, ids, 1, i), NbCode(b, ids, 2, i)))
  }

  ghost function LbrVector(b: Books, ids: seq<nat>): (v: seq<int>)
    requires AreBooks(b) && AreIds(ids, 3)
    ensures |v| == ORDER
  {
    seq(ORDER, i requires 0 <= i < ORDER => Unquantised2(Linear(i), LbrCode(b, ids, 0, i), LbrCode(b, ids, 1, i)))
  }

  // ---------- which codewords are sent ----------

  // The residual that a codeword leaves, at the scale of the next stage.
  function Redoubled(x: seq<int>, cdbk: seq<int>, id: nat): (r: seq<int>)
    requires |cdbk| == CDBK_SIZE * |x| && id < CDBK_SIZE
    ensures |r| == |x|
  {
    seq(|x|, j requires 0 <= j < |x| => Doubled(Stage(x[j], Code(cdbk, |x|, id, j))))
  }

  // Each codeword is the first of those nearest to what the one before it has left.
  ghost predicate TwoChosen(x: seq<int>, w1: seq<int>, w2: seq<int>, first: seq<int>, second: seq<int>, id1: nat,
                            id2: nat)
    requires |first| == |second| == CDBK_SIZE * |x| && (w1 == [] || |x| <= |w1|) && (w2 == [] || |x| <= |w2|)
  {
    && FirstNearest(x, w1, first, id1, CDBK_SIZE)
    && FirstNearest(Redoubled(x, first, id1), w2, second, id2, CDBK_SIZE)
  }

  // The five stages for x and the weights w: all coordinates, and then twice each half.
  ghost predicate NbChosen(x: seq<int>, w: seq<int>, b: Books, ids: seq<nat>)
    requires |x| == |w| == ORDER && AreBooks(b) && AreIds(ids, 5)
  {
    && FirstNearest(x, [], b.nb, ids[0], CDBK_SIZE)
    && var y := Redoubled(x, b.nb, ids[0]);
       && TwoChosen(y[..5], w[..5], w[..5], b.low1, b.low2, ids[1], ids[2])
       && TwoChosen(y[5..], w[5..], w[5..], b.high1, b.high2, ids[3], ids[4])
  }

  ghost predicate LbrChosen(x: seq<int>, w: seq<int>, b: Books, ids: seq<nat>)
    requires |x| == |w| == ORDER && AreBooks(b) && AreIds(ids, 3)
  {
    && FirstNearest(x, [], b.nb, ids[0], CDBK_SIZE)
    && var y := Redoubled(x, b.nb, ids[0]);
       && FirstNearest(y[..5], w[..5], b.low1, ids[1], CDBK_SIZE)
       && FirstNearest(y[5..], w[5..], b.high1, ids[2], CDBK_SIZE)
  }

  // What the searches start from.
  function LessLinear(lsp: seq<int>, high: bool): (x: seq<int>)
    ensures |x| == |lsp|
  {
    seq(|lsp|, i requires 0 <= i < |lsp| => Wrap16(lsp[i] - LinearOf(high, i)))
  }

  function Weights(lsp: seq<int>): (w: seq<int>)
    ensures |w| == |lsp|
  {
    seq(|lsp|, i requires 0 <= i < |lsp| => Weight(Nearer(lsp, i)))
  }

  ghost function IdFields(ids: seq<nat>): seq<Field> {
    seq(|ids|, i requires 0 <= i < |ids| => Field(ids[i], 6))
  }

  method TakeLinear(lsp: array<int>, qlsp: array<int>, high: bool)
    requires lsp.Length == qlsp.Length && lsp != qlsp
    modifies qlsp
    ensures qlsp[..] == LessLinear(lsp[..], high)
  {
    for i := 0 to lsp.Length
      invariant forall k :: 0 <= k < i ==> qlsp[k] == Wrap16(lsp[k] - LinearOf(high, k))
    {
      qlsp[i] := Wrap16(lsp[i] - LinearOf(high, i));
    }
  }

  const LSP_PI := 25736

  // The smaller distance of a frequency from its neighbours.
  function Nearer(lsp: seq<int>, i: nat): int
    requires i < |lsp|
  {
    var below := Wrap16(if i == 0 then lsp[i] else lsp[i] - lsp[i - 1]);
    var above := Wrap16(if i == |lsp| - 1 then LSP_PI - lsp[i] else lsp[i + 1] - lsp[i]);
    if above < below then above else below
  }

  // DIV32_16(81920, ADD16(300, tmp1)). A divisor of zero, which C leaves undefined, takes frequencies out of order.
  function Weight(distance: int): int {
    var d := Wrap16(300 + distance);
    Wrap16(if d == 0 then 0 else if d > 0 then 81920 / d else -(81920 / (-d)))
  }

  // compute_quant_weights: close frequencies weigh more.
  method ComputeQuantWeights(lsp: array<int>) returns (weights: seq<int>)
    ensures weights == Weights(lsp[..])
  {
    weights := [];
    for i := 0 to lsp.Length
      invariant |weights| == i && forall k :: 0 <= k < i ==> weights[k] == Weight(Nearer(lsp[..], k))
    {
      var tmp1 := Wrap16(if i == 0 then lsp[i] else lsp[i] - lsp[i - 1]);
      var tmp2 := Wrap16(if i == lsp.Length - 1 then LSP_PI - lsp[i] else lsp[i + 1] - lsp[i]);
      if tmp2 < tmp1 { tmp1 := tmp2; }
      weights := weights + [Weight(tmp1)];
    }
  }

  // A stage over all coordinates, and the residual at the scale of the next one.
  method StageAndDouble(x: array<int>, cdbk: seq<int>) returns (id: nat)
    requires |cdbk| == CDBK_SIZE * x.Length
    modifies x
    ensures id < CDBK_SIZE && FirstNearest(old(x[..]), [], cdbk, id, CDBK_SIZE)
    ensures x[..] == Redoubled(old(x[..]), cdbk, id)
  {
    hide Stage, Doubled, Code, FirstNearest;
    assert x[0..x.Length] == x[..];
    id := NextId(x, 0, [], cdbk, x.Length);
    DoubleRange(x, 0, x.Length);
  }

  // The two finer stages of one half.
  method HalfStages(x: array<int>, off: nat, w: seq<int>, first: seq<int>, second: seq<int>)
                    returns (id1: nat, id2: nat)
    requires off + 5 <= x.Length && |w| == 5 && |first| == |second| == CDBK_SIZE * 5
    modifies x
    ensures id1 < CDBK_SIZE && id2 < CDBK_SIZE && TwoChosen(old(x[off..off + 5]), w, w, first, second, id1, id2)
    ensures forall i :: 0 <= i < x.Length ==>
      x[i] == if off <= i < off + 5 then
          Stage(Doubled(Stage(old(x[i]), Code(first, 5, id1, i - off))), Code(second, 5, id2, i - off))
        else old(x[i])
  {
    hide Stage, Doubled, FirstNearest, Code;
    ghost var v := x[off..off + 5];
    id1 := NextId(x, off, w, first, 5);
    DoubleRange(x, off, off + 5);
    assert x[off..off + 5] == Redoubled(v, first, id1);
    id2 := NextId(x, off, w, second, 5);
  }

  // The five searches of lsp_quant_nb, with the weights of compute_quant_weights.
  method NbStages(qlsp: array<int>, weights: seq<int>, b: Books) returns (ids: seq<nat>)
    requires qlsp.Length == ORDER == |weights| && AreBooks(b)
    modifies qlsp
    ensures AreIds(ids, 5) && NbChosen(old(qlsp[..]), weights, b, ids)
    ensures forall i :: 0 <= i < ORDER ==>
      qlsp[i] == Stage(Doubled(Stage(Doubled(Stage(old(qlsp[i]), NbCode(b, ids, 0, i))), NbCode(b, ids, 1, i))),
          NbCode(b, ids, 2, i))
  {
    hide Stage, Doubled, FirstNearest, TwoChosen, Code;
    var id0 := StageAndDouble(qlsp, b.nb);
    ghost var y := qlsp[..];
    assert qlsp[0..5] == y[..5];
    var id1, id2 := HalfStages(qlsp, 0, weights[..5], b.low1, b.low2);
    assert qlsp[5..10] == y[5..];
    var id3, id4 := HalfStages(qlsp, 5, weights[5..], b.high1, b.high2);
    ids := [id0, id1, id2, id3, id4];
  }

  // One search, which leaves the residual of the nearest codeword.
  method NextId(x: array<int>, off: nat, weights: seq<int>, cdbk: seq<int>, nbDim: nat) returns (id: nat)
    requires off + nbDim <= x.Length && |cdbk| == CDBK_SIZE * nbDim && (weights == [] || nbDim <= |weights|)
    modifies x
    ensures id < CDBK_SIZE && FirstNearest(old(x[off..off + nbDim]), weights, cdbk, id, CDBK_SIZE)
    ensures forall i :: 0 <= i < x.Length ==>
      x[i] == if off <= i < off + nbDim then Stage(old(x[i]), Code(cdbk, nbDim, id, i - off)) else old(x[i])
  {
    ghost var v := x[off..off + nbDim];
    id := SearchAndSubtract(x, off, weights, cdbk, nbDim);
    hide Distance;
    Chosen(v, weights, cdbk, id);
  }

  // What is left of a vector goes off the input again, rounded.
  method SubtractFrom(lsp: array<int>, qlsp: array<int>, shift: nat)
    requires lsp.Length == qlsp.Length && lsp != qlsp && 1 <= shift <= 2
    modifies qlsp
    ensures forall i :: 0 <= i < qlsp.Length ==>
      qlsp[i] == Wrap16(lsp[i] - if shift == 1 then Halved(old(qlsp[i])) else Quartered(old(qlsp[i])))
  {
    for i := 0 to lsp.Length
      invariant forall k :: 0 <= k < qlsp.Length ==>
        qlsp[k] == if k >= i then old(qlsp[k])
                   else Wrap16(lsp[k] - if shift == 1 then Halved(old(qlsp[k])) else Quartered(old(qlsp[k])))
    {
      qlsp[i] := Wrap16(lsp[i] - if shift == 1 then Halved(qlsp[i]) else Quartered(qlsp[i]));
    }
  }

  // The source packs each index right after its search, which leaves the same bits.
  method LspQuantNb(lsp: array<int>, qlsp: array<int>, b: Books, bits: SpeexBits)
                    returns (ids: seq<nat>)
    requires lsp.Length == qlsp.Length == ORDER && lsp != qlsp && AreBooks(b)
    requires bits.Writing() && bits.owner && (lsp as object) != bits.chars && (qlsp as object) != bits.chars
    modifies qlsp, bits, bits.chars
    ensures bits.Writing() && bits.overflow == old(bits.overflow) && AreIds(ids, 5)
    ensures NbChosen(LessLinear(lsp[..], false), Weights(lsp[..]), b, ids)
    ensures bits.Contents() == old(bits.Contents()) + FieldBits(IdFields(ids))
    ensures bits.chars == old(bits.chars) || fresh(bits.chars)
    ensures forall i :: 0 <= i < ORDER ==>
      qlsp[i] == Quantised3(lsp[i], Linear(i), NbCode(b, ids, 0, i), NbCode(b, ids, 1, i), NbCode(b, ids, 2, i))
  {
    hide Stage, Doubled, NbChosen, Weights, NbCode, FieldBits, BitsOf, ClearFrom, AreBooks, Wrap16, Quartered;
    var weights := ComputeQuantWeights(lsp);
    TakeLinear(lsp, qlsp, false);
    ids := NbStages(qlsp, weights, b);
    SubtractFrom(lsp, qlsp, 2);
    label quantised:
    var fields := seq(|ids|, i requires 0 <= i < |ids| => Field(ids[i], 6));
    PackFields(bits, fields);
    assert qlsp[..] == old@quantised(qlsp[..]);
  }

  method LspQuantLbr(lsp: array<int>, qlsp: array<int>, b: Books, bits: SpeexBits)
                     returns (ids: seq<nat>)
    requires lsp.Length == qlsp.Length == ORDER && lsp != qlsp && AreBooks(b)
    requires bits.Writing() && bits.owner && (lsp as object) != bits.chars && (qlsp as object) != bits.chars
    modifies qlsp, bits, bits.chars
    ensures bits.Writing() && bits.overflow == old(bits.overflow) && AreIds(ids, 3)
    ensures LbrChosen(LessLinear(lsp[..], false), Weights(lsp[..]), b, ids)
    ensures bits.Contents() == old(bits.Contents()) + FieldBits(IdFields(ids))
    ensures bits.chars == old(bits.chars) || fresh(bits.chars)
    ensures forall i :: 0 <= i < ORDER ==>
      qlsp[i] == Quantised2(lsp[i], Linear(i), LbrCode(b, ids, 0, i), LbrCode(b, ids, 1, i))
  {
    hide Stage, Doubled, LbrChosen, Weights, LbrCode, FieldBits, BitsOf, ClearFrom, AreBooks, Wrap16, Halved;
    var weights := ComputeQuantWeights(lsp);
    TakeLinear(lsp, qlsp, false);
    ids := LbrStages(qlsp, weights, b);
    SubtractFrom(lsp, qlsp, 1);
    label quantised:
    var fields := seq(|ids|, i requires 0 <= i < |ids| => Field(ids[i], 6));
    PackFields(bits, fields);
    assert qlsp[..] == old@quantised(qlsp[..]);
  }

  method LbrStages(qlsp: array<int>, weights: seq<int>, b: Books) returns (ids: seq<nat>)
    requires qlsp.Length == ORDER == |weights| && AreBooks(b)
    modifies qlsp
    ensures AreIds(ids, 3) && LbrChosen(old(qlsp[..]), weights, b, ids)
    ensures forall i :: 0 <= i < ORDER ==>
      qlsp[i] == Stage(Doubled(Stage(old(qlsp[i]), LbrCode(b, ids, 0, i))), LbrCode(b, ids, 1, i))
  {
    hide Stage, Doubled, FirstNearest, Code;
    var id0 := StageAndDouble(qlsp, b.nb);
    ghost var y := qlsp[..];
    assert qlsp[0..5] == y[..5];
    var id1 := NextId(qlsp, 0, weights[..5], b.low1, 5);
    assert qlsp[5..10] == y[5..];
    var id2 := NextId(qlsp, 5, weights[5..], b.high1, 5);
    ids := [id0, id1, id2];
  }

  // ---------- the decoder ----------

  method StartLinear(lsp: array<int>, high: bool)
    modifies lsp
    ensures forall i :: 0 <= i < lsp.Length ==> lsp[i] == LinearOf(high, i)
  {
    for i := 0 to lsp.Length
      invariant forall k :: 0 <= k < i ==> lsp[k] == LinearOf(high, k)
    {
      lsp[i] := LinearOf(high, i);
    }
  }

  // One stage of an unquantiser: an index from the bits, and its codeword added on.
  method AddStage(bits: SpeexBits, lsp: array<int>, off: nat, n: nat, cdbk: seq<int>, factor: int) returns (id: nat)
    requires bits.Valid() && off + n <= lsp.Length && |cdbk| == CDBK_SIZE * n && (lsp as object) != bits.chars
    modifies bits`charPtr, bits`bitPtr, bits`overflow, lsp
    ensures bits.Valid() && (id, bits.View()) == Take(old(bits.View()), 6) && id < CDBK_SIZE
    ensures forall i :: 0 <= i < lsp.Length ==>
      lsp[i] == if off <= i < off + n then Wrap16(old(lsp[i]) + factor * Code(cdbk, n, id, i - off)) else old(lsp[i])
  {
    hide BitsOf;
    SixBits(bits.View());
    id := bits.UnpackUnsigned(6);
    ghost var r := bits.View();
    AddCode(lsp, off, n, cdbk, factor, id);
    assert bits.View() == r;
  }

  lemma SixBits(r: Reader)
    ensures Take(r, 6).0 < CDBK_SIZE
  {
    assert Pow2(6) == 64;
  }

  method AddCode(lsp: array<int>, off: nat, n: nat, cdbk: seq<int>, factor: int, id: nat)
    requires off + n <= lsp.Length && |cdbk| == CDBK_SIZE * n && id < CDBK_SIZE
    modifies lsp
    ensures forall i :: 0 <= i < lsp.Length ==>
      lsp[i] == if off <= i < off + n then Wrap16(old(lsp[i]) + factor * Code(cdbk, n, id, i - off)) else old(lsp[i])
  {
    hide Wrap16;
    for i := 0 to n
      invariant forall k :: 0 <= k < lsp.Length ==>
        lsp[k] == if off <= k < off + i then Wrap16(old(lsp[k]) + factor * Code(cdbk, n, id, k - off)) else old(lsp[k])
    {
      lsp[off + i] := Wrap16(lsp[off + i] + factor * Code(cdbk, n, id, i));
    }
  }

  method LspUnquantNb(lsp: array<int>, b: Books, bits: SpeexBits) returns (ids: seq<nat>)
    requires lsp.Length == ORDER && AreBooks(b) && bits.Valid() && (lsp as object) != bits.chars
    modifies bits`charPtr, bits`bitPtr, bits`overflow, lsp
    ensures bits.Valid() && (ids, bits.View()) == TakeAll(old(bits.View()), [6, 6, 6, 6, 6]) && AreIds(ids, 5)
    ensures lsp[..] == NbVector(b, ids)
  {
    hide BitsOf, Code, Wrap16, Take, TakeAll;
    FiveTakes(bits.View());
    StartLinear(lsp, false);
    var id0 := AddStage(bits, lsp, 0, ORDER, b.nb, 32);
    var id1, id2 := AddPair(bits, lsp, 0, b.low1, b.low2);
    var id3, id4 := AddPair(bits, lsp, 5, b.high1, b.high2);
    ids := [id0, id1, id2, id3, id4];
  }

  // The two finer stages of one half.
  method AddPair(bits: SpeexBits, lsp: array<int>, off: nat, first: seq<int>, second: seq<int>)
    returns (id1: nat, id2: nat)
    requires bits.Valid() && off + 5 <= lsp.Length && |first| == |second| == CDBK_SIZE * 5
    requires (lsp as object) != bits.chars
    modifies bits`charPtr, bits`bitPtr, bits`overflow, lsp
    ensures bits.Valid() && id1 < CDBK_SIZE && id2 < CDBK_SIZE
    ensures var (v1, r1) := Take(old(bits.View()), 6);
            id1 == v1 && (id2, bits.View()) == Take(r1, 6)
    ensures forall i :: 0 <= i < lsp.Length ==>
      lsp[i] == if off <= i < off + 5 then
          Wrap16(Wrap16(old(lsp[i]) + 16 * Code(first, 5, id1, i - off)) + 8 * Code(second, 5, id2, i - off))
        else old(lsp[i])
  {
    hide BitsOf, Code, Wrap16, Take;
    id1 := AddStage(bits, lsp, off, 5, first, 16);
    id2 := AddStage(bits, lsp, off, 5, second, 8);
  }

  method LspUnquantLbr(lsp: array<int>, b: Books, bits: SpeexBits) returns (ids: seq<nat>)
    requires lsp.Length == ORDER && AreBooks(b) && bits.Valid() && (lsp as object) != bits.chars
    modifies bits`charPtr, bits`bitPtr, bits`overflow, lsp
    ensures bits.Valid() && (ids, bits.View()) == TakeAll(old(bits.View()), [6, 6, 6]) && AreIds(ids, 3)
    ensures lsp[..] == LbrVector(b, ids)
  {
    hide BitsOf, Code, Wrap16, Take;
    ThreeTakes(bits.View());
    StartLinear(lsp, false);
    var id0 := AddStage(bits, lsp, 0, ORDER, b.nb, 32);
    var id1 := AddStage(bits, lsp, 0, 5, b.low1, 16);
    var id2 := AddStage(bits, lsp, 5, 5, b.high1, 16);
    ids := [id0, id1, id2];
  }

  lemma ThreeTakes(r: Reader)
    ensures var (v0, r0) := Take(r, 6); var (v1, r1) := Take(r0, 6); var (v2, r2) := Take(r1, 6);
            TakeAll(r, [6, 6, 6]) == ([v0, v1, v2], r2)
  {
    hide Take, TakeAll;
    TakeFirst(r, 6);
    TakeOneMore(r, [6], 6);
    assert [6] + [6] == [6, 6];
    TakeOneMore(r, [6, 6], 6);
    assert [6, 6] + [6] == [6, 6, 6];
    var (v0, r0) := Take(r, 6);
    var (v1, r1) := Take(r0, 6);
    var (v2, r2) := Take(r1, 6);
    assert [v0] + [v1] + [v2] == [v0, v1, v2];
  }

  lemma FiveTakes(r: Reader)
    ensures var (v0, r0) := Take(r, 6); var (v1, r1) := Take(r0, 6); var (v2, r2) := Take(r1, 6);
            var (v3, r3) := Take(r2, 6); var (v4, r4) := Take(r3, 6);
            TakeAll(r, [6, 6, 6, 6, 6]) == ([v0, v1, v2, v3, v4], r4)
  {
    hide Take, TakeAll;
    ThreeTakes(r);
    TakeOneMore(r, [6, 6, 6], 6);
    assert [6, 6, 6] + [6] == [6, 6, 6, 6];
    TakeOneMore(r, [6, 6, 6, 6], 6);
    assert [6, 6, 6, 6] + [6] == [6, 6, 6, 6, 6];
    var (vs, r2) := TakeAll(r, [6, 6, 6]);
    var (v3, r3) := Take(r2, 6);
    var (v4, r4) := Take(r3, 6);
    assert vs + [v3] + [v4] == [vs[0], vs[1], vs[2], v3, v4];
  }

  // ---------- agreement ----------

  // The residual that the last stage leaves is small enough for the scale it is kept at.
  ghost predicate NbFits(lsp: seq<int>, b: Books, ids: seq<nat>)
    requires |lsp| == ORDER && AreBooks(b) && AreIds(ids, 5)
  {
    forall i :: 0 <= i < ORDER ==> -0x2000 <= lsp[i] - NbVector(b, ids)[i] < 0x2000
  }

  ghost predicate LbrFits(lsp: seq<int>, b: Books, ids: seq<nat>)
    requires |lsp| == ORDER && AreBooks(b) && AreIds(ids, 3)
  {
    forall i :: 0 <= i < ORDER ==> -0x4000 <= lsp[i] - LbrVector(b, ids)[i] < 0x4000
  }

  ghost predicate AreLsps(lsp: seq<int>) {
    |lsp| == ORDER && forall i :: 0 <= i < ORDER ==> 0 <= lsp[i] < 0x8000
  }

  lemma CodeIsCode(cdbk: seq<int>, dim: nat, id: nat, j: nat)
    requires IsBook(cdbk, dim) && id < CDBK_SIZE && j < dim
    ensures IsCode(Code(cdbk, dim, id, j))
  {
    FlatIndex(id, j, CDBK_SIZE, dim);
  }

  lemma NbCodesAreCodes(b: Books, ids: seq<nat>, stage: nat, i: nat)
    requires AreBooks(b) && AreIds(ids, 5) && stage < 3 && i < ORDER
    ensures IsCode(NbCode(b, ids, stage, i))
  {
    hide Code;
    if stage == 0 { CodeIsCode(b.nb, ORDER, ids[0], i); }
    else if stage == 1 {
      if i < 5 { CodeIsCode(b.low1, 5, ids[1], i); } else { CodeIsCode(b.high1, 5, ids[3], i - 5); }
    } else {
      if i < 5 { CodeIsCode(b.low2, 5, ids[2], i); } else { CodeIsCode(b.high2, 5, ids[4], i - 5); }
    }
  }

  lemma LbrCodesAreCodes(b: Books, ids: seq<nat>, stage: nat, i: nat)
    requires AreBooks(b) && AreIds(ids, 3) && stage < 2 && i < ORDER
    ensures IsCode(LbrCode(b, ids, stage, i))
  {
    hide Code;
    if stage == 0 { CodeIsCode(b.nb, ORDER, ids[0], i); }
    else if i < 5 { CodeIsCode(b.low1, 5, ids[1], i); } else { CodeIsCode(b.high1, 5, ids[2], i - 5); }
  }

  // What lsp_quant_nb leaves in qlsp is what lsp_unquant_nb makes of the same indices,
  // exactly when every residual fits; for any codebooks and any choice of codewords.
  lemma NbExact(lsp: seq<int>, qlsp: seq<int>, b: Books, ids: seq<nat>)
    requires AreLsps(lsp) && |qlsp| == ORDER && AreBooks(b) && AreIds(ids, 5)
    requires forall i :: 0 <= i < ORDER ==>
      qlsp[i] == Quantised3(lsp[i], Linear(i), NbCode(b, ids, 0, i), NbCode(b, ids, 1, i), NbCode(b, ids, 2, i))
    ensures qlsp == NbVector(b, ids) <==> NbFits(lsp, b, ids)
  {
    hide NbCode, Quantised3, Unquantised3, AreBooks;
    forall i | 0 <= i < ORDER
      ensures qlsp[i] == NbVector(b, ids)[i] <==> -0x2000 <= lsp[i] - NbVector(b, ids)[i] < 0x2000
    {
      NbCodesAreCodes(b, ids, 0, i);
      NbCodesAreCodes(b, ids, 1, i);
      NbCodesAreCodes(b, ids, 2, i);
      ThreeStages(lsp[i], Linear(i), NbCode(b, ids, 0, i), NbCode(b, ids, 1, i), NbCode(b, ids, 2, i));
    }
  }

  lemma LbrExact(lsp: seq<int>, qlsp: seq<int>, b: Books, ids: seq<nat>)
    requires AreLsps(lsp) && |qlsp| == ORDER && AreBooks(b) && AreIds(ids, 3)
    requires forall i :: 0 <= i < ORDER ==>
      qlsp[i] == Quantised2(lsp[i], Linear(i), LbrCode(b, ids, 0, i), LbrCode(b, ids, 1, i))
    ensures qlsp == LbrVector(b, ids) <==> LbrFits(lsp, b, ids)
  {
    hide LbrCode, Quantised2, Unquantised2, AreBooks;
    forall i | 0 <= i < ORDER
      ensures qlsp[i] == LbrVector(b, ids)[i] <==> -0x4000 <= lsp[i] - LbrVector(b, ids)[i] < 0x4000
    {
      LbrCodesAreCodes(b, ids, 0, i);
      LbrCodesAreCodes(b, ids, 1, i);
      TwoStages(lsp[i], Linear(i), LbrCode(b, ids, 0, i), LbrCode(b, ids, 1, i));
    }
  }

  // ---------- the wideband quantiser ----------

  const HIGH_ORDER := 8

  ghost predicate AreHighBooks(first: seq<int>, second: seq<int>) { IsBook(first, HIGH_ORDER)
                               && IsBook(second, HIGH_ORDER) }

  ghost function HighVector(first: seq<int>, second: seq<int>, ids: seq<nat>): (v: seq<int>)
    requires AreHighBooks(first, second) && AreIds(ids, 2)
    ensures |v| == HIGH_ORDER
  {
    seq(HIGH_ORDER, i requires 0 <= i < HIGH_ORDER =>
      Unquantised2(LinearHigh(i), Code(first, HIGH_ORDER, ids[0], i), Code(second, HIGH_ORDER, ids[1], i)))
  }

  lemma HighSizes(first: seq<int>, second: seq<int>)
    requires AreHighBooks(first, second)
    ensures |first| == |second| == CDBK_SIZE * HIGH_ORDER
  {
  }

  method HighStages(qlsp: array<int>, weights: seq<int>, first: seq<int>, second: seq<int>) returns (ids: seq<nat>)
    requires qlsp.Length == HIGH_ORDER == |weights| && AreHighBooks(first, second)
    modifies qlsp
    ensures AreIds(ids, 2) && HighChosen(old(qlsp[..]), weights, first, second, ids)
    ensures forall i :: 0 <= i < HIGH_ORDER ==>
      qlsp[i] == Stage(Doubled(Stage(old(qlsp[i]), Code(first, HIGH_ORDER, ids[0], i))),
          Code(second, HIGH_ORDER, ids[1], i))
  {
    hide Stage, Doubled, Code, AreHighBooks, IsBook, FirstNearest;
    HighSizes(first, second);
    var id0 := StageAndDouble(qlsp, first);
    assert qlsp[0..HIGH_ORDER] == qlsp[..];
    var id1 := NextId(qlsp, 0, weights, second, HIGH_ORDER);
    ids := [id0, id1];
  }

  // Two stages over all coordinates, the second one weighted.
  ghost predicate HighChosen(x: seq<int>, w: seq<int>, first: seq<int>, second: seq<int>, ids: seq<nat>)
    requires |x| == |w| == HIGH_ORDER && AreHighBooks(first, second) && AreIds(ids, 2)
  {
    TwoChosen(x, [], w, first, second, ids[0], ids[1])
  }

  method LspQuantHigh(lsp: array<int>, qlsp: array<int>, first: seq<int>, second: seq<int>, bits: SpeexBits)
                      returns (ids: seq<nat>)
    requires lsp.Length == qlsp.Length == HIGH_ORDER && lsp != qlsp && AreHighBooks(first, second)
    requires bits.Writing() && bits.owner && (lsp as object) != bits.chars && (qlsp as object) != bits.chars
    modifies qlsp, bits, bits.chars
    ensures bits.Writing() && bits.overflow == old(bits.overflow) && AreIds(ids, 2)
    ensures HighChosen(LessLinear(lsp[..], true), Weights(lsp[..]), first, second, ids)
    ensures bits.Contents() == old(bits.Contents()) + FieldBits(IdFields(ids))
    ensures bits.chars == old(bits.chars) || fresh(bits.chars)
    ensures forall i :: 0 <= i < HIGH_ORDER ==>
      qlsp[i] == Quantised2(lsp[i], LinearHigh(i), Code(first, HIGH_ORDER, ids[0], i),
          Code(second, HIGH_ORDER, ids[1], i))
  {
    hide Stage, Doubled, HighChosen, Weights, Code, FieldBits, BitsOf, ClearFrom, Wrap16, Halved, IsBook;
    var weights := ComputeQuantWeights(lsp);
    TakeLinear(lsp, qlsp, true);
    ids := HighStages(qlsp, weights, first, second);
    SubtractFrom(lsp, qlsp, 1);
    label quantised:
    var fields := seq(|ids|, i requires 0 <= i < |ids| => Field(ids[i], 6));
    PackFields(bits, fields);
    assert qlsp[..] == old@quantised(qlsp[..]);
  }

  method LspUnquantHigh(lsp: array<int>, first: seq<int>, second: seq<int>, bits: SpeexBits) returns (ids: seq<nat>)
    requires lsp.Length == HIGH_ORDER && AreHighBooks(first, second) && bits.Valid() && (lsp as object) != bits.chars
    modifies bits`charPtr, bits`bitPtr, bits`overflow, lsp
    ensures bits.Valid() && (ids, bits.View()) == TakeAll(old(bits.View()), [6, 6]) && AreIds(ids, 2)
    ensures lsp[..] == HighVector(first, second, ids)
  {
    hide BitsOf, Code, Wrap16, Take, TakeAll;
    ghost var r := bits.View();
    TakeFirst(r, 6);
    TakeOneMore(r, [6], 6);
    assert [6] + [6] == [6, 6];
    StartLinear(lsp, true);
    var id0 := AddStage(bits, lsp, 0, HIGH_ORDER, first, 32);
    var id1 := AddStage(bits, lsp, 0, HIGH_ORDER, second, 16);
    ids := [id0, id1];
    assert [id0] + [id1] == ids;
  }

  lemma HighExact(lsp: seq<int>, qlsp: seq<int>, first: seq<int>, second: seq<int>, ids: seq<nat>)
    requires |lsp| == |qlsp| == HIGH_ORDER && AreHighBooks(first, second) && AreIds(ids, 2)
    requires forall i :: 0 <= i < HIGH_ORDER ==> 0 <= lsp[i] < 0x8000
    requires forall i :: 0 <= i < HIGH_ORDER ==>
      qlsp[i] == Quantised2(lsp[i], LinearHigh(i), Code(first, HIGH_ORDER, ids[0], i),
          Code(second, HIGH_ORDER, ids[1], i))
    ensures qlsp == HighVector(first, second, ids) <==>
            forall i :: 0 <= i < HIGH_ORDER ==> -0x4000 <= lsp[i] - HighVector(first, second, ids)[i] < 0x4000
  {
    hide Code, Quantised2, Unquantised2;
    forall i | 0 <= i < HIGH_ORDER
      ensures qlsp[i] == HighVector(first, second, ids)[i] <==>
              -0x4000 <= lsp[i] - HighVector(first, second, ids)[i] < 0x4000
    {
      CodeIsCode(first, HIGH_ORDER, ids[0], i);
      CodeIsCode(second, HIGH_ORDER, ids[1], i);
      TwoStages(lsp[i], LinearHigh(i), Code(first, HIGH_ORDER, ids[0], i), Code(second, HIGH_ORDER, ids[1], i));
    }
  }

  method SendHigh(lsp: array<int>, first: seq<int>, second: seq<int>)
    returns (packet: array<bv8>, ids: seq<nat>, sent: seq<int>)
    requires lsp.Length == HIGH_ORDER && AreHighBooks(first, second)
    requires forall i :: 0 <= i < HIGH_ORDER ==> 0 <= lsp[i] < 0x8000
    ensures AreIds(ids, 2) && |sent| == HIGH_ORDER && fresh(packet)
    ensures HighChosen(LessLinear(lsp[..], true), Weights(lsp[..]), first, second, ids)
    ensures exists rest :: BitsOf(packet[..], 8 * packet.Length) == FieldBits(IdFields(ids)) + rest
    ensures sent == HighVector(first, second, ids) <==>
            forall i :: 0 <= i < HIGH_ORDER ==> -0x4000 <= lsp[i] - HighVector(first, second, ids)[i] < 0x4000
  {
    hide BitsOf, FieldBits, ClearFrom, Terminator, TakeAll, Code, HighVector, HighChosen, Weights, Quantised2, IsBook;
    var bits := new SpeexBits.Init();
    var q := new int[HIGH_ORDER];
    ids := LspQuantHigh(lsp, q, first, second, bits);
    sent := q[..];
    HighExact(lsp[..], sent, first, second, ids);
    assert [] + FieldBits(IdFields(ids)) == FieldBits(IdFields(ids));
    packet := WritePacket(bits);
  }

  // The high band over the wire: both sides have the same vector if and only if the residual of
  // every coordinate fits.
  method ExchangeHigh(lsp: array<int>, first: seq<int>, second: seq<int>)
    returns (ids: seq<nat>, sent: seq<int>, received: seq<int>)
    requires lsp.Length == HIGH_ORDER && AreHighBooks(first, second)
    requires forall i :: 0 <= i < HIGH_ORDER ==> 0 <= lsp[i] < 0x8000
    ensures AreIds(ids, 2) && |sent| == HIGH_ORDER && received == HighVector(first, second, ids)
    ensures HighChosen(LessLinear(lsp[..], true), Weights(lsp[..]), first, second, ids)
    ensures sent == received <==> forall i :: 0 <= i < HIGH_ORDER ==> -0x4000 <= lsp[i] - received[i] < 0x4000
  {
    hide BitsOf, FieldBits, TakeAll, HighVector, HighChosen, Weights, IsBook;
    var packet;
    packet, ids, sent := SendHigh(lsp, first, second);
    ghost var rest :| BitsOf(packet[..], 8 * packet.Length) == FieldBits(IdFields(ids)) + rest;
    var other := new SpeexBits.Init();
    other.ReadFrom(packet, packet.Length, true);
    assert packet[..packet.Length] == packet[..];
    TwoIds(other.View(), ids, rest);
    var r := new int[HIGH_ORDER];
    var back := LspUnquantHigh(r, first, second, other);
    received := r[..];
  }

  lemma TwoIds(r: Reader, ids: seq<nat>, rest: seq<bool>)
    requires AreIds(ids, 2) && r == Reader(FieldBits(IdFields(ids)) + rest, 0, false)
    ensures TakeAll(r, [6, 6]).0 == ids
  {
    hide FieldBits, TakeAll;
    var fs := IdFields(ids);
    assert Pow2(6) == 64;
    assert Widths(fs) == [6, 6] && Values(fs) == ids;
    TakeAllAhead(r, fs);
  }
}
