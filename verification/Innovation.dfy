/** The fixed codebook: the excitation that the encoder adds for the indices it packs and the
    one that the decoder rebuilds from the bits (cb_search.c, fixed-point build). */
module Innovation {
  import opened Arith
  import opened Fixed
  import opened BitString
  import opened BitReader
  import opened Bits
  import opened BitRuns

  // split_cb_params, with the shapes one after the other in shapes.
  datatype Codebook = Codebook(subvectSize: nat, nbSubvect: nat, shapeBits: nat, haveSign: bool, shapes: seq<int>)

  // 1 << shape_bits
  function Shapes(c: Codebook): (n: nat)
    ensures n > 0
  {
    Pow2(c.shapeBits)
  }

  ghost predicate IsCodebook(c: Codebook) {
    && |c.shapes| == Shapes(c) * c.subvectSize && c.shapeBits + 1 <= 32
    && forall i :: 0 <= i < |c.shapes| ==> -128 <= c.shapes[i] < 128
  }

  function IndexBits(c: Codebook): nat { c.shapeBits + if c.haveSign then 1 else 0 }

  // Sample j of the shape, scaled by SIG_SHIFT-5, and negated when the sign says so.
  function ShapeSample(c: Codebook, negative: bool, shape: nat, j: nat): int
    requires shape * c.subvectSize + j < |c.shapes|
  {
    var v := Shl32(c.shapes[shape * c.subvectSize + j], 512);
    if negative then Neg32(v) else v
  }

  lemma ShapeInBook(c: Codebook, shape: nat, j: nat)
    requires IsCodebook(c) && shape < Shapes(c) && j < c.subvectSize
    ensures 0 <= shape * c.subvectSize && shape * c.subvectSize + j < |c.shapes|
  {
    FlatIndex(shape, j, Shapes(c), c.subvectSize);
  }

  // The subvector that a sign and a shape stand for.
  ghost function Subvector(c: Codebook, negative: bool, shape: nat): (s: seq<int>)
    requires IsCodebook(c) && shape < Shapes(c)
    ensures |s| == c.subvectSize
  {
    seq(c.subvectSize,
        j requires 0 <= j < c.subvectSize => ShapeInBook(c, shape, j); ShapeSample(c, negative, shape, j))
  }

  // An index as the search returns it: the upper half of the doubled range is negative.
  ghost predicate IsIndex(c: Codebook, index: nat) { index < Pow2(IndexBits(c)) }

  ghost function Negative(c: Codebook, index: nat): bool { index >= Shapes(c) }

  ghost function Shape(c: Codebook, index: nat): nat
    requires IsIndex(c, index)
  {
    if Negative(c, index) then index - Shapes(c) else index
  }

  lemma ShapeBound(c: Codebook, index: nat)
    requires IsIndex(c, index)
    ensures Shape(c, index) < Shapes(c) && (Negative(c, index) ==> c.haveSign)
  {
    assert Pow2(c.shapeBits + 1) == 2 * Pow2(c.shapeBits);
  }

  ghost predicate AreIndices(c: Codebook, inds: seq<nat>) {
    forall i :: 0 <= i < |inds| ==> IsIndex(c, inds[i])
  }

  // The subvectors one after the other.
  ghost function Excitation(c: Codebook, inds: seq<nat>): seq<int>
    requires IsCodebook(c) && AreIndices(c, inds)
  {
    if inds == [] then []
    else
      var front, last := inds[..|inds| - 1], inds[|inds| - 1];
      ShapeBound(c, last);
      Excitation(c, front) + Subvector(c, Negative(c, last), Shape(c, last))
  }

  lemma {:induction false} ExcitationLength(c: Codebook, inds: seq<nat>)
    requires IsCodebook(c) && AreIndices(c, inds)
    ensures |Excitation(c, inds)| == |inds| * c.subvectSize
  {
    if inds != [] {
      ExcitationLength(c, inds[..|inds| - 1]);
      MulDiff(|inds|, 1, c.subvectSize);
    }
  }

  // The top bit of what the encoder packs is the sign bit that the decoder takes first.
  lemma TopBitIsSign(c: Codebook, index: nat)
    requires IsIndex(c, index)
    ensures ToBits(index, IndexBits(c))
         == (if c.haveSign then ToBits(if Negative(c, index) then 1 else 0, 1) else [])
             + ToBits(Shape(c, index), c.shapeBits)
    ensures !c.haveSign ==> !Negative(c, index)
  {
    ShapeBound(c, index);
    if c.haveSign {
      SignBit(if Negative(c, index) then 1 else 0, Shape(c, index), c.shapeBits);
    } else {
      assert [] + ToBits(Shape(c, index), c.shapeBits) == ToBits(Shape(c, index), c.shapeBits);
    }
  }

  lemma {:induction false} SignBit(sign: nat, v: nat, w: nat)
    requires sign <= 1 && v < Pow2(w)
    ensures ToBits(sign * Pow2(w) + v, w + 1) == ToBits(sign, 1) + ToBits(v, w)
  {
    if w > 0 {
      SignBit(sign, v / 2, w - 1);
      var h := sign * Pow2(w - 1);
      assert sign * Pow2(w) == 2 * h;
      assert (2 * h + v) / 2 == h + v / 2 && (2 * h + v) % 2 == v % 2;
    }
  }

  // ---------- the two implementations ----------

  // One subvector written by either side, from position at on.
  method WriteSubvector(c: Codebook, negative: bool, shape: nat, e: array<int>, at: nat)
    requires IsCodebook(c) && shape < Shapes(c) && at + c.subvectSize <= e.Length
    modifies e
    ensures e[..at + c.subvectSize] == old(e[..at]) + Subvector(c, negative, shape)
  {
    for j := 0 to c.subvectSize
      invariant e[..at] == old(e[..at])
      invariant e[at..at + j] == Subvector(c, negative, shape)[..j]
    {
      ShapeInBook(c, shape, j);
      e[at + j] := ShapeSample(c, negative, shape, j);
      assert e[at..at + j + 1] == e[at..at + j] + [e[at + j]];
    }
  }

  ghost function IndexFields(c: Codebook, inds: seq<nat>): seq<Field> {
    seq(|inds|, i requires 0 <= i < |inds| => Field(inds[i], IndexBits(c)))
  }

  // The encoder, once the search has settled on its indices: pack them, rebuild what they
  // stand for and add it to the excitation.
  method PackAndRebuild(bits: SpeexBits, c: Codebook, inds: seq<nat>, exc: array<int>)
    requires bits.Writing() && bits.owner && IsCodebook(c) && AreIndices(c, inds)
    requires exc.Length == |inds| * c.subvectSize && (exc as object) != bits.chars
    requires forall j :: 0 <= j < exc.Length ==> exc[j] == 0
    modifies bits, bits.chars, exc
    ensures bits.Writing() && bits.overflow == old(bits.overflow)
    ensures bits.Contents() == old(bits.Contents()) + FieldBits(IndexFields(c, inds))
    ensures bits.chars == old(bits.chars) || fresh(bits.chars)
    ensures exc[..] == Excitation(c, inds)
  {
    hide FieldBits, BitsOf, ClearFrom, Excitation;
    var fields := seq(|inds|, i requires 0 <= i < |inds| => Field(inds[i], IndexBits(c)));
    PackFields(bits, fields);
    var e := new int[exc.Length];
    Rebuild(c, inds, e);
    AddTo(exc, e);
    InWord(c, inds);
    assert exc[..] == e[..];
  }

  // "Update excitation"
  method AddTo(exc: array<int>, e: array<int>)
    requires exc.Length == e.Length && exc != e
    modifies exc
    ensures forall k :: 0 <= k < exc.Length ==> exc[k] == Add32(old(exc[k]), e[k])
  {
    for j := 0 to exc.Length
      invariant forall k :: 0 <= k < exc.Length ==> exc[k] == if k < j then Add32(old(exc[k]), e[k]) else old(exc[k])
    {
      exc[j] := Add32(exc[j], e[j]);
    }
  }

  // "Put everything back together"
  method Rebuild(c: Codebook, inds: seq<nat>, e: array<int>)
    requires IsCodebook(c) && AreIndices(c, inds) && e.Length == |inds| * c.subvectSize
    modifies e
    ensures e[..] == Excitation(c, inds)
  {
    hide Subvector, ShapeSample, IsIndex, StandsAt;
    var at: nat := 0;
    StandsFirst(0, c.subvectSize);
    for i := 0 to |inds|
      invariant StandsAt(at, 0, c.subvectSize, i) && at <= e.Length && (i == |inds| ==> at == e.Length)
      invariant e[..at] == Excitation(c, inds[..i])
    {
      StandsNext(at, 0, |inds|, c.subvectSize, i);
      var rind, negative := inds[i], false;
      if rind >= Shapes(c) {
        negative := true;
        rind := rind - Shapes(c);
      }
      ShapeBound(c, inds[i]);
      WriteSubvector(c, negative, rind, e, at);
      assert inds[..i + 1][..i] == inds[..i];
      at := at + c.subvectSize;
    }
    assert inds[..|inds|] == inds && e[..at] == e[..];
  }

  lemma {:induction false} InWord(c: Codebook, inds: seq<nat>)
    requires IsCodebook(c) && AreIndices(c, inds)
    ensures forall j :: 0 <= j < |Excitation(c, inds)| ==> Add32(0, Excitation(c, inds)[j]) == Excitation(c, inds)[j]
  {
    if inds != [] {
      InWord(c, inds[..|inds| - 1]);
    }
  }

  // ---------- decoding ----------

  // The sign, if there is one, and the shape, as one index.
  ghost function TakeIndex(c: Codebook, r: Reader): (p: (nat, Reader))
    ensures IsIndex(c, p.0) && p.1.s == r.s && p.1.pos >= r.pos && (Sound(r) ==> Sound(p.1))
  {
    var (sign, r') := if c.haveSign then Take(r, 1) else (0, r);
    var (shape, r'') := Take(r', c.shapeBits);
    assert Pow2(c.shapeBits + 1) == 2 * Pow2(c.shapeBits);
    (if sign != 0 then Shapes(c) + shape else shape, r'')
  }

  ghost function TakeIndices(c: Codebook, r: Reader, n: nat): (p: (seq<nat>, Reader))
    ensures |p.0| == n && AreIndices(c, p.0) && p.1.s == r.s && p.1.pos >= r.pos && (Sound(r) ==> Sound(p.1))
  {
    if n == 0 then ([], r)
    else
      var (inds, r') := TakeIndices(c, r, n - 1);
      var (index, r'') := TakeIndex(c, r');
      (inds + [index], r'')
  }

  // What a sign and a shape index say together.
  ghost predicate Means(c: Codebook, index: nat, sign: bool, shape: nat) {
    IsIndex(c, index) && Negative(c, index) == sign && Shape(c, index) == shape
  }

  method UnpackIndex(bits: SpeexBits, c: Codebook) returns (sign: bool, shape: nat, ghost index: nat)
    requires bits.Valid() && IsCodebook(c)
    modifies bits`charPtr, bits`bitPtr, bits`overflow
    ensures bits.Valid() && (index, bits.View()) == TakeIndex(c, old(bits.View()))
    ensures Means(c, index, sign, shape)
  {
    hide FromBits, BitsOf;
    ghost var r := bits.View();
    sign := false;
    if c.haveSign {
      var s := bits.UnpackUnsigned(1);
      sign := s != 0;
    }
    ghost var r' := bits.View();
    shape := bits.UnpackUnsigned(c.shapeBits);
    ShapeTaken(c, r');
    index := if sign then Shapes(c) + shape else shape;
    assert IsIndex(c, TakeIndex(c, r).0);
  }

  lemma ShapeTaken(c: Codebook, r: Reader)
    ensures Take(r, c.shapeBits).0 < Shapes(c)
  {
  }

  // "Decode codewords and gains"
  method UnpackIndices(bits: SpeexBits, c: Codebook) returns (signs: seq<bool>, shapes: seq<nat>, ghost inds: seq<nat>)
    requires bits.Valid() && IsCodebook(c)
    modifies bits`charPtr, bits`bitPtr, bits`overflow
    ensures bits.Valid() && (inds, bits.View()) == TakeIndices(c, old(bits.View()), c.nbSubvect)
    ensures |signs| == |shapes| == c.nbSubvect
    ensures forall k :: 0 <= k < c.nbSubvect ==> Means(c, inds[k], signs[k], shapes[k])
  {
    hide BitsOf, Means, TakeIndex, IsCodebook;
    ghost var start := bits.View();
    signs, shapes, inds := [], [], [];
    for i := 0 to c.nbSubvect
      invariant bits.Valid() && |signs| == |shapes| == |inds| == i
      invariant (inds, bits.View()) == TakeIndices(c, start, i)
      invariant forall k :: 0 <= k < i ==> Means(c, inds[k], signs[k], shapes[k])
    {
      var sign, shape, index := UnpackIndex(bits, c);
      signs, shapes := signs + [sign], shapes + [shape];
      inds := inds + [index];
    }
  }

  method SplitCbShapeSignUnquant(bits: SpeexBits, c: Codebook, exc: array<int>)
    requires bits.Valid() && IsCodebook(c) && exc.Length == c.nbSubvect * c.subvectSize
    requires (exc as object) != bits.chars
    modifies bits`charPtr, bits`bitPtr, bits`overflow, exc
    ensures bits.Valid()
    ensures var (inds, r) := TakeIndices(c, old(bits.View()), c.nbSubvect);
            exc[..] == Excitation(c, inds) && bits.View() == r
  {
    hide BitsOf, Means, IsCodebook, TakeIndex, Excitation;
    var signs, shapes, inds := UnpackIndices(bits, c);
    WriteShapes(c, signs, shapes, inds, exc);
  }

  // "Compute decoded excitation"
  method WriteShapes(c: Codebook, signs: seq<bool>, shapes: seq<nat>, ghost inds: seq<nat>, exc: array<int>)
    requires IsCodebook(c) && exc.Length == |inds| * c.subvectSize && |signs| == |shapes| == |inds|
    requires forall k :: 0 <= k < |inds| ==> Means(c, inds[k], signs[k], shapes[k])
    modifies exc
    ensures AreIndices(c, inds) && exc[..] == Excitation(c, inds)
  {
    hide Subvector, ShapeSample, IsIndex, StandsAt;
    assert AreIndices(c, inds);
    var at: nat := 0;
    StandsFirst(0, c.subvectSize);
    for i := 0 to |signs|
      invariant StandsAt(at, 0, c.subvectSize, i) && at <= exc.Length && (i == |inds| ==> at == exc.Length)
      invariant exc[..at] == Excitation(c, inds[..i])
    {
      StandsNext(at, 0, |inds|, c.subvectSize, i);
      ShapeBound(c, inds[i]);
      WriteSubvector(c, signs[i], shapes[i], exc, at);
      assert inds[..i + 1][..i] == inds[..i];
      at := at + c.subvectSize;
    }
    assert inds[..|inds|] == inds && exc[..at] == exc[..];
  }

  lemma SignAndShape(c: Codebook, index: nat)
    requires IsIndex(c, index)
    ensures Shape(c, index) < Pow2(c.shapeBits) && Pow2(1) == 2 && (Negative(c, index) ==> c.haveSign)
    ensures index == if Negative(c, index) then Shapes(c) + Shape(c, index) else Shape(c, index)
  {
    ShapeBound(c, index);
    assert Pow2(1) == 2 * Pow2(0);
  }

  lemma TakesInTurn(c: Codebook, r: Reader, sign: nat, shape: nat)
    requires if c.haveSign then Take(r, 1).0 == sign && Take(Take(r, 1).1, c.shapeBits).0 == shape
             else sign == 0 && Take(r, c.shapeBits).0 == shape
    ensures TakeIndex(c, r).0 == if sign != 0 then Shapes(c) + shape else shape
    ensures TakeIndex(c, r).1 == Take(if c.haveSign then Take(r, 1).1 else r, c.shapeBits).1
  {
    hide Take, Pow2;
  }

  lemma IndexAhead(c: Codebook, r: Reader, index: nat)
    requires IsIndex(c, index) && Ahead(r, ToBits(index, IndexBits(c)))
    ensures TakeIndex(c, r) == (index, r.(pos := r.pos + IndexBits(c)))
  {
    hide ToBits, FromBits, Take, Negative, Shape, Pow2, IsIndex, TakeIndex, Ahead;
    TopBitIsSign(c, index);
    SignAndShape(c, index);
    var sign, shape := if Negative(c, index) then 1 else 0, Shape(c, index);
    if c.haveSign {
      AheadSplit(r, ToBits(sign, 1), ToBits(shape, c.shapeBits));
      TakeAhead(r, sign, 1);
      TakeAhead(r.(pos := r.pos + 1), shape, c.shapeBits);
    } else {
      assert [] + ToBits(shape, c.shapeBits) == ToBits(shape, c.shapeBits);
      TakeAhead(r, shape, c.shapeBits);
    }
    TakesInTurn(c, r, sign, shape);
  }

  // The decoder finds the indices that the encoder packed, whatever the shape of the codebook.
  lemma {:induction false} IndicesAhead(c: Codebook, r: Reader, inds: seq<nat>)
    requires AreIndices(c, inds) && Ahead(r, FieldBits(IndexFields(c, inds)))
    ensures TakeIndices(c, r, |inds|) == (inds, r.(pos := r.pos + |FieldBits(IndexFields(c, inds))|))
  {
    hide ToBits, FromBits, TakeIndex, IsIndex;
    if inds == [] {
      assert FieldBits(IndexFields(c, inds)) == [];
    } else {
      var front, last := inds[..|inds| - 1], inds[|inds| - 1];
      assert IndexFields(c, inds)[..|inds| - 1] == IndexFields(c, front);
      assert FieldBits(IndexFields(c, inds)) == FieldBits(IndexFields(c, front)) + ToBits(last, IndexBits(c));
      hide Ahead;
      AheadSplit(r, FieldBits(IndexFields(c, front)), ToBits(last, IndexBits(c)));
      IndicesAhead(c, r, front);
      IndexAhead(c, r.(pos := r.pos + |FieldBits(IndexFields(c, front))|), last);
      assert inds == front + [last];
    }
  }
}
