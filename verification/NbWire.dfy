/** The numbers of a coded frame as bits: packed in the order of nb_encode, read in the order of nb_decode. */
module NbWire {
  import opened BitString
  import opened BitReader
  import opened Modes
  import opened Ltp
  import opened Innovation
  import opened QuantLsp
  import opened NbSpec

  ghost function SubFields(t: Tables, m: nat, s: Sub): seq<Field>
    requires IsCoded(m) && AreTables(t)
  {
    var sm := NbSubmode(m);
    [Field(s.pitch, sm.ltp.pitchBits), Field(s.gain, sm.ltp.gainBits)]
    + (if sm.haveSubframeGain > 0 then [Field(s.energy, sm.haveSubframeGain)] else [])
    + IndexFields(Book(t, m), s.shape)
    + (if sm.doubleCodebook then IndexFields(Book(t, m), s.shape2) else [])
  }

  ghost function SubsFields(t: Tables, m: nat, ss: seq<Sub>): seq<Field>
    requires IsCoded(m) && AreTables(t)
  {
    if ss == [] then [] else SubsFields(t, m, ss[..|ss| - 1]) + SubFields(t, m, ss[|ss| - 1])
  }

  ghost function PreambleFields(m: nat, p: Params): seq<Field>
    requires IsCoded(m)
  {
    IdFields(p.lspIds) + (if HasOlPitch(m) then [Field(p.olPitch, 7)] else []) + [Field(p.olGain, 5)]
  }

  ghost function FrameFields(t: Tables, m: nat, p: Params): seq<Field>
    requires IsCoded(m) && AreTables(t)
  {
    PreambleFields(m, p) + SubsFields(t, m, p.subs)
  }

  // ---------- the layout is that of the submode table ----------

  lemma WidthsConcat(a: seq<Field>, b: seq<Field>)
    ensures Widths(a + b) == Widths(a) + Widths(b)
  {
  }

  lemma FitConcat(a: seq<Field>, b: seq<Field>)
    requires Fit(a) && Fit(b)
    ensures Fit(a + b)
  {
  }

  lemma IndexWidths(c: Codebook, inds: seq<nat>)
    requires ProperShapes(c, inds)
    ensures Widths(IndexFields(c, inds)) == Repeat(c.nbSubvect, IndexBits(c)) && Fit(IndexFields(c, inds))
  {
  }

  lemma SmallPowers()
    ensures Pow2(0) == 1 && Pow2(1) == 2 && Pow2(3) == 8 && Pow2(5) == 32 && Pow2(6) == 64 && Pow2(7) == 128
  {
  }

  lemma SubLayout(t: Tables, m: nat, s: Sub)
    requires IsCoded(m) && AreTables(t) && ProperSub(t, m, s)
    ensures Widths(SubFields(t, m, s)) == SubframeWidths(NbSubmode(m)) && Fit(SubFields(t, m, s))
  {
    var sm, c := NbSubmode(m), Book(t, m);
    SmallPowers();
    IndexWidths(c, s.shape);
    if sm.doubleCodebook { IndexWidths(c, s.shape2); }
    hide Pow2, IndexFields, Repeat, ProperShapes;
    var a := [Field(s.pitch, sm.ltp.pitchBits), Field(s.gain, sm.ltp.gainBits)];
    var b := if sm.haveSubframeGain > 0 then [Field(s.energy, sm.haveSubframeGain)] else [];
    var d := if sm.doubleCodebook then IndexFields(c, s.shape2) else [];
    assert Fit(a) && Fit(b) && Fit(d);
    hide Fit;
    FitConcat(a, b);
    FitConcat(a + b, IndexFields(c, s.shape));
    FitConcat(a + b + IndexFields(c, s.shape), d);
    WidthsConcat(a, b);
    WidthsConcat(a + b, IndexFields(c, s.shape));
    WidthsConcat(a + b + IndexFields(c, s.shape), d);
  }

  lemma {:induction false} SubsLayout(t: Tables, m: nat, ss: seq<Sub>)
    requires IsCoded(m) && AreTables(t) && forall i :: 0 <= i < |ss| ==> ProperSub(t, m, ss[i])
    ensures Widths(SubsFields(t, m, ss)) == SubframesWidths(NbSubmode(m), |ss|) && Fit(SubsFields(t, m, ss))
  {
    hide ProperSub, SubframeWidths, SubFields, AreTables;
    if ss != [] {
      var front, last := ss[..|ss| - 1], ss[|ss| - 1];
      SubsLayout(t, m, front);
      SubLayout(t, m, last);
      WidthsConcat(SubsFields(t, m, front), SubFields(t, m, last));
      FitConcat(SubsFields(t, m, front), SubFields(t, m, last));
    }
  }

  lemma PreambleLayout(t: Tables, m: nat, p: Params)
    requires IsCoded(m) && AreTables(t) && ProperParams(t, m, p)
    ensures Widths(PreambleFields(m, p)) == PreambleWidths(m) && Fit(PreambleFields(m, p))
  {
    SmallPowers();
    hide Pow2, AreTables, ProperSub;
    assert Widths(IdFields(p.lspIds)) == LspWidths(NbSubmode(m).lsp) && Fit(IdFields(p.lspIds));
  }

  // What the encoder packs for a frame has the widths that the frame layout prescribes.
  // The bits of a frame with its header.
  ghost function WireBits(t: Tables, m: nat, p: Params): seq<bool>
    requires IsCoded(m) && AreTables(t)
  {
    FieldBits([Field(0, 1), Field(m, 4)]) + FieldBits(FrameFields(t, m, p))
  }

  lemma FrameLayout(t: Tables, m: nat, p: Params)
    requires IsCoded(m) && AreTables(t) && ProperParams(t, m, p)
    ensures Widths(FrameFields(t, m, p)) == Layout(m) && Fit(FrameFields(t, m, p))
  {
    PreambleLayout(t, m, p);
    SubsLayout(t, m, p.subs);
    hide PreambleFields, SubsFields, PreambleWidths, SubframesWidths, Fit;
    WidthsConcat(PreambleFields(m, p), SubsFields(t, m, p.subs));
    FitConcat(PreambleFields(m, p), SubsFields(t, m, p.subs));
  }

  // ---------- reading a frame ----------

  lemma {:induction false} IdsBound(r: Reader, n: nat)
    ensures AreIds(TakeAll(r, Repeat(n, 6)).0, n)
  {
    if n > 0 {
      assert Repeat(n, 6) == Repeat(n - 1, 6) + [6];
      TakeOneMore(r, Repeat(n - 1, 6), 6);
      IdsBound(r, n - 1);
      SixBits(TakeAll(r, Repeat(n - 1, 6)).1);
    }
  }

  // The next n bits, or zero when the field does not exist.
  ghost function TakeIf(r: Reader, there: bool, n: nat): (p: (nat, Reader))
    ensures p.0 < Pow2(n) && p.1.s == r.s && p.1.pos >= r.pos && (Sound(r) ==> Sound(p.1))
  {
    if there then Take(r, n) else (0, r)
  }

  ghost function TakeSub(t: Tables, m: nat, r: Reader): (p: (Sub, Reader))
    requires IsCoded(m) && AreTables(t)
    ensures ProperSub(t, m, p.0) && p.1.s == r.s && p.1.pos >= r.pos && (Sound(r) ==> Sound(p.1))
  {
    var sm, c := NbSubmode(m), Book(t, m);
    SmallPowers();
    var (pitch, r1) := TakeIf(r, true, sm.ltp.pitchBits);
    var (gain, r2) := TakeIf(r1, true, sm.ltp.gainBits);
    var (energy, r3) := TakeIf(r2, sm.haveSubframeGain > 0, sm.haveSubframeGain);
    var (shape, r4) := TakeIndices(c, r3, c.nbSubvect);
    var (shape2, r5) := if sm.doubleCodebook then TakeIndices(c, r4, c.nbSubvect) else ([], r4);
    (Sub(pitch, gain, energy, shape, shape2), r5)
  }

  ghost function TakeSubs(t: Tables, m: nat, r: Reader, n: nat): (p: (seq<Sub>, Reader))
    requires IsCoded(m) && AreTables(t)
    ensures |p.0| == n && (forall i :: 0 <= i < n ==> ProperSub(t, m, p.0[i]))
    ensures p.1.s == r.s && p.1.pos >= r.pos && (Sound(r) ==> Sound(p.1))
  {
    if n == 0 then ([], r)
    else
      var (ss, r1) := TakeSubs(t, m, r, n - 1);
      var (s, r2) := TakeSub(t, m, r1);
      (ss + [s], r2)
  }

  ghost function TakeFrame(t: Tables, m: nat, r: Reader): (p: (Params, Reader))
    requires IsCoded(m) && AreTables(t)
    ensures ProperParams(t, m, p.0) && p.1.s == r.s && p.1.pos >= r.pos && (Sound(r) ==> Sound(p.1))
  {
    SmallPowers();
    IdsBound(r, LspStageCount(m));
    var (ids, r1) := TakeAll(r, Repeat(LspStageCount(m), 6));
    var (olPitch, r2) := TakeIf(r1, HasOlPitch(m), 7);
    var (olGain, r3) := TakeIf(r2, true, 5);
    var (subs, r4) := TakeSubs(t, m, r3, NB_NB_SUBFRAMES);
    (Params(ids, if HasOlPitch(m) then olPitch else 0, olGain, subs), r4)
  }

  lemma OneAhead(r: Reader, there: bool, f: Field, rest: seq<bool>)
    requires f.value < Pow2(f.width)
    requires Ahead(r, FieldBits(if there then [f] else []) + rest)
    ensures TakeIf(r, there, f.width)
            == (if there then f.value else 0, MovedOn(r, |FieldBits(if there then [f] else [])|))
    ensures Ahead(MovedOn(r, |FieldBits(if there then [f] else [])|), rest)
  {
    AheadSplit(r, FieldBits(if there then [f] else []), rest);
    if there {
      assert FieldBits([f]) == FieldBits([f][..0]) + ToBits(f.value, f.width);
      TakeAhead(r, f.value, f.width);
    } else {
      assert FieldBits([]) == [];
    }
  }

  lemma SomeIndicesAhead(c: Codebook, r: Reader, inds: seq<nat>, rest: seq<bool>)
    requires ProperShapes(c, inds) && Ahead(r, FieldBits(IndexFields(c, inds)) + rest)
    ensures TakeIndices(c, r, c.nbSubvect) == (inds, MovedOn(r, |FieldBits(IndexFields(c, inds))|))
    ensures Ahead(MovedOn(r, |FieldBits(IndexFields(c, inds))|), rest)
  {
    hide FieldBits, IndexFields, TakeIndices;
    AheadSplit(r, FieldBits(IndexFields(c, inds)), rest);
    IndicesAhead(c, r, inds);
  }

  // The pieces of a subframe, one behind the other.
  ghost function SubBits(sm: Submode, c: Codebook, s: Sub): seq<bool>
    requires sm.ltp.ThreeTap?
  {
    FieldBits([Field(s.pitch, sm.ltp.pitchBits)])
    + (FieldBits([Field(s.gain, sm.ltp.gainBits)])
    + (FieldBits(if sm.haveSubframeGain > 0 then [Field(s.energy, sm.haveSubframeGain)] else [])
    + (FieldBits(IndexFields(c, s.shape))
    + FieldBits(if sm.doubleCodebook then IndexFields(c, s.shape2) else []))))
  }

  lemma SubBitsAre(t: Tables, m: nat, s: Sub)
    requires IsCoded(m) && AreTables(t)
    ensures FieldBits(SubFields(t, m, s)) == SubBits(NbSubmode(m), Book(t, m), s)
  {
    hide FieldBits, IndexFields;
    var sm, c := NbSubmode(m), Book(t, m);
    var a, b := [Field(s.pitch, sm.ltp.pitchBits)], [Field(s.gain, sm.ltp.gainBits)];
    var d := if sm.haveSubframeGain > 0 then [Field(s.energy, sm.haveSubframeGain)] else [];
    var e, f := IndexFields(c, s.shape), if sm.doubleCodebook then IndexFields(c, s.shape2) else [];
    assert SubFields(t, m, s) == a + (b + (d + (e + f)));
    FieldBitsConcat(a, b + (d + (e + f)));
    FieldBitsConcat(b, d + (e + f));
    FieldBitsConcat(d, e + f);
    FieldBitsConcat(e, f);
  }

  // Every number of a subframe fits its field.
  ghost predicate SubFits(sm: Submode, c: Codebook, s: Sub) {
    && sm.ltp.ThreeTap? && s.pitch < Pow2(sm.ltp.pitchBits) && s.gain < Pow2(sm.ltp.gainBits)
    && s.energy < Pow2(sm.haveSubframeGain) && (sm.haveSubframeGain == 0 ==> s.energy == 0)
    && ProperShapes(c, s.shape) && (if sm.doubleCodebook then ProperShapes(c, s.shape2) else s.shape2 == [])
  }

  lemma ProperFits(t: Tables, m: nat, s: Sub)
    requires IsCoded(m) && AreTables(t) && ProperSub(t, m, s)
    ensures SubFits(NbSubmode(m), Book(t, m), s)
  {
    SmallPowers();
    hide Pow2, ProperShapes;
  }

  lemma PartsAhead(sm: Submode, c: Codebook, r: Reader, s: Sub, rest: seq<bool>)
    requires SubFits(sm, c, s) && Ahead(r, SubBits(sm, c, s) + rest)
    ensures var (pitch, r1) := TakeIf(r, true, sm.ltp.pitchBits);
            var (gain, r2) := TakeIf(r1, true, sm.ltp.gainBits);
            var (energy, r3) := TakeIf(r2, sm.haveSubframeGain > 0, sm.haveSubframeGain);
            var (shape, r4) := TakeIndices(c, r3, c.nbSubvect);
            var (shape2, r5) := if sm.doubleCodebook then TakeIndices(c, r4, c.nbSubvect) else ([], r4);
            Sub(pitch, gain, energy, shape, shape2) == s && r5 == MovedOn(r, |SubBits(sm, c, s)|)
    ensures Ahead(MovedOn(r, |SubBits(sm, c, s)|), rest)
  {
    hide FieldBits, IndexFields, Ahead, TakeIf, TakeIndices, Pow2, ProperShapes;
    var a, b := FieldBits([Field(s.pitch, sm.ltp.pitchBits)]), FieldBits([Field(s.gain, sm.ltp.gainBits)]);
    var d := FieldBits(if sm.haveSubframeGain > 0 then [Field(s.energy, sm.haveSubframeGain)] else []);
    var e, f := FieldBits(IndexFields(c, s.shape)),
        FieldBits(if sm.doubleCodebook then IndexFields(c, s.shape2) else []);
    FiveParts(a, b, d, e, f, rest);
    OneAhead(r, true, Field(s.pitch, sm.ltp.pitchBits), b + (d + (e + (f + rest))));
    var r1 := MovedOn(r, |a|);
    OneAhead(r1, true, Field(s.gain, sm.ltp.gainBits), d + (e + (f + rest)));
    var r2 := MovedOn(r1, |b|);
    OneAhead(r2, sm.haveSubframeGain > 0, Field(s.energy, sm.haveSubframeGain), e + (f + rest));
    var r3 := MovedOn(r2, |d|);
    SomeIndicesAhead(c, r3, s.shape, f + rest);
    var r4 := MovedOn(r3, |e|);
    LastIndicesAhead(c, r4, sm.doubleCodebook, s.shape2, rest);
  }

  lemma SubAhead(t: Tables, m: nat, r: Reader, s: Sub, rest: seq<bool>)
    requires IsCoded(m) && AreTables(t) && ProperSub(t, m, s) && Ahead(r, FieldBits(SubFields(t, m, s)) + rest)
    ensures TakeSub(t, m, r) == (s, MovedOn(r, |FieldBits(SubFields(t, m, s))|))
    ensures Ahead(MovedOn(r, |FieldBits(SubFields(t, m, s))|), rest)
  {
    SubBitsAre(t, m, s);
    ProperFits(t, m, s);
    hide FieldBits, IndexFields, Ahead, TakeIf, TakeIndices, SubFields, SubBits, SubFits, NbSubmode, Pow2;
    PartsAhead(NbSubmode(m), Book(t, m), r, s, rest);
  }

  lemma LastIndicesAhead(c: Codebook, r: Reader, there: bool, inds: seq<nat>, rest: seq<bool>)
    requires if there then ProperShapes(c, inds) else inds == []
    requires Ahead(r, FieldBits(if there then IndexFields(c, inds) else []) + rest)
    ensures (if there then TakeIndices(c, r, c.nbSubvect) else ([], r))
         == (inds, MovedOn(r, |FieldBits(if there then IndexFields(c, inds) else [])|))
    ensures Ahead(MovedOn(r, |FieldBits(if there then IndexFields(c, inds) else [])|), rest)
  {
    if there {
      SomeIndicesAhead(c, r, inds, rest);
    } else {
      AheadSplit(r, FieldBits([]), rest);
    }
  }

  lemma FiveParts(a: seq<bool>, b: seq<bool>, d: seq<bool>, e: seq<bool>, f: seq<bool>, rest: seq<bool>)
    ensures (a + (b + (d + (e + f)))) + rest == a + (b + (d + (e + (f + rest))))
    ensures |a + (b + (d + (e + f)))| == |a| + |b| + |d| + |e| + |f|
  {
  }

  lemma {:induction false} SubsAhead(t: Tables, m: nat, r: Reader, ss: seq<Sub>, rest: seq<bool>)
    requires IsCoded(m) && AreTables(t) && (forall i :: 0 <= i < |ss| ==> ProperSub(t, m, ss[i]))
    requires Ahead(r, FieldBits(SubsFields(t, m, ss)) + rest)
    ensures TakeSubs(t, m, r, |ss|) == (ss, MovedOn(r, |FieldBits(SubsFields(t, m, ss))|))
    ensures Ahead(MovedOn(r, |FieldBits(SubsFields(t, m, ss))|), rest)
  {
    hide FieldBits, Ahead, TakeSub, AreTables, ProperSub, SubFields, TakeSubs;
    AheadSplit(r, FieldBits(SubsFields(t, m, ss)), rest);
    if ss == [] {
      NoFieldBits();
      NoSubs(t, m, r);
    } else {
      var front, last := ss[..|ss| - 1], ss[|ss| - 1];
      assert SubsFields(t, m, ss) == SubsFields(t, m, front) + SubFields(t, m, last);
      hide SubsFields;
      var a, b := FieldBits(SubsFields(t, m, front)), FieldBits(SubFields(t, m, last));
      FieldBitsConcat(SubsFields(t, m, front), SubFields(t, m, last));
      assert (a + b) + rest == a + (b + rest);
      SubsAhead(t, m, r, front, b + rest);
      SubAhead(t, m, MovedOn(r, |a|), last, rest);
      TakeSubsNext(t, m, r, |ss| - 1);
      assert front + [last] == ss;
    }
  }

  lemma NoSubs(t: Tables, m: nat, r: Reader)
    requires IsCoded(m) && AreTables(t)
    ensures TakeSubs(t, m, r, 0) == ([], r)
  {
  }

  lemma TakeSubsNext(t: Tables, m: nat, r: Reader, n: nat)
    requires IsCoded(m) && AreTables(t)
    ensures var (ss, r1) := TakeSubs(t, m, r, n);
            var (s, r2) := TakeSub(t, m, r1);
            TakeSubs(t, m, r, n + 1) == (ss + [s], r2)
  {
  }

  lemma NoFieldBits()
    ensures FieldBits([]) == []
  {
  }

  lemma IdsAhead(r: Reader, ids: seq<nat>, rest: seq<bool>)
    requires AreIds(ids, |ids|) && Ahead(r, FieldBits(IdFields(ids)) + rest)
    ensures TakeAll(r, Repeat(|ids|, 6)) == (ids, MovedOn(r, |FieldBits(IdFields(ids))|))
    ensures Ahead(MovedOn(r, |FieldBits(IdFields(ids))|), rest)
  {
    SmallPowers();
    hide FieldBits, TakeAll, Pow2;
    AheadSplit(r, FieldBits(IdFields(ids)), rest);
    TakeAllAhead(r, IdFields(ids));
    assert Widths(IdFields(ids)) == Repeat(|ids|, 6) && Values(IdFields(ids)) == ids;
  }

  // The decoder reads a frame back into the numbers that the encoder packed.
  lemma FrameAhead(t: Tables, m: nat, r: Reader, p: Params, rest: seq<bool>)
    requires IsCoded(m) && AreTables(t) && ProperParams(t, m, p) && Ahead(r, FieldBits(FrameFields(t, m, p)) + rest)
    ensures TakeFrame(t, m, r) == (p, MovedOn(r, |FieldBits(FrameFields(t, m, p))|))
    ensures Ahead(MovedOn(r, |FieldBits(FrameFields(t, m, p))|), rest)
  {
    SmallPowers();
    hide FieldBits, IdFields, Ahead, TakeIf, TakeAll, TakeSubs, AreTables, Pow2, SubsFields, ProperSub;
    var a := IdFields(p.lspIds);
    var b, c := if HasOlPitch(m) then [Field(p.olPitch, 7)] else [], [Field(p.olGain, 5)];
    var d := SubsFields(t, m, p.subs);
    assert FrameFields(t, m, p) == a + (b + (c + d));
    FieldBitsConcat(a, b + (c + d));
    FieldBitsConcat(b, c + d);
    FieldBitsConcat(c, d);
    var x, y, z, w := FieldBits(a), FieldBits(b), FieldBits(c), FieldBits(d);
    assert (x + (y + (z + w))) + rest == x + (y + (z + (w + rest)));
    IdsAhead(r, p.lspIds, y + (z + (w + rest)));
    var r1 := MovedOn(r, |x|);
    OneAhead(r1, HasOlPitch(m), Field(p.olPitch, 7), z + (w + rest));
    var r2 := MovedOn(r1, |y|);
    OneAhead(r2, true, Field(p.olGain, 5), w + rest);
    SubsAhead(t, m, MovedOn(r2, |z|), p.subs, rest);
  }

  lemma {:induction false} TakeSubsAt(t: Tables, m: nat, r: Reader, n: nat, k: nat)
    requires IsCoded(m) && AreTables(t) && k < n
    ensures TakeSubs(t, m, r, n).0[k] == TakeSub(t, m, TakeSubs(t, m, r, k).1).0
    ensures TakeSubs(t, m, r, k + 1).1 == TakeSub(t, m, TakeSubs(t, m, r, k).1).1
  {
    hide TakeSub, AreTables;
    if k < n - 1 {
      TakeSubsAt(t, m, r, n - 1, k);
    }
  }
}
