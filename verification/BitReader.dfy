/** What reading from a bit buffer amounts to: a bit string, a position in it, and a sticky overflow flag. */
module BitReader {
  import opened BitString

  datatype Reader = Reader(s: seq<bool>, pos: nat, overflow: bool)

  ghost predicate Sound(r: Reader) { r.pos <= |r.s| }

  // n bits further on.
  ghost function MovedOn(r: Reader, n: nat): Reader { r.(pos := r.pos + n) }

  // The next n bits as a number, or zero once too many bits were asked for.
  ghost function Take(r: Reader, n: nat): (nat, Reader) {
    if r.overflow || r.pos + n > |r.s| then (0, r.(overflow := true))
    else (FromBits(r.s[r.pos..r.pos + n]), r.(pos := r.pos + n))
  }

  // Moving by n bits, in either direction.
  ghost function Skip(r: Reader, n: int): Reader
    requires r.pos + n >= 0
  {
    if r.overflow || r.pos + n > |r.s| then r.(overflow := true) else r.(pos := r.pos + n)
  }

  ghost function Left(r: Reader): int
    requires Sound(r)
  {
    if r.overflow then -1 else |r.s| - r.pos
  }

  // Reading n bits is looking at them and then moving by n.
  lemma PeekThenAdvance(r: Reader, n: nat)
    requires Sound(r)
    ensures var (v, r') := Take(r, n);
            Skip(r.(overflow := r'.overflow), n) == r' && Sound(r')
  {
  }

  // Once set, the overflow flag stays: every later number is zero and the position does not move.
  lemma {:induction false} OverflowIsSticky(r: Reader, widths: seq<nat>)
    requires r.overflow
    ensures TakeAll(r, widths).1 == r && forall v :: v in TakeAll(r, widths).0 ==> v == 0
  {
    if widths != [] {
      OverflowIsSticky(r, widths[..|widths| - 1]);
    }
  }

  // A number to be packed and the number of bits it takes.
  datatype Field = Field(value: nat, width: nat)

  ghost function FieldBits(fs: seq<Field>): seq<bool> {
    if fs == [] then [] else FieldBits(fs[..|fs| - 1]) + ToBits(fs[|fs| - 1].value, fs[|fs| - 1].width)
  }

  ghost predicate Fit(fs: seq<Field>) {
    forall i :: 0 <= i < |fs| ==> fs[i].value < Pow2(fs[i].width)
  }

  ghost function Values(fs: seq<Field>): seq<nat> {
    seq(|fs|, i requires 0 <= i < |fs| => fs[i].value)
  }

  ghost function Widths(fs: seq<Field>): seq<nat> {
    seq(|fs|, i requires 0 <= i < |fs| => fs[i].width)
  }

  // The numbers that the given widths delimit.
  ghost function TakeAll(r: Reader, widths: seq<nat>): (p: (seq<nat>, Reader))
    ensures p.1.s == r.s && p.1.pos >= r.pos && (Sound(r) ==> Sound(p.1))
  {
    if widths == [] then ([], r)
    else
      var (vs, r') := TakeAll(r, widths[..|widths| - 1]);
      var (v, r'') := Take(r', widths[|widths| - 1]);
      (vs + [v], r'')
  }

  ghost function Total(widths: seq<nat>): nat {
    if widths == [] then 0 else Total(widths[..|widths| - 1]) + widths[|widths| - 1]
  }

  // A reader that stands at the bits t and has more to come.
  ghost predicate Ahead(r: Reader, t: seq<bool>) {
    !r.overflow && r.pos + |t| <= |r.s| && r.s[r.pos..r.pos + |t|] == t
  }

  lemma AheadSplit(r: Reader, t: seq<bool>, u: seq<bool>)
    requires Ahead(r, t + u)
    ensures Ahead(r, t) && Ahead(r.(pos := r.pos + |t|), u)
  {
    assert r.s[r.pos..r.pos + |t + u|][..|t|] == t;
    assert r.s[r.pos..r.pos + |t + u|][|t|..] == u;
  }

  lemma TakeAhead(r: Reader, v: nat, w: nat)
    requires Ahead(r, ToBits(v, w)) && v < Pow2(w)
    ensures Take(r, w) == (v, r.(pos := r.pos + w))
  {
    ValueOfBits(v, w);
  }

  lemma TakeOneMore(r: Reader, ws: seq<nat>, w: nat)
    ensures TakeAll(r, ws + [w])
         == (TakeAll(r, ws).0 + [Take(TakeAll(r, ws).1, w).0], Take(TakeAll(r, ws).1, w).1)
  {
    assert (ws + [w])[..|ws|] == ws;
  }

  lemma TakeFirst(r: Reader, w: nat)
    ensures TakeAll(r, [w]) == ([Take(r, w).0], Take(r, w).1)
  {
    TakeOneMore(r, [], w);
    assert [] + [w] == [w] && TakeAll(r, []) == ([], r);
    assert [] + [Take(r, w).0] == [Take(r, w).0];
  }

  lemma NothingToTake(r: Reader)
    ensures TakeAll(r, []) == ([], r) && FieldBits([]) == []
  {
  }

  lemma LastField(fs: seq<Field>)
    requires fs != []
    ensures FieldBits(fs) == FieldBits(fs[..|fs| - 1]) + ToBits(fs[|fs| - 1].value, fs[|fs| - 1].width)
  {
  }

  // Reading with the widths that were packed gives the numbers that were packed.
  lemma {:induction false} TakeAllAhead(r: Reader, fs: seq<Field>)
    requires Ahead(r, FieldBits(fs)) && Fit(fs)
    ensures TakeAll(r, Widths(fs)) == (Values(fs), r.(pos := r.pos + |FieldBits(fs)|))
  {
    hide Take, TakeAll, ToBits, FromBits, FieldBits, Ahead;
    if fs == [] {
      NothingToTake(r);
    } else {
      var front, last := fs[..|fs| - 1], fs[|fs| - 1];
      LastField(fs);
      AheadSplit(r, FieldBits(front), ToBits(last.value, last.width));
      TakeAllAhead(r, front);
      TakeAhead(r.(pos := r.pos + |FieldBits(front)|), last.value, last.width);
      assert Widths(fs) == Widths(front) + [last.width];
      assert Values(fs) == Values(front) + [last.value];
      TakeOneMore(r, Widths(front), last.width);
    }
  }

  lemma {:induction false} FieldBitsLength(fs: seq<Field>)
    ensures |FieldBits(fs)| == Total(Widths(fs))
  {
    if fs != [] {
      FieldBitsLength(fs[..|fs| - 1]);
      assert Widths(fs)[..|fs| - 1] == Widths(fs[..|fs| - 1]);
    }
  }

  lemma {:induction false} FieldBitsConcat(a: seq<Field>, b: seq<Field>)
    ensures FieldBits(a + b) == FieldBits(a) + FieldBits(b)
  {
    if b == [] {
      assert a + b == a;
    } else {
      var front, last := b[..|b| - 1], ToBits(b[|b| - 1].value, b[|b| - 1].width);
      FieldBitsConcat(a, front);
      assert (a + b)[..|a + b| - 1] == a + front;
      assert FieldBits(a + b) == FieldBits(a + front) + last;
      assert FieldBits(b) == FieldBits(front) + last;
      assert (FieldBits(a) + FieldBits(front)) + last == FieldBits(a) + (FieldBits(front) + last);
    }
  }

  lemma {:induction false} TakeAllConcat(r: Reader, a: seq<nat>, b: seq<nat>)
    ensures TakeAll(r, a + b) == (TakeAll(r, a).0 + TakeAll(TakeAll(r, a).1, b).0, TakeAll(TakeAll(r, a).1, b).1)
  {
    var (x, r') := TakeAll(r, a);
    if b == [] {
      assert a + b == a && TakeAll(r', b).0 == [] && x + [] == x;
    } else {
      var front, w := b[..|b| - 1], b[|b| - 1];
      TakeAllConcat(r, a, front);
      assert a + b == (a + front) + [w] && b == front + [w];
      TakeOneMore(r, a + front, w);
      TakeOneMore(r', front, w);
      var (y, r'') := TakeAll(r', front);
      var (v, r3) := Take(r'', w);
      assert x + (y + [v]) == (x + y) + [v];
    }
  }
}
