/** The bit buffer of bits.c: a growable byte array with a write cursor that doubles as a read cursor. */
module Bits {
  import opened Arith
  import opened BitString
  import opened BitReader

  const MAX_CHARS_PER_FRAME := 2000

  // The unsigned int that data converts to.
  function Unsigned(data: int): nat { data % 0x1_0000_0000 }

  // n bits read back as a two's complement number.
  function Signed(d: nat, n: nat): int
    requires n > 0
  {
    if d >= Pow2(n - 1) then d - Pow2(n) else d
  }

  function Ones(n: nat): seq<bool> { seq(n, _ => true) }

  // A zero and then ones, up to the next byte boundary.
  function Terminator(bitPtr: nat): (s: seq<bool>)
    requires bitPtr < 8
    ensures |s| == if bitPtr == 0 then 0 else 8 - bitPtr
  {
    if bitPtr == 0 then [] else [false] + Ones(7 - bitPtr)
  }

  predicate ClearFrom(b: bv8, k: nat)
    requires k < 8
  {
    forall j :: k <= j < 8 ==> !BitOf(b, j)
  }

  class SpeexBits {
    var chars: array<bv8>
    var nbBits: nat
    var charPtr: nat
    var bitPtr: nat
    var overflow: bool
    const owner: bool

    ghost predicate Valid()
      reads this
    {
      && chars.Length > 0 && nbBits <= 8 * chars.Length
      && bitPtr < 8 && Cursor() <= nbBits
    }

    // The write cursor is at the end, and the bits after it are clear.
    ghost predicate Writing()
      reads this, chars
    {
      && Valid() && Cursor() == nbBits && charPtr < chars.Length
      && ClearFrom(chars[charPtr], bitPtr)
    }

    function Cursor(): nat
      reads this
    {
      8 * charPtr + bitPtr
    }

    ghost function Contents(): (s: seq<bool>)
      requires Valid()
      reads this, chars
    {
      BitsOf(chars[..], nbBits)
    }

    // The bits that are left to read.
    ghost function Unread(): (s: seq<bool>)
      requires Valid()
      reads this, chars
    {
      Contents()[Cursor()..]
    }

    // The buffer as its readers see it.
    ghost function View(): (r: Reader)
      requires Valid()
      reads this, chars
      ensures Sound(r)
    {
      Reader(Contents(), Cursor(), overflow)
    }

    // The bounds test of speex_bits_pack.
    predicate Room(n: nat)
      reads this
    {
      charPtr + (n + bitPtr) / 8 < chars.Length
    }

    constructor Init()
      ensures Writing() && Contents() == [] && owner && !overflow && fresh(chars)
    {
      chars := new bv8[MAX_CHARS_PER_FRAME];
      owner := true;
      nbBits, charPtr, bitPtr, overflow := 0, 0, 0, false;
      new;
      chars[0] := 0;
      ZeroIsClear(0);
    }

    constructor InitBuffer(buff: array<bv8>)
      requires buff.Length > 0
      modifies buff
      ensures Writing() && Contents() == [] && !owner && !overflow && chars == buff
    {
      chars := buff;
      owner := false;
      nbBits, charPtr, bitPtr, overflow := 0, 0, 0, false;
      new;
      chars[0] := 0;
      ZeroIsClear(0);
    }

    method Reset()
      requires chars.Length > 0
      modifies this, chars
      ensures Writing() && Contents() == [] && !overflow && chars == old(chars)
    {
      chars[0] := 0;
      nbBits, charPtr, bitPtr, overflow := 0, 0, 0, false;
      ZeroIsClear(0);
    }

    method Rewind()
      requires Valid()
      modifies this
      ensures Valid() && Cursor() == 0 && !overflow
      ensures chars == old(chars) && nbBits == old(nbBits) && Contents() == old(Contents())
    {
      charPtr, bitPtr, overflow := 0, 0, false;
    }

    // The realloc of a buffer that is owned: the old bytes move along.
    method Grow(size: nat)
      requires Valid() && size >= chars.Length
      modifies this`chars
      ensures Valid() && fresh(chars) && chars.Length == size && Contents() == old(Contents())
      ensures old(Writing()) ==> Writing()
    {
      var bigger := new bv8[size];
      forall i | 0 <= i < chars.Length {
        bigger[i] := chars[i];
      }
      BitsLocal(bigger[..], chars[..], nbBits);
      chars := bigger;
    }

    // The body of the loop of speex_bits_pack.
    method PackBit(bit: bool)
      requires Writing() && Room(1)
      modifies this, chars
      ensures Writing() && Contents() == old(Contents()) + [bit]
      ensures chars == old(chars) && overflow == old(overflow) && nbBits == old(nbBits) + 1
    {
      hide BitsOf, ClearFrom;
      ghost var was := chars[..];
      if bit {
        chars[charPtr] := chars[charPtr] | Mask(bitPtr);
      }
      ghost var mid := chars[..];
      BitAdded(was, mid, charPtr, bitPtr, nbBits, bit);
      bitPtr := bitPtr + 1;
      if bitPtr == 8 {
        bitPtr := 0;
        charPtr := charPtr + 1;
        chars[charPtr] := 0;
        ZeroIsClear(0);
      }
      nbBits := nbBits + 1;
      BitsLocal(chars[..], mid, nbBits);
    }

    // The loop of speex_bits_pack.
    method PackLoop(d: nat, n: nat)
      requires Writing() && Room(n)
      modifies this, chars
      ensures Writing() && Contents() == old(Contents()) + ToBits(d, n)
      ensures chars == old(chars) && overflow == old(overflow)
    {
      hide BitsOf, ClearFrom, ToBits, Shifted;
      ghost var was, c := Contents(), chars;
      var left: nat := n;
      FirstShift(d, n);
      while left > 0
        invariant left <= n && Writing() && chars == c && overflow == old(overflow) && Room(left)
        invariant Contents() == was + ToBits(Shifted(d, left), n - left)
      {
        NextBit(d, n, left);
        PackBit(Shifted(d, left - 1) % 2 == 1);
        left := left - 1;
      }
    }

    // canGrow is the outcome of the reallocation.
    method Pack(data: int, n: nat, canGrow: bool)
      requires Writing() && n <= 32
      modifies this, chars
      ensures Writing() && overflow == old(overflow)
      ensures var packed := old(Room(n)) || (owner && canGrow);
              Contents() == old(Contents()) + if packed then ToBits(Unsigned(data), n) else []
      ensures chars == old(chars) || fresh(chars)
      ensures old(Room(n)) || !owner || !canGrow ==> chars == old(chars)
    {
      hide BitsOf, ClearFrom, ToBits, BitOf;
      if !Room(n) {
        if !owner || !canGrow {
          return;
        }
        Grow((chars.Length + 5) * 3 / 2);
      }
      PackLoop(Unsigned(data), n);
    }

    // One step of the loops of the unpack and peek functions.
    function BitAt(c: nat, b: nat): bool
      requires c < chars.Length && b < 8
      reads this, chars
    {
      BitOf(chars[c], b)
    }

    // The loop that unpack and peek share: n bits from the cursor on, and where it ends.
    method ReadLoop(n: nat) returns (d: nat, c: nat, b: nat)
      requires Valid() && Cursor() + n <= nbBits
      ensures d == FromBits(Contents()[Cursor()..Cursor() + n])
      ensures b < 8 && 8 * c + b == Cursor() + n
    {
      hide BitOf, BitsOf, FromBits;
      d, c, b := 0, charPtr, bitPtr;
      ghost var start, all := Cursor(), Contents();
      EmptyValue(all, start);
      for i := 0 to n
        invariant b < 8 && 8 * c + b == start + i
        invariant d == FromBits(all[start..start + i])
      {
        BitAtCursor(chars[..], nbBits, c, b);
        NextValue(all, start, start + i);
        d := 2 * d + BitValue(BitAt(c, b));
        b := b + 1;
        if b == 8 {
          b := 0;
          c := c + 1;
        }
      }
    }

    method UnpackUnsigned(n: nat) returns (d: nat)
      requires Valid() && n <= 32
      modifies this`charPtr, this`bitPtr, this`overflow
      ensures Valid() && (d, View()) == Take(old(View()), n)
    {
      hide FromBits, BitsOf;
      if Cursor() + n > nbBits { overflow := true; }
      if overflow { return 0; }
      d, charPtr, bitPtr := ReadLoop(n);
    }

    // Undefined in the source for n == 0 and n == 32, where it shifts by the width of the type or by -1.
    method UnpackSigned(n: nat) returns (v: int)
      requires Valid() && 0 < n < 32
      modifies this`charPtr, this`bitPtr, this`overflow
      ensures Valid() && (v, View()) == (Signed(Take(old(View()), n).0, n), Take(old(View()), n).1)
    {
      var d := UnpackUnsigned(n);
      v := if d / Pow2(n - 1) != 0 then d - Pow2(n) else d;
      TopBit(d, n);
    }

    method PeekUnsigned(n: nat) returns (d: nat)
      requires Valid() && n <= 32
      modifies this`overflow
      ensures Valid() && d == Take(old(View()), n).0
      ensures View() == old(View()).(overflow := Take(old(View()), n).1.overflow)
    {
      hide FromBits, BitsOf;
      if Cursor() + n > nbBits { overflow := true; }
      if overflow { return 0; }
      var c, b;
      d, c, b := ReadLoop(n);
    }

    method Peek() returns (d: nat)
      requires Valid()
      modifies this`overflow
      ensures Valid() && d == Take(old(View()), 1).0
      ensures View() == old(View()).(overflow := Take(old(View()), 1).1.overflow)
    {
      if Cursor() + 1 > nbBits { overflow := true; }
      if overflow { return 0; }
      BitAtCursor(chars[..], nbBits, charPtr, bitPtr);
      d := BitValue(BitAt(charPtr, bitPtr));
      EmptyValue(Contents(), Cursor());
      NextValue(Contents(), Cursor(), Cursor());
    }

    // A negative n moves the cursor back, as the shift and the mask of the source do.
    method Advance(n: int)
      requires Valid() && Cursor() + n >= 0
      modifies this`charPtr, this`bitPtr, this`overflow
      ensures Valid() && View() == Skip(old(View()), n)
    {
      if Cursor() + n > nbBits || overflow {
        overflow := true;
        return;
      }
      var moved: int := charPtr + (bitPtr + n) / 8;
      charPtr := moved;
      bitPtr := (bitPtr + n) % 8;
    }

    method Remaining() returns (r: int)
      requires Valid()
      ensures r == Left(View())
    {
      r := if overflow then -1 else nbBits - Cursor();
    }

    method Nbytes() returns (r: nat)
      requires Valid()
      ensures r == (|Contents()| + 7) / 8
    {
      r := (nbBits + 7) / 8;
    }

    // The byte behind the cursor is there, or can be had, if it will be needed.
    predicate CanPad(canGrow: bool)
      reads this
    {
      bitPtr == 0 || charPtr + 1 < chars.Length || (owner && canGrow)
    }

    // The loop of speex_bits_insert_terminator.
    method PadOnes(canGrow: bool)
      requires Writing() && CanPad(canGrow)
      modifies this, chars
      ensures Writing() && overflow == old(overflow) && bitPtr == 0
      ensures Contents() == old(Contents()) + Ones(if old(bitPtr) == 0 then 0 else 8 - old(bitPtr))
      ensures chars == old(chars) || fresh(chars)
    {
      hide BitsOf, ClearFrom, ToBits, BitOf, Ones;
      ghost var was, k := Contents(), 0;
      OneBit();
      NoOnes();
      while bitPtr != 0
        invariant Writing() && overflow == old(overflow)
        invariant CanPad(canGrow)
        invariant k == if bitPtr == 0 && old(bitPtr) != 0 then 8 - old(bitPtr) else bitPtr - old(bitPtr)
        invariant Contents() == was + Ones(k)
        invariant chars == old(chars) || fresh(chars)
        decreases if bitPtr == 0 then 0 else 8 - bitPtr
      {
        ghost var c, b := charPtr, bitPtr;
        Pack(1, 1, canGrow);
        OneMore(was, k);
        CursorStep(c, b, charPtr, bitPtr);
        k := k + 1;
      }
    }

    // InsertTerminator with at most limit passes of its loop, whether it can end or not. It ends, for
    // limits that are large enough, if and only if CanPad held: without it Pack refuses the bit that
    // would fill the last byte, and every further pass leaves everything as it is.
    method InsertTerminatorWithin(limit: nat, canGrow: bool) returns (passes: nat)
      requires Writing()
      modifies this, chars
      ensures Writing() && overflow == old(overflow)
      ensures bitPtr == 0 <==> old(bitPtr) == 0 || (old(CanPad(canGrow)) && limit >= 7 - old(bitPtr))
      ensures bitPtr != 0 ==> passes == limit
      ensures old(CanPad(canGrow)) || bitPtr == if old(bitPtr) + 1 + limit < 7 then old(bitPtr) + 1 + limit else 7
      ensures chars == old(chars) || fresh(chars)
    {
      hide BitsOf, ClearFrom, ToBits, BitOf;
      ghost var pad, start, c := CanPad(canGrow), bitPtr, charPtr;
      passes := 0;
      if bitPtr != 0 {
        PadBit(0, canGrow);
        while bitPtr != 0 && passes < limit
          invariant Writing() && overflow == old(overflow) && passes <= limit && (chars == old(chars) || fresh(chars))
          invariant bitPtr != 0 ==>
                    charPtr == c && CanPad(canGrow) == pad
                    && bitPtr == if pad || start + 1 + passes < 7 then start + 1 + passes else 7
          invariant bitPtr == 0 ==> pad && passes == 7 - start
          decreases limit - passes
        {
          PadBit(1, canGrow);
          passes := passes + 1;
        }
      }
    }

    // One padding bit. The one that would fill the last byte is refused without CanPad.
    method PadBit(bit: int, canGrow: bool)
      requires Writing() && bitPtr != 0
      modifies this, chars
      ensures Writing() && overflow == old(overflow) && (chars == old(chars) || fresh(chars))
      ensures bitPtr == if old(bitPtr) < 7 then old(bitPtr) + 1 else if old(CanPad(canGrow)) then 0 else 7
      ensures bitPtr != 0 ==> charPtr == old(charPtr) && CanPad(canGrow) == old(CanPad(canGrow))
      ensures Contents() == old(Contents()) + if old(bitPtr) < 7 || old(CanPad(canGrow)) then ToBits(Unsigned(bit), 1)
              else []
    {
      hide BitsOf, ClearFrom, ToBits, BitOf;
      ghost var c, b, n, room := charPtr, bitPtr, nbBits, Room(1) || (owner && canGrow);
      Pack(bit, 1, canGrow);
      assert |Contents()| == nbBits == n + if room then 1 else 0;
      if room { CursorStep(c, b, charPtr, bitPtr); } else { assert 8 * charPtr + bitPtr == 8 * c + b; }
    }

    // Without CanPad the source does not come to an end, as InsertTerminatorWithin shows.
    method InsertTerminator(canGrow: bool)
      requires Writing() && CanPad(canGrow)
      modifies this, chars
      ensures Writing() && overflow == old(overflow) && bitPtr == 0
      ensures Contents() == old(Contents()) + Terminator(old(bitPtr))
      ensures chars == old(chars) || fresh(chars)
    {
      hide BitsOf, ClearFrom, ToBits, BitOf, Ones;
      ghost var was, k := Contents(), bitPtr;
      OneBit();
      NoOnes();
      if bitPtr != 0 {
        Pack(0, 1, canGrow);
        assert Contents() == was + [false];
        assert bitPtr == if k == 7 then 0 else k + 1;
        PadOnes(canGrow);
        assert Contents() == was + [false] + Ones(7 - k);
        assert Contents() == was + ([false] + Ones(7 - k));
      }
    }

    // The copy loop of the two write functions.
    method CopyOut(dest: array<bv8>, n: nat)
      requires n <= chars.Length && n <= dest.Length && dest != chars
      modifies dest
      ensures dest[..n] == chars[..n]
    {
      for i := 0 to n
        invariant dest[..i] == chars[..i]
      {
        dest[i] := chars[i];
      }
    }

    // The terminator bits stay behind in the last byte, so that packing cannot go on
    // unless they were clear anyway.
    method Write(dest: array<bv8>, max: nat, canGrow: bool) returns (n: nat)
      requires Writing() && max <= dest.Length && dest != chars
      requires CanPad(canGrow)
      modifies this, chars, dest
      ensures Valid() && Contents() == old(Contents()) && overflow == old(overflow)
      ensures nbBits == old(nbBits) && charPtr == old(charPtr) && bitPtr == old(bitPtr)
      ensures n == if max <= (nbBits + 7) / 8 then max else (nbBits + 7) / 8
      ensures BitsOf(dest[..n], 8 * n) == (Contents() + Terminator(bitPtr))[..8 * n]
      ensures Writing() <==> bitPtr == 0 || bitPtr == 7
      ensures chars == old(chars) || fresh(chars)
    {
      hide BitsOf, ClearFrom, Terminator;
      ghost var was := Contents();
      var savedBit, savedChar, savedBits := bitPtr, charPtr, nbBits;
      InsertTerminator(canGrow);
      ghost var padded := Contents();
      Terminated(chars[..], savedChar, savedBit, savedBits, nbBits, was);
      bitPtr, charPtr, nbBits := savedBit, savedChar, savedBits;
      n := if max > (nbBits + 7) / 8 then (nbBits + 7) / 8 else max;
      CopyOut(dest, n);
      BitsLocal(dest[..n], chars[..], 8 * n);
      BitsPrefix(chars[..], |padded|, 8 * n);
    }

    // When dest is too small for all whole bytes, the ones in between are lost.
    method WriteWholeBytes(dest: array<bv8>, max: nat) returns (n: nat)
      requires Writing() && max <= dest.Length && dest != chars
      modifies this, chars, dest
      ensures Valid() && chars == old(chars) && overflow == old(overflow)
      ensures n == if max <= old(nbBits) / 8 then max else old(nbBits) / 8
      ensures BitsOf(dest[..n], 8 * n) == old(Contents())[..8 * n]
      ensures Contents() == old(Contents())[8 * n..8 * n + old(bitPtr)] && Cursor() == nbBits == old(bitPtr)
      ensures n == old(nbBits) / 8 ==> Writing()
    {
      hide BitsOf, ClearFrom;
      ghost var was, before, total := Contents(), chars[..], nbBits;
      n := if max > nbBits / 8 then nbBits / 8 else max;
      CopyOut(dest, n);
      BitsLocal(dest[..n], chars[..], 8 * n);
      BitsPrefix(chars[..], nbBits, 8 * n);
      if bitPtr > 0 {
        chars[0] := chars[n];
      } else {
        chars[0] := 0;
      }
      ZeroIsClear(0);
      charPtr := 0;
      nbBits := nbBits % 8;
      FirstByte(chars[..], before, n, bitPtr, total);
    }

    // The copy loop of the two read functions: src lands at byte pos.
    method CopyIn(src: array<bv8>, n: nat, pos: nat)
      requires n <= src.Length && pos + n <= chars.Length && src != chars
      modifies chars
      ensures chars[..] == old(chars[..pos]) + src[..n] + old(chars[pos + n..])
    {
      for i := 0 to n
        invariant chars[..] == old(chars[..pos]) + src[..i] + old(chars[pos + i..])
      {
        chars[pos + i] := src[i];
      }
    }

    // A buffer that cannot take all of src takes what fits.
    method ReadFrom(src: array<bv8>, len: nat, canGrow: bool)
      requires len <= src.Length && src != chars && chars.Length > 0
      modifies this, chars
      ensures Valid() && Cursor() == 0 && !overflow
      ensures var k := if len <= old(chars.Length) || (owner && canGrow) then len else old(chars.Length);
              Contents() == BitsOf(src[..k], 8 * k)
      ensures chars == old(chars) || fresh(chars)
    {
      hide BitsOf;
      var k := len;
      if k > chars.Length {
        if owner && canGrow {
          chars := new bv8[k];
        } else {
          k := chars.Length;
        }
      }
      CopyIn(src, k, 0);
      nbBits, charPtr, bitPtr, overflow := 8 * k, 0, 0, false;
      BitsLocal(chars[..], src[..k], 8 * k);
    }

    // The bytes before the cursor make room for new ones.
    method Flush()
      requires Valid()
      modifies this`nbBits, this`charPtr, chars
      ensures Valid() && charPtr == 0 && nbBits == old(nbBits) - 8 * old(charPtr)
      ensures Contents() == old(Contents())[8 * old(charPtr)..]
    {
      hide BitsOf, BitOf;
      ghost var before, c, all := chars[..], charPtr, nbBits;
      if charPtr > 0 {
        forall i | 0 <= i < (nbBits + 7) / 8 - charPtr {
          chars[i] := chars[charPtr + i];
        }
      }
      nbBits := nbBits - 8 * charPtr;
      charPtr := 0;
      BytesMoved(before, chars[..], c, all);
    }

    // A buffer that is not owned and too small is not part of this model: the source then copies as many
    // bytes as the whole buffer has behind the unread ones, and so past its end.
    method MakeRoom(len: nat)
      requires Valid() && (owner || (nbBits + 7) / 8 + len <= chars.Length)
      modifies this, chars
      ensures Valid() && overflow == old(overflow) && charPtr == 0 && bitPtr == old(bitPtr)
      ensures nbBits == old(nbBits) - 8 * old(charPtr) && (nbBits + 7) / 8 + len <= chars.Length
      ensures Contents() == old(Contents())[8 * old(charPtr)..]
      ensures chars == old(chars) || fresh(chars)
    {
      hide BitsOf, BitOf;
      if (nbBits + 7) / 8 + len > chars.Length {
        Grow(nbBits / 8 + len + 1);
      }
      Flush();
    }

    // What the whole bytes hold that were not read yet stays, and src follows it. Bits beyond them are
    // overwritten, and as many are left at the end.
    method ReadWholeBytes(src: array<bv8>, len: nat)
      requires Valid() && len <= src.Length && src != chars
      requires owner || (nbBits + 7) / 8 + len <= chars.Length
      modifies this, chars
      ensures Valid() && overflow == old(overflow) && charPtr == 0 && bitPtr == old(bitPtr)
      ensures nbBits == old(nbBits) - 8 * old(charPtr) + 8 * len
      ensures WholeFrom(old(Contents()), old(charPtr)) + BitsOf(src[..len], 8 * len) <= Contents()
      ensures old(nbBits) % 8 == 0 ==> Unread() == old(Unread()) + BitsOf(src[..len], 8 * len)
      ensures chars == old(chars) || fresh(chars)
    {
      hide BitsOf, BitOf;
      ghost var c, all := charPtr, Contents();
      MakeRoom(len);
      ghost var before, nb := chars[..], nbBits;
      CopyIn(src, len, nbBits / 8);
      nbBits := nbBits + 8 * len;
      BytesRead(all, before, chars[..], src[..len], c, nb, bitPtr);
    }
  }

  // The bits of the whole bytes from byte c on.
  ghost function WholeFrom(all: seq<bool>, c: nat): seq<bool>
    requires 8 * c <= |all|
  {
    all[8 * c..8 * (|all| / 8)]
  }

  lemma BytesRead(all: seq<bool>, before: seq<bv8>, now: seq<bv8>, src: seq<bv8>, c: nat, nb: nat, b: nat)
    requires |all| == 8 * c + nb && b < 8 && b <= nb && (nb + 7) / 8 + |src| <= |before|
    requires BitsOf(before, nb) == all[8 * c..]
    requires now == before[..nb / 8] + src + before[nb / 8 + |src|..]
    ensures nb + 8 * |src| <= 8 * |now|
    ensures WholeFrom(all, c) + BitsOf(src, 8 * |src|) <= BitsOf(now, nb + 8 * |src|)
    ensures |all| % 8 == 0 ==> BitsOf(now, nb + 8 * |src|)[b..] == all[8 * c + b..] + BitsOf(src, 8 * |src|)
  {
    hide BitsOf;
    var pos := nb / 8;
    BytesAppended(before, now, src, pos);
    BitsPrefix(before, nb, 8 * pos);
    SliceOfRest(all, 8 * c, 8 * pos);
    BitsPrefix(now, nb + 8 * |src|, 8 * (pos + |src|));
    WholeBytes(all, c, pos, b, BitsOf(src, 8 * |src|), BitsOf(now, nb + 8 * |src|));
  }

  lemma SliceOfRest(s: seq<bool>, a: nat, n: nat)
    requires a + n <= |s|
    ensures s[a..][..n] == s[a..a + n]
  {
  }

  // With whole bytes only, nothing is lost.
  lemma WholeBytes(all: seq<bool>, c: nat, pos: nat, b: nat, added: seq<bool>, now: seq<bool>)
    requires b < 8 && 8 * (c + pos) <= |all| && 8 * pos + |added| <= |now| && 8 * c + b <= |all|
    requires now[..8 * pos + |added|] == all[8 * c..8 * (c + pos)] + added
    ensures |all| == 8 * (c + pos) && |now| == 8 * pos + |added| ==> now[b..] == all[8 * c + b..] + added
  {
    if |all| == 8 * (c + pos) && |now| == 8 * pos + |added| {
      assert now == all[8 * c..] + added;
      assert (all[8 * c..] + added)[b..] == all[8 * c..][b..] + added;
      assert all[8 * c..][b..] == all[8 * c + b..];
    }
  }

  lemma CursorStep(c: nat, b: nat, c': nat, b': nat)
    requires b < 8 && b' < 8 && 8 * c' + b' == 8 * c + b + 1
    ensures b' == (if b == 7 then 0 else b + 1) && c' == if b == 7 then c + 1 else c
  {
  }

  lemma NoOnes()
    ensures Ones(0) == []
  {
  }

  lemma OneMore(s: seq<bool>, k: nat)
    ensures s + Ones(k) + [true] == s + Ones(k + 1)
  {
  }

  lemma OneBit()
    ensures ToBits(Unsigned(0), 1) == [false] && ToBits(Unsigned(1), 1) == [true]
  {
  }

  lemma EmptyValue(all: seq<bool>, start: nat)
    requires start <= |all|
    ensures FromBits(all[start..start]) == 0
  {
  }

  lemma NextValue(all: seq<bool>, start: nat, k: nat)
    requires start <= k < |all|
    ensures FromBits(all[start..k + 1]) == 2 * FromBits(all[start..k]) + BitValue(all[k])
  {
    assert all[start..k + 1] == all[start..k] + [all[k]];
    FromAppend(all[start..k], all[k]);
  }

  lemma BitAtCursor(bytes: seq<bv8>, n: nat, c: nat, b: nat)
    requires b < 8 && 8 * c + b < n <= 8 * |bytes|
    ensures c < |bytes| && BitsOf(bytes, n)[8 * c + b] == BitOf(bytes[c], b)
  {
    assert (8 * c + b) / 8 == c && (8 * c + b) % 8 == b;
  }

  lemma TopBit(d: nat, n: nat)
    requires 0 < n && d < Pow2(n)
    ensures d / Pow2(n - 1) != 0 <==> d >= Pow2(n - 1)
  {
    var p := Pow2(n - 1);
    DivModUnique(d, if d >= p then 1 else 0, if d >= p then d - p else d, p);
  }

  lemma ZeroIsClear(k: nat)
    requires k < 8
    ensures ClearFrom(0, k)
  {
    forall j | k <= j < 8 ensures !BitOf(0, j) { ZeroByte(j); }
  }

  // or-ing a bit into a clear position appends it.
  lemma BitAdded(was: seq<bv8>, now: seq<bv8>, c: nat, k: nat, n: nat, bit: bool)
    requires k < 8 && n == 8 * c + k && c < |was| && ClearFrom(was[c], k)
    requires now == if bit then was[c := was[c] | Mask(k)] else was
    ensures BitsOf(now, n + 1) == BitsOf(was, n) + [bit]
    ensures k < 7 ==> ClearFrom(now[c], k + 1)
  {
    forall j | 0 <= j < 8 ensures BitOf(now[c], j) == (if j == k then bit else BitOf(was[c], j)) {
      SetBit(was[c], k, j);
    }
  }

  // What the padded buffer says about its last byte.
  lemma Terminated(bytes: seq<bv8>, c: nat, k: nat, n: nat, padded: nat, was: seq<bool>)
    requires k < 8 && n == 8 * c + k && c < |bytes| && padded == n + (if k == 0 then 0 else 8 - k) <= 8 * |bytes|
    requires |was| == n && BitsOf(bytes, padded) == was + Terminator(k)
    requires k == 0 ==> ClearFrom(bytes[c], 0)
    ensures BitsOf(bytes, n) == was
    ensures ClearFrom(bytes[c], k) <==> k == 0 || k == 7
  {
    BitsPrefix(bytes, padded, n);
    if k > 0 {
      BitAtCursor(bytes, padded, c, k);
      if k < 7 { BitAtCursor(bytes, padded, c, k + 1); }
    }
  }

  lemma FirstByte(now: seq<bv8>, before: seq<bv8>, n: nat, k: nat, total: nat)
    requires 8 * n + k <= total <= 8 * |before| && k < 8 && |now| == |before| > 0
    requires k > 0 ==> now[0] == before[n]
    ensures BitsOf(now, k) == BitsOf(before, total)[8 * n..8 * n + k]
  {
  }

  lemma BytesMoved(before: seq<bv8>, now: seq<bv8>, c: nat, total: nat)
    requires 8 * c <= total <= 8 * |before| && |now| == |before|
    requires forall i :: 0 <= i < (total + 7) / 8 - c ==> now[i] == before[c + i]
    ensures BitsOf(now, total - 8 * c) == BitsOf(before, total)[8 * c..]
  {
    var a, b := BitsOf(now, total - 8 * c), BitsOf(before, total)[8 * c..];
    forall i | 0 <= i < |a| ensures a[i] == b[i] {
      MovedBit(before, now, c, i / 8, i % 8, total);
    }
  }

  lemma MovedBit(before: seq<bv8>, now: seq<bv8>, c: nat, j: nat, k: nat, total: nat)
    requires k < 8 && 8 * (c + j) + k < total <= 8 * |before| && |now| == |before|
    requires j < |now| && c + j < |before| && now[j] == before[c + j]
    ensures BitsOf(now, total - 8 * c)[8 * j + k] == BitsOf(before, total)[8 * (c + j) + k]
  {
    BitAtCursor(now, total - 8 * c, j, k);
    BitAtCursor(before, total, c + j, k);
  }

  lemma BytesAppended(before: seq<bv8>, now: seq<bv8>, src: seq<bv8>, pos: nat)
    requires pos <= |before| && |now| == |before| && pos + |src| <= |now|
    requires now == before[..pos] + src + before[pos + |src|..]
    ensures BitsOf(now, 8 * (pos + |src|)) == BitsOf(before, 8 * pos) + BitsOf(src, 8 * |src|)
  {
    var a, b := BitsOf(now, 8 * (pos + |src|)), BitsOf(before, 8 * pos) + BitsOf(src, 8 * |src|);
    forall i | 0 <= i < |a| ensures a[i] == b[i] {
      if i >= 8 * pos {
        assert (i - 8 * pos) / 8 == i / 8 - pos && (i - 8 * pos) % 8 == i % 8;
      }
    }
  }
}
