/** Bit strings, most significant bit first, and the bytes that hold them. */
module BitString {
  function Pow2(n: nat): (p: nat)
    ensures p > 0
  {
    if n == 0 then 1 else 2 * Pow2(n - 1)
  }

  // The low w bits of v.
  function ToBits(v: nat, w: nat): (s: seq<bool>)
    ensures |s| == w
  {
    if w == 0 then [] else ToBits(v / 2, w - 1) + [v % 2 == 1]
  }

  function BitValue(b: bool): nat { if b then 1 else 0 }

  function FromBits(s: seq<bool>): (v: nat)
    ensures v < Pow2(|s|)
  {
    if s == [] then 0 else 2 * FromBits(s[..|s| - 1]) + BitValue(s[|s| - 1])
  }

  lemma NoBits()
    ensures FromBits([]) == 0
  {
  }

  lemma FromAppend(s: seq<bool>, b: bool)
    ensures FromBits(s + [b]) == 2 * FromBits(s) + BitValue(b)
  {
    assert (s + [b])[..|s|] == s;
  }

  lemma {:induction false} ValueOfBits(v: nat, w: nat)
    requires v < Pow2(w)
    ensures FromBits(ToBits(v, w)) == v
  {
    hide FromBits;
    if w == 0 {
      NoBits();
    } else {
      ValueOfBits(v / 2, w - 1);
      FromAppend(ToBits(v / 2, w - 1), v % 2 == 1);
    }
  }

  lemma {:induction false} BitsOfValue(s: seq<bool>)
    ensures ToBits(FromBits(s), |s|) == s
  {
    if s != [] {
      BitsOfValue(s[..|s| - 1]);
    }
  }

  lemma {:induction false} LowBits(v: nat, w: nat, high: nat)
    ensures ToBits(v + high * Pow2(w), w) == ToBits(v, w)
  {
    if w > 0 {
      var h := high * Pow2(w - 1);
      assert high * Pow2(w) == 2 * h;
      LowBits(v / 2, w - 1, high);
      assert (v + 2 * h) / 2 == v / 2 + h && (v + 2 * h) % 2 == v % 2;
    }
  }

  // v >> k
  function Shifted(v: nat, k: nat): nat {
    if k == 0 then v else Shifted(v, k - 1) / 2
  }

  // Shifting by one place less reveals the next bit.
  lemma {:induction false} NextBit(v: nat, n: nat, k: nat)
    requires 0 < k <= n
    ensures ToBits(Shifted(v, k - 1), n - (k - 1)) == ToBits(Shifted(v, k), n - k) + [Shifted(v, k - 1) % 2 == 1]
  {
    assert Shifted(v, k) == Shifted(v, k - 1) / 2;
  }

  lemma {:induction false} FirstShift(v: nat, n: nat)
    ensures ToBits(Shifted(v, n), 0) == [] && Shifted(v, 0) == v
  {
  }

  // ---------- bytes ----------

  // 1 << (7 - k)
  function Mask(k: nat): bv8
    requires k < 8
  {
    if k == 0 then 0x80 else if k == 1 then 0x40 else if k == 2 then 0x20 else if k == 3 then 0x10
    else if k == 4 then 0x08 else if k == 5 then 0x04 else if k == 6 then 0x02 else 0x01
  }

  // (b >> (7 - k)) & 1
  function BitOf(b: bv8, k: nat): bool
    requires k < 8
  {
    b & Mask(k) != 0
  }

  lemma SetBit(b: bv8, k: nat, j: nat)
    requires k < 8 && j < 8
    ensures BitOf(b | Mask(k), j) == (j == k || BitOf(b, j))
  {
  }

  lemma ZeroByte(j: nat)
    requires j < 8
    ensures !BitOf(0, j)
  {
  }

  // The first n bits that the bytes hold.
  function BitsOf(bytes: seq<bv8>, n: nat): (s: seq<bool>)
    requires n <= 8 * |bytes|
    ensures |s| == n
  {
    seq(n, i requires 0 <= i < n => BitOf(bytes[i / 8], i % 8))
  }

  lemma BitsPrefix(bytes: seq<bv8>, n: nat, m: nat)
    requires m <= n <= 8 * |bytes|
    ensures BitsOf(bytes, m) == BitsOf(bytes, n)[..m]
  {
  }

  lemma BitsLocal(a: seq<bv8>, b: seq<bv8>, n: nat)
    requires n <= 8 * |a| && n <= 8 * |b|
    requires forall i :: 0 <= i < (n + 7) / 8 ==> a[i] == b[i]
    ensures BitsOf(a, n) == BitsOf(b, n)
  {
  }
}
