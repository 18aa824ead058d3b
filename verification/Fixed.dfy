/** The fixed-point macros of arch.h and fixed_generic.h, with the widths of the C types written out.
    Signed overflow of 32-bit sums wraps here. */
module Fixed {
  import opened Arith

  function Wrap16(x: int): (r: int)
    ensures -0x8000 <= r < 0x8000 && (-0x8000 <= x < 0x8000 ==> r == x)
  {
    (x + 0x8000) % 0x1_0000 - 0x8000
  }

  function Wrap32(x: int): (r: int)
    ensures -0x8000_0000 <= r < 0x8000_0000 && (-0x8000_0000 <= x < 0x8000_0000 ==> r == x)
  {
    (x + 0x8000_0000) % 0x1_0000_0000 - 0x8000_0000
  }

  function Add32(a: int, b: int): int { Wrap32(a + b) }

  function Sub32(a: int, b: int): int { Wrap32(a - b) }

  lemma WrapSum(a: int, b: int)
    ensures Add32(Wrap32(a), b) == Wrap32(a + b)
  {
  }

  function Neg32(a: int): int { Wrap32(-a) }

  function Mult16_16(a: int, b: int): int { Wrap16(a) * Wrap16(b) }

  function Mac16_16(c: int, a: int, b: int): int { Add32(c, Mult16_16(a, b)) }

  // MULT16_32_Q14 and MULT16_32_Q15
  function Mult16_32_Q14(a: int, b: int): int {
    Add32(Mult16_16(a, b / 0x4000), Mult16_16(a, b % 0x4000) / 0x4000)
  }

  function Mult16_32_Q15(a: int, b: int): int {
    Add32(Mult16_16(a, b / 0x8000), Mult16_16(a, b % 0x8000) / 0x8000)
  }

  // The two halves of a 16 by 32 bit product lose nothing but its fraction.
  lemma FloorQ15(a: int, b: int)
    requires -0x8000 <= a < 0x8000 && -0x4000_0000 <= b < 0x4000_0000
    ensures Mult16_32_Q15(a, b) == a * b / 0x8000
  {
    FloorHalves(a, b, 0x8000);
  }

  lemma FloorQ14(a: int, b: int)
    requires -0x8000 <= a < 0x8000 && -0x2000_0000 <= b < 0x2000_0000
    ensures Mult16_32_Q14(a, b) == a * b / 0x4000
  {
    FloorHalves(a, b, 0x4000);
  }

  lemma FloorHalves(a: int, b: int, n: int)
    requires n == 0x4000 || n == 0x8000
    requires -0x8000 <= a < 0x8000 && -0x8000 * n <= b < 0x8000 * n
    ensures Mult16_16(a, b / n) + Mult16_16(a, b % n) / n == a * b / n
    ensures -0x8000_0000 <= a * b / n < 0x8000_0000
  {
    var q, r := b / n, b % n;
    assert -0x8000 <= q < 0x8000 && b == q * n + r;
    Bounded(a, q);
    Bounded(a, r);
    Joined(a, b, q, r, n);
    hide Wrap16;
  }

  lemma Bounded(a: int, q: int)
    requires -0x8000 <= a < 0x8000 && -0x8000 <= q < 0x8000
    ensures -0x4000_0000 <= a * q <= 0x4000_0000 && Mult16_16(a, q) == a * q
  {
    var c := if q < 0 then -q else q;
    MulLe(-0x8000, a, c);
    MulLe(a, 0x8000, c);
    if q < 0 { Negated(a, c); }
    assert Wrap16(a) == a && Wrap16(q) == q;
    hide Wrap16;
  }

  lemma Negated(a: int, c: int)
    ensures a * -c == -(a * c)
  {
  }

  lemma Joined(a: int, b: int, q: int, r: int, n: int)
    requires n > 0 && b == q * n + r
    ensures a * b / n == a * q + a * r / n
  {
    Spread(a, q, r, n);
    Carried(a * b, a * q, a * r, n);
  }

  lemma Spread(a: int, q: int, r: int, n: int)
    ensures a * (q * n + r) == a * q * n + a * r
  {
  }

  lemma Carried(x: int, y: int, z: int, n: int)
    requires n > 0 && x == y * n + z
    ensures x / n == y + z / n
  {
    DivModUnique(x, y + z / n, z % n, n);
  }

  // MULT16_16_P14
  function Mult16_16_P14(a: int, b: int): int { Add32(0x2000, Mult16_16(a, b)) / 0x4000 }

  // PSHR32(a, 14), the shift of the excitation
  function Pshr32Sig(a: int): int { Add32(a, 0x2000) / 0x4000 }

  function Shl32(a: int, factor: int): int { Wrap32(a * factor) }

  function Saturate(x: int, a: int): int {
    if x > a then a else if x < -a then -a else x
  }
}
