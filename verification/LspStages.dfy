/** The arithmetic of the multistage quantisers of the line spectral pairs: what the encoder is
    left with after subtracting codewords from a doubling residual, and what the decoder adds up. */
module LspStages {
  import opened Fixed

  // LSP_LINEAR and LSP_LINEAR_HIGH
  function Linear(i: nat): int { 2048 * (i + 1) }

  function LinearHigh(i: nat): int { 2560 * i + 6144 }

  function LinearOf(high: bool, i: nat): int { if high then LinearHigh(i) else Linear(i) }

  // The starting points in radians, of which 8192 units make one: a quarter and its multiples, and five
  // sixteenths on from three quarters, as the floating-point build has them.
  lemma LinearInRadians(i: nat)
    ensures Linear(i) as real / 8192.0 == 0.25 * i as real + 0.25
    ensures LinearHigh(i) as real / 8192.0 == 0.3125 * i as real + 0.75
  {
    assert Linear(i) as real == 2048.0 * (i as real + 1.0);
    assert LinearHigh(i) as real == 2560.0 * i as real + 6144.0;
  }

  predicate IsCode(c: int) { -128 <= c < 128 }

  // SUB16(x, SHL16(code, 5)), kept in 16 bits
  function Stage(x: int, code: int): int { Wrap16(x - 32 * code) }

  function Doubled(x: int): int { Wrap16(2 * x) }

  // PSHR16(x, 1) and PSHR16(x, 2)
  function Halved(x: int): int { (x + 1) / 2 }

  function Quartered(x: int): int { (x + 2) / 4 }

  // The encoder after two and after three stages.
  function Residual2(lsp: int, lin: int, c1: int, c2: int): int {
    Stage(Doubled(Stage(Wrap16(lsp - lin), c1)), c2)
  }

  function Residual3(lsp: int, lin: int, c1: int, c2: int, c3: int): int {
    Stage(Doubled(Residual2(lsp, lin, c1, c2)), c3)
  }

  function Quantised2(lsp: int, lin: int, c1: int, c2: int): int {
    Wrap16(lsp - Halved(Residual2(lsp, lin, c1, c2)))
  }

  function Quantised3(lsp: int, lin: int, c1: int, c2: int, c3: int): int {
    Wrap16(lsp - Quartered(Residual3(lsp, lin, c1, c2, c3)))
  }

  // The decoder: LSP_DIV_256, LSP_DIV_512 and LSP_DIV_1024 of the codewords.
  function Unquantised2(lin: int, c1: int, c2: int): int {
    Wrap16(Wrap16(lin + 32 * c1) + 16 * c2)
  }

  function Unquantised3(lin: int, c1: int, c2: int, c3: int): int {
    Wrap16(Wrap16(Wrap16(lin + 32 * c1) + 16 * c2) + 8 * c3)
  }

  lemma WrapShift(x: int, k: int)
    ensures Wrap16(x + k * 0x1_0000) == Wrap16(x)
  {
  }

  // x is Wrap16(x) up to a multiple of 2^16.
  lemma WrapUnique(x: int, y: int)
    requires (x - y) % 0x1_0000 == 0
    ensures Wrap16(x) == Wrap16(y)
  {
    WrapShift(y, (x - y) / 0x1_0000);
  }

  lemma WrapSub(x: int, y: int)
    ensures Wrap16(Wrap16(x) - y) == Wrap16(x - y)
  {
    WrapUnique(Wrap16(x) - y, x - y);
  }

  lemma WrapDouble(x: int)
    ensures Wrap16(2 * Wrap16(x)) == Wrap16(2 * x)
  {
    var k := (x + 0x8000) / 0x1_0000;
    assert Wrap16(x) == x - k * 0x1_0000;
    WrapShift(2 * x, -2 * k);
  }

  // The residual is the scaled distance between the input and the decoder's sum, in 16 bits.
  lemma ResidualIs2(lsp: int, lin: int, c1: int, c2: int)
    ensures Residual2(lsp, lin, c1, c2) == Wrap16(2 * (lsp - (lin + 32 * c1 + 16 * c2)))
  {
    hide Wrap16;
    WrapSub(lsp - lin, 32 * c1);
    WrapDouble(lsp - lin - 32 * c1);
    WrapSub(2 * (lsp - lin - 32 * c1), 32 * c2);
  }

  lemma ResidualIs3(lsp: int, lin: int, c1: int, c2: int, c3: int)
    ensures Residual3(lsp, lin, c1, c2, c3) == Wrap16(4 * (lsp - (lin + 32 * c1 + 16 * c2 + 8 * c3)))
  {
    hide Wrap16, Residual2;
    ResidualIs2(lsp, lin, c1, c2);
    WrapDouble(2 * (lsp - (lin + 32 * c1 + 16 * c2)));
    WrapSub(4 * (lsp - (lin + 32 * c1 + 16 * c2)), 32 * c3);
  }

  // Two stages: the encoder's vector is the decoder's exactly when the residual fits.
  lemma TwoStages(lsp: int, lin: int, c1: int, c2: int)
    requires 0 <= lsp < 0x8000 && 0 <= lin <= 24064 && IsCode(c1) && IsCode(c2)
    ensures Unquantised2(lin, c1, c2) == lin + 32 * c1 + 16 * c2
    ensures Quantised2(lsp, lin, c1, c2) == Unquantised2(lin, c1, c2) <==>
            -0x4000 <= lsp - Unquantised2(lin, c1, c2) < 0x4000
  {
    ResidualIs2(lsp, lin, c1, c2);
    hide Residual2;
    Rounded2(lsp, lin + 32 * c1 + 16 * c2);
  }

  lemma Rounded2(lsp: int, d: int)
    requires 0 <= lsp < 0x8000 && -0x2000 <= d < 0x8000
    ensures Wrap16(lsp - Halved(Wrap16(2 * (lsp - d)))) == d <==> -0x4000 <= lsp - d < 0x4000
  {
    var x := lsp - d;
    var k := if x >= 0x4000 then 1 else if x < -0x4000 then -1 else 0;
    WrapShift(2 * x - k * 0x1_0000, k);
    assert Halved(2 * x - k * 0x1_0000) == x - k * 0x8000;
  }

  // Three stages, the residual being scaled by four.
  lemma ThreeStages(lsp: int, lin: int, c1: int, c2: int, c3: int)
    requires 0 <= lsp < 0x8000 && 0 <= lin <= 20480 && IsCode(c1) && IsCode(c2) && IsCode(c3)
    ensures Unquantised3(lin, c1, c2, c3) == lin + 32 * c1 + 16 * c2 + 8 * c3
    ensures Quantised3(lsp, lin, c1, c2, c3) == Unquantised3(lin, c1, c2, c3) <==>
            -0x2000 <= lsp - Unquantised3(lin, c1, c2, c3) < 0x2000
  {
    ResidualIs3(lsp, lin, c1, c2, c3);
    hide Residual3;
    Rounded3(lsp, lin + 32 * c1 + 16 * c2 + 8 * c3);
  }

  lemma Rounded3(lsp: int, d: int)
    requires 0 <= lsp < 0x8000 && -0x2000 <= d < 0x8000
    ensures Wrap16(lsp - Quartered(Wrap16(4 * (lsp - d)))) == d <==> -0x2000 <= lsp - d < 0x2000
  {
    var x := lsp - d;
    var k := if x >= 0x6000 then 2 else if x >= 0x2000 then 1 else if x < -0x6000 then -2 else if x < -0x2000 then -1
        else 0;
    WrapShift(4 * x - k * 0x1_0000, k);
    assert Quartered(4 * x - k * 0x1_0000) == x - k * 0x4000;
  }

  // A spectrum far from the linear one does break the agreement.
  lemma FarResidualDiffers()
    ensures Quantised3(20000, Linear(0), 127, 0, 0) != Unquantised3(Linear(0), 127, 0, 0)
  {
    ThreeStages(20000, Linear(0), 127, 0, 0);
    hide Quantised3;
  }
}
