/** What the distances and the weights of the spectral quantisers mean as long as nothing overflows. */
module QuantLaws {
  import opened Arith
  import opened Fixed
  import opened LspStages
  import opened QuantLsp

  // ---------- distances ----------

  // How far the codeword is from x in coordinate j.
  function Gap(x: seq<int>, cdbk: seq<int>, id: nat, j: nat): int
    requires |cdbk| == CDBK_SIZE * |x| && id < CDBK_SIZE && j < |x|
  {
    x[j] - 32 * Code(cdbk, |x|, id, j)
  }

  function Square(g: int): (s: int)
    ensures s >= 0
  {
    g * g
  }

  // The sum of the squared gaps, each one scaled by its weight over 2^15 and rounded down.
  function Squares(x: seq<int>, weights: seq<int>, cdbk: seq<int>, id: nat, n: nat): int
    requires |cdbk| == CDBK_SIZE * |x| && id < CDBK_SIZE && n <= |x| && (weights == [] || |x| <= |weights|)
  {
    if n == 0 then 0
    else
      var s := Square(Gap(x, cdbk, id, n - 1));
      Squares(x, weights, cdbk, id, n - 1) + if weights == [] then s else Scaled(weights[n - 1], s)
  }

  function Scaled(w: int, s: int): int { w * s / 0x8000 }

  // No gap is too wide for 16 bits, and no weight is negative.
  ghost predicate Narrow(x: seq<int>, weights: seq<int>, cdbk: seq<int>, id: nat)
    requires |cdbk| == CDBK_SIZE * |x| && id < CDBK_SIZE
  {
    && (forall j :: 0 <= j < |x| ==> -0x8000 < Gap(x, cdbk, id, j) < 0x8000)
    && forall j :: 0 <= j < |weights| ==> 0 <= weights[j] < 0x8000
  }

  // The distance is the sum of the weighted squares, as long as that fits 32 bits.
  lemma {:induction false} DistanceIsSquares(x: seq<int>, weights: seq<int>, cdbk: seq<int>, id: nat, n: nat)
    requires |cdbk| == CDBK_SIZE * |x| && id < CDBK_SIZE && n <= |x| && (weights == [] || |x| <= |weights|)
    requires Narrow(x, weights, cdbk, id) && Squares(x, weights, cdbk, id, n) < 0x8000_0000
    ensures Distance(x, weights, cdbk, id, n) == Squares(x, weights, cdbk, id, n) >= 0
  {
    if n > 0 {
      hide Stage, Square, Scaled, Code, QuantLsp.Term, Gap;
      GapIsStage(x, weights, cdbk, id, n - 1);
      DistanceIsSquares(x, weights, cdbk, id, n - 1);
    }
  }

  lemma GapIsStage(x: seq<int>, weights: seq<int>, cdbk: seq<int>, id: nat, j: nat)
    requires |cdbk| == CDBK_SIZE * |x| && id < CDBK_SIZE && j < |x| && (weights == [] || |x| <= |weights|)
    requires Narrow(x, weights, cdbk, id)
    ensures var s := Square(Gap(x, cdbk, id, j));
            && Term(weights, j, Stage(x[j], Code(cdbk, |x|, id, j)))
                == (if weights == [] then s else Scaled(weights[j], s))
            && (weights != [] ==> Scaled(weights[j], s) >= 0)
  {
    var g := Gap(x, cdbk, id, j);
    assert Stage(x[j], Code(cdbk, |x|, id, j)) == g;
    SquareBound(g);
    hide Code, Gap;
    if weights != [] {
      FloorQ15(weights[j], Square(g));
      MulLe(0, weights[j], Square(g));
    }
  }

  lemma SquareBound(g: int)
    requires -0x8000 < g < 0x8000
    ensures Square(g) < 0x4000_0000 && Mult16_16(g, g) == Square(g)
  {
    var a := if g < 0 then -g else g;
    MulLe(a, 0x7fff, a);
    MulLe(a, 0x7fff, 0x7fff);
    assert Square(g) == a * a;
  }

  // ---------- weights ----------

  ghost predicate Ordered(lsp: seq<int>) {
    forall i, k :: 0 <= i <= k < |lsp| ==> 0 <= lsp[i] <= lsp[k] <= LSP_PI
  }

  function Apart(a: int, b: int): int { if a < b then b - a else a - b }

  // For frequencies in order, the distance that sets a weight is the least one from all other
  // frequencies and from the ends of the range.
  lemma NearerIsLeast(lsp: seq<int>, i: nat)
    requires Ordered(lsp) && i < |lsp|
    ensures Nearer(lsp, i) <= lsp[i] && Nearer(lsp, i) <= LSP_PI - lsp[i]
    ensures forall k :: 0 <= k < |lsp| && k != i ==> Nearer(lsp, i) <= Apart(lsp[i], lsp[k])
    ensures || Nearer(lsp, i) == lsp[i] || Nearer(lsp, i) == LSP_PI - lsp[i]
            || exists k :: 0 <= k < |lsp| && k != i && Nearer(lsp, i) == Apart(lsp[i], lsp[k])
  {
    var n := Nearer(lsp, i);
    if i > 0 { assert lsp[i - 1] <= lsp[i] && Apart(lsp[i], lsp[i - 1]) == lsp[i] - lsp[i - 1]; }
    if i + 1 < |lsp| { assert lsp[i] <= lsp[i + 1] && Apart(lsp[i], lsp[i + 1]) == lsp[i + 1] - lsp[i]; }
  }

  // The closer, the heavier.
  lemma CloserIsHeavier(a: int, b: int)
    requires 0 <= a <= b <= LSP_PI
    ensures 0 < Weight(b) <= Weight(a) <= 273
  {
    Quotients(81920, 300 + a, 300 + b);
    Quotients(81920, 300, 300 + a);
    Quotients(81920, 300 + b, 300 + LSP_PI);
  }

  lemma Quotients(n: nat, a: nat, b: nat)
    requires 0 < a <= b
    ensures n / b <= n / a
  {
    var q := n / b;
    MulLe(a, b, q);
    if q > n / a { MulLe(n / a + 1, q, a); }
  }
}
