/** Integer facts about products, quotients and remainders that index arithmetic relies on. */
module Arith {
  // The quotient and the remainder are unique.
  lemma DivModUnique(x: int, q: int, r: int, n: int)
    requires 0 <= r < n && x == q * n + r
    ensures x / n == q && x % n == r
  {
    var q', r' := x / n, x % n;
    assert x == q' * n + r';
    MulDiff(q, q', n);
    if q' < q { MulLe(1, q - q', n); }
    if q < q' { MulLe(1, q' - q, n); }
  }

  lemma MulDiff(a: int, b: int, n: int)
    ensures (a - b) * n == a * n - b * n
  {
  }

  function Min(a: nat, b: nat): nat { if a < b then a else b }

  // A product of reals that the solver does not look into.
  function Mult(a: real, b: real): real { a * b }

  lemma MulLe(a: int, b: int, n: int)
    requires a <= b && 0 <= n
    ensures a * n <= b * n
  {
  }

  lemma ModAddMul(a: int, k: int, n: int)
    requires n > 0
    ensures (a + k * n) % n == a % n
  {
    DivModUnique(a + k * n, a / n + k, a % n, n);
  }

  lemma ModAdd(a: int, b: int, n: int)
    requires n > 0
    ensures (a + b) % n == (a % n + b % n) % n
  {
    ModAddMul(a % n + b % n, a / n + b / n, n);
    assert a + b == a % n + b % n + (a / n + b / n) * n;
  }

  // A block index and an offset in the block determine a flat index inside the whole.
  lemma FlatIndex(i: int, k: int, blocks: int, len: int)
    requires 0 <= i < blocks && 0 <= k < len
    ensures 0 <= i * len && i * len + k < blocks * len
  {
    MulLe(0, i, len);
    MulLe(i + 1, blocks, len);
  }

  // A pointer that moves from base in strides of m stands before block j.
  ghost predicate StandsAt(pointer: int, base: int, m: nat, j: nat) {
    pointer == base + j * m
  }

  lemma StandsFirst(base: int, m: nat)
    ensures StandsAt(base, base, m, 0)
  {
  }

  lemma StandsNext(pointer: int, base: int, p: nat, m: nat, j: nat)
    requires StandsAt(pointer, base, m, j) && j < p
    ensures StandsAt(pointer + m, base, m, j + 1)
    ensures pointer == base + j * m && base <= pointer && pointer + m <= base + p * m
    ensures j + 1 == p ==> pointer + m == base + p * m
  {
    MulLe(0, j, m);
    MulLe(j + 1, p, m);
  }

  lemma MulPositive(a: int, b: int)
    requires a > 0 && b > 0
    ensures a * b > 0 && a * b >= a && a * b >= b
  {
    MulLe(1, a, b);
    MulLe(1, b, a);
  }

  lemma FlatSplit(k: int, p: nat, m: nat)
    requires m > 0 && 0 <= k < p * m
    ensures 0 <= k / m < p && 0 <= k % m < m && k == k / m * m + k % m
    ensures 0 <= k / m * m && k / m * m + m <= p * m
  {
    FlatBound(k / m, k % m, p, m);
  }

  lemma FlatBound(q: int, r: int, p: int, m: int)
    requires 0 <= r < m && 0 <= q * m + r < p * m
    ensures 0 <= q < p && 0 <= q * m && q * m + m <= p * m
  {
    if q >= p { MulLe(p, q, m); }
    if q < 0 { MulLe(q, -1, m); }
    MulLe(q + 1, p, m);
    MulLe(0, q, m);
  }
}
