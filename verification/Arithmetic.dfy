/** Powers of two and the facts about products and remainders that the limb, hash and filter
    arithmetic shares. */
module Arithmetic {

  const TWO_32: nat := 0x1_0000_0000

  function Min(a: int, b: int): int { if a < b then a else b }

  function Max(a: int, b: int): int { if a < b then b else a }

  function Pow2(k: nat): (p: nat)
    ensures p >= 1
  {
    if k == 0 then 1 else 2 * Pow2(k - 1)
  }

  function Div(n: nat, d: nat): nat
    requires d > 0
  {
    n / d
  }

  lemma {:induction false} Pow2Add(i: nat, j: nat)
    ensures Pow2(i + j) == Pow2(i) * Pow2(j)
    decreases i
  {
    if i > 0 {
      Pow2Add(i - 1, j);
      Associate(2, Pow2(i - 1), Pow2(j));
    }
  }

  lemma {:induction false} Pow2Grows(i: nat, j: nat)
    requires i <= j
    ensures Pow2(i) <= Pow2(j)
    decreases j
  {
    if i < j { Pow2Grows(i, j - 1); }
  }

  lemma Distribute(a: int, b: int, c: int)
    ensures (a + b) * c == a * c + b * c
    ensures c * (a + b) == c * a + c * b
  {
  }

  lemma Associate(a: int, b: int, c: int)
    ensures (a * b) * c == a * (b * c)
  {
  }

  lemma Commute(a: int, b: int)
    ensures a * b == b * a
  {
  }

  lemma MultiplyGrows(x: nat, m: nat, y: nat)
    requires x <= m
    ensures 0 <= x * y <= m * y
  {
    Distribute(x, m - x, y);
  }

  /** A remainder is determined by being in range and differing by a multiple. */
  lemma RemainderIs(x: int, q: int, r: nat, m: nat)
    requires m > 0 && r < m && x == q * m + r
    ensures x % m == r && x / m == q
  {
    var q', r' := x / m, x % m;
    assert x == q' * m + r';
    assert (q - q') * m == r' - r by { Distribute(q, -q', m); }
    assert q - q' >= 1 ==> (q - q') * m >= m;
    assert q - q' <= -1 ==> (q - q') * m <= 0 - m;
  }

  lemma QuotientBelow(n: nat, d: nat, m: nat)
    requires d > 0 && n < d * m
    ensures n / d < m
  {
    var q := n / d;
    assert n == q * d + n % d;
    assert q >= m ==> q * d >= m * d;
  }

  lemma DivideShrinks(n: nat, d: nat)
    requires d > 0
    ensures n / d <= n
  {
    MultiplyGrows(1, d, n + 1);
    QuotientBelow(n, d, n + 1);
  }
}
