/** The few facts of non-linear arithmetic that the other modules use. */
module Arith {

  function Pow2(n: nat): (p: nat)
    ensures p >= 1
  {
    if n == 0 then 1 else 2 * Pow2(n - 1)
  }

  function Shl(x: nat, k: nat): nat { if k == 0 then x else 2 * Shl(x, k - 1) }
  function Shr(x: nat, k: nat): nat { if k == 0 then x else Shr(x / 2, k - 1) }

  lemma MulGrows(a: nat, m: nat)
    requires a >= 1
    ensures a * m >= m
  {
    assert a * m == (a - 1) * m + m;
    assert (a - 1) * m >= 0;
  }

  lemma QuotientUnique(q: int, r: int, q': int, r': int, m: int)
    requires 0 <= r < m && 0 <= r' < m && q * m + r == q' * m + r'
    ensures q == q' && r == r'
  {
    assert (q - q') * m == q * m - q' * m;
    if q > q' { MulGrows(q - q', m); }
    if q < q' {
      assert (q' - q) * m == q' * m - q * m;
      MulGrows(q' - q, m);
    }
  }

  /** Division with remainder is determined by its defining equation. */
  lemma DivUnique(x: int, q: int, r: int, m: int)
    requires 0 <= r < m && x == q * m + r
    ensures x / m == q && x % m == r
  {
    QuotientUnique(x / m, x % m, q, r, m);
  }

  lemma AddMultiple(q: int, r: int, m: int)
    requires m > 0
    ensures (q * m + r) / m == q + r / m
    ensures (q * m + r) % m == r % m
  {
    assert (q + r / m) * m == q * m + r / m * m;
    DivUnique(q * m + r, q + r / m, r % m, m);
  }

  lemma ModAdd(x: int, d: int, m: int)
    requires m > 0
    ensures (x + d) % m == (x % m + d) % m
  {
    AddMultiple(x / m, x % m + d, m);
  }

  lemma DivRemainder(x: int, m: int)
    requires m > 0
    ensures 0 <= x - x / m * m < m
  {
  }

  lemma MulLess(a: int, b: int, d: int)
    requires d > 0
    ensures a < b <==> a * d < b * d
    ensures a <= b <==> a * d <= b * d
  {
    assert (b - a) * d == b * d - a * d;
    if a < b { MulGrows(b - a, d); }
    if b < a {
      assert (a - b) * d == a * d - b * d;
      MulGrows(a - b, d);
    }
  }

  lemma DivAtLeast(x: int, j: int, m: int)
    requires m > 0
    ensures x / m >= j <==> x >= j * m
  {
    var q := x / m;
    assert x == q * m + x % m;
    MulLess(j, q, m);
    MulLess(q, j - 1, m);
    assert (j - 1) * m == j * m - m;
  }
}
