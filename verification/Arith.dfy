/** The larger and smaller of two numbers, and small facts about products, quotients and sizes. */
module Arith {
  type U64 = x: nat | x < 0x1_0000_0000_0000_0000

  function Max(x: int, y: int): int { if x < y then y else x }

  function Min(x: int, y: int): int { if x < y then x else y }

  lemma MulMono(n: int, p: int, q: int)
    requires n >= 0 && p <= q
    ensures n * p <= n * q
  {
    assert n * (q - p) >= 0;
  }

  lemma QuotientAtMost(n: int, q: int, r: int, q': int, r': int)
    requires n > 0 && n * q + r == n * q' + r' && 0 <= r && r' < n
    ensures q <= q'
  {
    if q > q' {
      MulMono(n, q' + 1, q);
    }
  }

  lemma DivModUnique(x: int, n: int, q: int, r: int)
    requires n > 0 && x == n * q + r && 0 <= r < n
    ensures x / n == q && x % n == r
  {
    QuotientAtMost(n, q, r, x / n, x % n);
    QuotientAtMost(n, x / n, x % n, q, r);
  }

  lemma QuotientShrinks(x: nat, n: nat)
    requires n > 0
    ensures 0 <= x / n <= x
  {
    MulMono(x / n, 1, n);
  }

  lemma {:induction false} SubsetSize<T>(s: set<T>, t: set<T>)
    requires s <= t
    ensures |s| <= |t|
  {
    if s != {} {
      var x :| x in s;
      SubsetSize(s - {x}, t - {x});
    }
  }
}
