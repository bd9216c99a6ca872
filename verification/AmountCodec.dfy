/** Amount compression (src/compressor.cpp:133-185). */
module AmountCodec {
  import opened Arith

  const MAX_MONEY: nat := 150_000_000 * 100_000_000

  function Tens(e: nat): (p: nat)
    ensures p >= 1
  {
    if e == 0 then 1 else 10 * Tens(e - 1)
  }

  /** The number written for an amount `m * 10^e` with `m` not divisible by ten, or e == 9. */
  function Code(m: nat, e: nat): nat
    requires m > 0
  {
    if e < 9 then 1 + ((m / 10) * 9 + m % 10 - 1) * 10 + e else 1 + (m - 1) * 10 + 9
  }

  predicate Normal(m: nat, e: nat) {
    m > 0 && e <= 9 && (e < 9 ==> m % 10 != 0)
  }

  /** The mantissa and exponent a code stands for. */
  function MantissaOf(x: nat): nat
    requires x > 0
  {
    var q := (x - 1) / 10;
    if (x - 1) % 10 < 9 then (q / 9) * 10 + q % 9 + 1 else q + 1
  }

  function ExponentOf(x: nat): nat
    requires x > 0
  {
    (x - 1) % 10
  }

  function Decompressed(x: nat): nat {
    if x == 0 then 0 else MantissaOf(x) * Tens(ExponentOf(x))
  }

  /** Code and decomposition are inverse to each other. */
  lemma CodeInverse(m: nat, e: nat)
    requires Normal(m, e)
    ensures Code(m, e) > 0 && MantissaOf(Code(m, e)) == m && ExponentOf(Code(m, e)) == e
  {
    if e < 9 {
      var q := (m / 10) * 9 + m % 10 - 1;
      assert (Code(m, e) - 1) / 10 == q;
    }
  }

  lemma PartsInverse(x: nat)
    requires x > 0
    ensures Normal(MantissaOf(x), ExponentOf(x)) && Code(MantissaOf(x), ExponentOf(x)) == x
  {
  }

  lemma {:induction false} CancelTens(m: nat, e: nat, m': nat, e': nat)
    requires e <= e' && m * Tens(e) == m' * Tens(e')
    ensures m == m' * Tens(e' - e)
  {
    if e > 0 {
      assert m * Tens(e) == 10 * (m * Tens(e - 1)) && m' * Tens(e') == 10 * (m' * Tens(e' - 1));
      CancelTens(m, e - 1, m', e' - 1);
    }
  }

  /** Every positive amount has exactly one normal form. */
  lemma NormalUnique(m: nat, e: nat, m': nat, e': nat)
    requires Normal(m, e) && Normal(m', e') && m * Tens(e) == m' * Tens(e')
    ensures m == m' && e == e'
  {
    if e <= e' {
      NormalOrder(m, e, m', e');
    } else {
      NormalOrder(m', e', m, e);
    }
  }

  lemma NormalOrder(m: nat, e: nat, m': nat, e': nat)
    requires Normal(m, e) && Normal(m', e') && e <= e' && m * Tens(e) == m' * Tens(e')
    ensures m == m' && e == e'
  {
    CancelTens(m, e, m', e');
    if e < e' {
      TenDivides(m', e' - e);
    } else {
      assert Tens(0) == 1;
    }
  }

  lemma TenDivides(m: nat, k: nat)
    requires k > 0
    ensures (m * Tens(k)) % 10 == 0
  {
    assert m * Tens(k) == 10 * (m * Tens(k - 1));
  }

  /** The division loop: the mantissa and exponent of `n * 10^e`. */
  function Strip(n: nat, e: nat): (nat, nat)
    decreases n
  {
    if n > 0 && n % 10 == 0 && e < 9 then Strip(n / 10, e + 1) else (n, e)
  }

  lemma {:induction false} StripMeans(n: nat, e: nat)
    requires n > 0 && e <= 9
    ensures var (m, f) := Strip(n, e); Normal(m, f) && m * Tens(f) == n * Tens(e)
    decreases n
  {
    if n % 10 == 0 && e < 9 {
      StripMeans(n / 10, e + 1);
      assert (n / 10) * (10 * Tens(e)) == (n / 10 * 10) * Tens(e);
    }
  }

  function Compressed(n: nat): nat {
    if n == 0 then 0 else
      StripMeans(n, 0);
      var (m, e) := Strip(n, 0);
      Code(m, e)
  }

  /** Decompression inverts compression for every amount. */
  lemma DecompressCompressed(n: nat)
    ensures Decompressed(Compressed(n)) == n
  {
    if n > 0 {
      StripMeans(n, 0);
      var (m, e) := Strip(n, 0);
      CodeInverse(m, e);
      assert Tens(0) == 1;
    }
  }

  /** And compression inverts decompression, so it is a bijection on the natural numbers. */
  lemma CompressDecompressed(x: nat)
    ensures Compressed(Decompressed(x)) == x
  {
    if x > 0 {
      PartsInverse(x);
      var m, e := MantissaOf(x), ExponentOf(x);
      var n := m * Tens(e);
      MulMono(m, 1, Tens(e));
      StripMeans(n, 0);
      var (m', e') := Strip(n, 0);
      assert Tens(0) == 1;
      NormalUnique(m, e, m', e');
    }
  }

  lemma CodeBound(m: nat, e: nat)
    requires Normal(m, e)
    ensures Code(m, e) <= 10 * m
  {
  }

  lemma CompressedBound(n: nat)
    ensures Compressed(n) <= 10 * n
  {
    if n > 0 {
      StripMeans(n, 0);
      var (m, e) := Strip(n, 0);
      CodeBound(m, e);
      MulMono(m, 1, Tens(e));
      assert Tens(0) == 1;
    }
  }

  /** The code of a 64-bit amount, cut to 64 bits, still stands for it iff nothing was cut. */
  lemma CutIsLost(n: U64, c: nat)
    requires c == Compressed(n)
    ensures Decompressed(c % WORD) == n <==> c < WORD
  {
    OneCode(n, c, c % WORD);
  }

  lemma OneCode(n: nat, c: nat, x: nat)
    requires c == Compressed(n)
    ensures Decompressed(x) == n <==> x == c
  {
    DecompressCompressed(n);
    CompressDecompressed(x);
  }

  const WORD: nat := 0x1_0000_0000_0000_0000

  /** Wraps at 64 bits, which no amount up to `MAX_MONEY` reaches. */
  method CompressAmount(n0: U64) returns (x: U64)
    ensures x == Compressed(n0) % WORD
    ensures n0 <= MAX_MONEY ==> x == Compressed(n0)
  {
    CompressedBound(n0);
    if n0 == 0 {
      return 0;
    }
    var n: U64, e := n0, 0;
    while n % 10 == 0 && e < 9
      invariant 0 < n <= n0 && e <= 9 && Strip(n, e) == Strip(n0, 0)
    {
      n := n / 10;
      e := e + 1;
    }
    if e < 9 {
      var d := n % 10;
      assert 1 <= d <= 9;
      n := n / 10;
      x := (1 + (n * 9 + d - 1) * 10 + e) % WORD;
    } else {
      x := (1 + (n - 1) * 10 + 9) % WORD;
    }
  }

  method DecompressAmount(x0: nat) returns (n: nat)
    ensures n == Decompressed(x0)
  {
    if x0 == 0 {
      return 0;
    }
    var x := x0 - 1;
    var e := x % 10;
    x := x / 10;
    if e < 9 {
      var d := x % 9 + 1;
      x := x / 9;
      n := x * 10 + d;
    } else {
      n := x + 1;
    }
    assert n == MantissaOf(x0);
    while e > 0
      invariant 0 <= e && n * Tens(e) == Decompressed(x0)
    {
      assert n * Tens(e) == (n * 10) * Tens(e - 1);
      n := n * 10;
      e := e - 1;
    }
  }
}
