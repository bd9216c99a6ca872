/** Numbers in a positional system: big-endian digit sequences and the room they need. */
module Digits {
  import opened Arith

  function Pow(b: nat, n: nat): nat {
    if n == 0 then 1 else b * Pow(b, n - 1)
  }

  lemma {:induction false} PowPositive(b: nat, n: nat)
    requires b > 0
    ensures Pow(b, n) > 0
  {
    if n > 0 {
      PowPositive(b, n - 1);
      MulMono(Pow(b, n - 1), 1, b);
    }
  }

  lemma {:induction false} PowAdd(b: nat, m: nat, n: nat)
    ensures Pow(b, m + n) == Pow(b, m) * Pow(b, n)
  {
    if m > 0 {
      PowAdd(b, m - 1, n);
      assert b * Pow(b, m - 1) * Pow(b, n) == b * (Pow(b, m - 1) * Pow(b, n));
    }
  }

  lemma {:induction false} PowMono(b: nat, m: nat, n: nat)
    requires b > 0 && m <= n
    ensures Pow(b, m) <= Pow(b, n)
  {
    if m < n {
      PowMono(b, m, n - 1);
      PowPositive(b, n - 1);
      MulMono(Pow(b, n - 1), 1, b);
    }
  }

  lemma {:induction false} PowPow(b: nat, m: nat, n: nat)
    ensures Pow(Pow(b, m), n) == Pow(b, m * n)
  {
    if n == 0 {
      assert m * n == 0;
    } else {
      PowPow(b, m, n - 1);
      assert m * n == m + m * (n - 1);
      PowAdd(b, m, m * (n - 1));
    }
  }

  lemma {:induction false} PowOrder(a: nat, b: nat, n: nat)
    requires a <= b
    ensures Pow(a, n) <= Pow(b, n)
  {
    if n > 0 {
      PowOrder(a, b, n - 1);
      MulMono(a, Pow(a, n - 1), Pow(b, n - 1));
      MulMono(Pow(b, n - 1), a, b);
    }
  }

  lemma {:induction false} PowStrict(a: nat, b: nat, n: nat)
    requires a < b && n > 0
    ensures Pow(a, n) < Pow(b, n)
  {
    if n > 1 {
      PowStrict(a, b, n - 1);
      MulMono(a, Pow(a, n - 1), Pow(b, n - 1));
      assert b * Pow(b, n - 1) == a * Pow(b, n - 1) + (b - a) * Pow(b, n - 1);
      MulMono(Pow(b, n - 1), 1, b - a);
    } else {
      assert Pow(a, 1) == a && Pow(b, 1) == b;
    }
  }

  /** If a^p <= b^q, then every a^n fits in b^e as soon as n * q <= e * p. */
  lemma Fits(a: nat, b: nat, p: nat, q: nat, n: nat, e: nat)
    requires a > 0 && b > 0 && p > 0 && Pow(a, p) <= Pow(b, q) && q * n <= e * p
    ensures Pow(a, n) <= Pow(b, e)
  {
    Raised(a, b, p, q, n, e);
    if Pow(a, n) > Pow(b, e) {
      PowStrict(Pow(b, e), Pow(a, n), p);
    }
  }

  lemma PowSwap(a: nat, n: nat, p: nat)
    ensures Pow(Pow(a, n), p) == Pow(Pow(a, p), n)
  {
    PowPow(a, n, p);
    assert n * p == p * n;
    PowPow(a, p, n);
  }

  lemma PowRaise(b: nat, q: nat, n: nat, e: nat, p: nat)
    requires b > 0 && q * n <= e * p
    ensures Pow(Pow(b, q), n) <= Pow(Pow(b, e), p)
  {
    MulMono(q, 0, n);
    PowPow(b, q, n);
    PowPow(b, e, p);
    PowMono(b, q * n, e * p);
  }

  lemma Raised(a: nat, b: nat, p: nat, q: nat, n: nat, e: nat)
    requires b > 0 && Pow(a, p) <= Pow(b, q) && q * n <= e * p
    ensures Pow(Pow(a, n), p) <= Pow(Pow(b, e), p)
  {
    PowSwap(a, n, p);
    PowOrder(Pow(a, p), Pow(b, q), n);
    PowRaise(b, q, n, e, p);
  }

  lemma Squared(b: nat, n: nat, v: nat)
    requires Pow(b, n) == v
    ensures Pow(b, 2 * n) == v * v
  {
    PowAdd(b, n, n);
  }

  /** The number a big-endian digit sequence stands for. */
  function Num(s: seq<nat>, base: nat): nat {
    if s == [] then 0 else s[0] * Pow(base, |s| - 1) + Num(s[1..], base)
  }

  ghost predicate AreDigits(s: seq<nat>, base: nat) {
    forall i | 0 <= i < |s| :: s[i] < base
  }

  lemma {:induction false} NumBound(s: seq<nat>, base: nat)
    requires AreDigits(s, base)
    ensures Num(s, base) < Pow(base, |s|) || (s != [] && base == 0)
  {
    if s != [] {
      NumBound(s[1..], base);
      var p := Pow(base, |s| - 1);
      MulMono(p, s[0] + 1, base);
      assert p * (s[0] + 1) == s[0] * p + p && p * base == base * p;
    }
  }

  lemma {:induction false} NumAppend(s: seq<nat>, x: nat, base: nat)
    ensures Num(s + [x], base) == Num(s, base) * base + x
  {
    if s == [] {
      assert s + [x] == [x];
      assert Pow(base, 0) == 1;
    } else {
      NumAppend(s[1..], x, base);
      assert (s + [x])[1..] == s[1..] + [x];
      var p := Pow(base, |s| - 1);
      assert s[0] * (base * p) == (s[0] * p) * base;
      assert (s[0] * p + Num(s[1..], base)) * base == (s[0] * p) * base + Num(s[1..], base) * base;
    }
  }

  lemma {:induction false} NumZeros(s: seq<nat>, t: seq<nat>, base: nat)
    requires forall i | 0 <= i < |s| :: s[i] == 0
    ensures Num(s + t, base) == Num(t, base)
  {
    if s == [] {
      assert s + t == t;
    } else {
      NumZeros(s[1..], t, base);
      assert (s + t)[1..] == s[1..] + t;
    }
  }

  /** The digits of a number, without leading zeros. */
  function ToDigits(n: nat, base: nat): (s: seq<nat>)
    requires base > 1
    ensures AreDigits(s, base) && (s != [] ==> s[0] != 0) && (s == [] <==> n == 0)
    decreases n
  {
    if n == 0 then [] else
      Shrinks(n, base);
      ToDigits(n / base, base) + [n % base]
  }

  lemma Shrinks(n: nat, base: nat)
    requires n > 0 && base > 1
    ensures 0 <= n / base < n
  {
    var q := n / base;
    assert n == base * q + n % base;
    if q <= 0 {
      MulMono(base, q, 0);
    } else {
      MulMono(q, 2, base);
      assert q * base == base * q;
    }
  }

  lemma Euclid(n: nat, base: nat)
    requires base > 0
    ensures n / base * base + n % base == n
  {
  }

  lemma {:induction false} NumOfDigits(n: nat, base: nat)
    requires base > 1
    ensures Num(ToDigits(n, base), base) == n
    decreases n
  {
    if n > 0 {
      Shrinks(n, base);
      NumOfDigits(n / base, base);
      NumAppend(ToDigits(n / base, base), n % base, base);
      Euclid(n, base);
    }
  }

  /** Digits without leading zeros are determined by the number. */
  lemma {:induction false} DigitsOfNum(s: seq<nat>, base: nat)
    requires base > 1 && AreDigits(s, base) && (s != [] ==> s[0] != 0)
    ensures ToDigits(Num(s, base), base) == s
  {
    if s != [] {
      var r, x := s[..|s| - 1], s[|s| - 1];
      assert s == r + [x];
      NumAppend(r, x, base);
      assert Num(r, base) * base == base * Num(r, base);
      DivModUnique(Num(s, base), base, Num(r, base), x);
      DigitsOfNum(r, base);
      if r == [] {
        assert Num(r, base) == 0;
      } else {
        assert ToDigits(Num(r, base), base) == r;
      }
    }
  }
}
