/**
 * How many links `GetAncestor` follows (src/chain.cpp:74-109): at most 2 * k * (k + 1) to go back less than 2^k blocks.
 * While the distance stays in [2^(k - 1), 2^k), every link uses up one-bits among the lowest k of the height.
 */
module SkipBound {
  import opened Arith
  import opened Powers
  import opened SkipHeight

  /** Whether the skip pointer of height `h` is followed to reach `t`: it does not lead past, and the parent's is no better. */
  predicate Follows(t: nat, skip: nat, prev: nat) {
    skip == t || (skip > t && !(prev < skip - 2 && prev >= t))
  }

  /** The height one link leads to. */
  function Next(h: nat, t: nat): (n: nat)
    requires t < h
    ensures t <= n < h
  {
    SkipGoesBack(h);
    if Follows(t, GetSkipHeight(h), GetSkipHeight(h - 1)) then GetSkipHeight(h) else h - 1
  }

  /** The number of links from height `h` down to `t`. */
  function Links(h: nat, t: nat): nat
    decreases h
  {
    if h <= t then 0 else 1 + Links(Next(h, t), t)
  }

  // ----- bits -----

  /** The one-bits among the lowest `k`. */
  function Ones(n: nat, k: nat): (r: nat)
    ensures r <= k
  {
    if k == 0 then 0 else n % 2 + Ones(n / 2, k - 1)
  }

  lemma ClearTwice(q: nat, n: nat)
    requires q > 0 && n == 2 * q
    ensures InvertLowestOne(n) == 2 * InvertLowestOne(q)
  {
    ClearsLowestOne(q);
    ClearsLowestOne(n);
    assert n / 2 == q;
  }

  lemma ClearOdd(q: nat, n: nat)
    requires n == 2 * q + 1
    ensures InvertLowestOne(n) == 2 * q
  {
    ClearsLowestOne(n);
  }

  lemma OnesTwice(q: nat, n: nat, k: nat, less: nat)
    requires n / 2 == q && k == less + 1
    ensures Ones(n, k) == n % 2 + Ones(q, less)
  {
  }

  lemma {:induction false} ClearOnes(n: nat, k: nat)
    requires n > 0
    ensures InvertLowestOne(n) == n - LowestOne(n)
    ensures LowestOne(n) < Pow2(k) ==> Ones(InvertLowestOne(n), k) == Ones(n, k) - 1
    ensures LowestOne(n) >= Pow2(k) ==> Ones(n, k) == Ones(InvertLowestOne(n), k) == 0
  {
    ClearsLowestOne(n);
    if k > 0 {
      var q, less := n / 2, k - 1;
      OnesTwice(q, n, k, less);
      if n % 2 == 1 {
        ClearOdd(q, n);
        OnesTwice(q, 2 * q, k, less);
      } else {
        ClearOnes(q, less);
        ClearTwice(q, n);
        OnesTwice(InvertLowestOne(q), InvertLowestOne(n), k, less);
      }
    }
  }

  /** Clearing never adds a bit, not even to zero. */
  lemma ClearAgain(n: nat, k: nat)
    ensures InvertLowestOne(n) <= n && Ones(InvertLowestOne(n), k) <= Ones(n, k) && (n % 2 == 0 ==> InvertLowestOne(n) % 2 == 0)
  {
    if n > 0 {
      ClearOnes(n, k);
      if n % 2 == 0 {
        assert LowestOne(n) == 2 * LowestOne(n / 2);
      }
    }
  }

  lemma {:induction false} LowestIsPower(n: nat, k: nat)
    requires n > 0 && LowestOne(n) > Pow2(k)
    ensures LowestOne(n) >= Pow2(k + 1)
  {
    if k > 0 {
      LowestIsPower(n / 2, k - 1);
    }
  }

  lemma {:induction false} LowestDivides(n: nat, k: nat) returns (q: nat)
    requires n > 0 && LowestOne(n) >= Pow2(k)
    ensures n == q * Pow2(k) && q > 0
  {
    if k == 0 {
      q := n;
    } else {
      q := LowestDivides(n / 2, k - 1);
      assert n == 2 * (q * Pow2(k - 1)) == q * Pow2(k);
    }
  }

  // ----- one level -----

  /** Bits left to use up; an odd height first has to become even. */
  function Pot(h: nat, k: nat): nat {
    2 * Ones(h - h % 2, k) + h % 2
  }

  lemma PotOdd(n: nat, n': nat, k: nat)
    requires n % 2 == 0 && n' == n + 1
    ensures Pot(n, k) == 2 * Ones(n, k) && Pot(n', k) == 2 * Ones(n, k) + 1
  {
    assert n' - n' % 2 == n;
  }

  /** A multiple of 2^k lies between target and height. */
  predicate Over(h: nat, t: nat, k: nat) {
    t / Pow2(k) < h / Pow2(k)
  }

  function Budget(h: nat, t: nat, k: nat): nat {
    Pot(h, k) + if Over(h, t, k) then 2 * k else 0
  }

  lemma EvenOnes(n: nat, k: nat)
    requires n % 2 == 0 && k > 0
    ensures Ones(n, k) <= k - 1
  {
  }

  lemma QuotientMono(a: nat, b: nat, p: nat)
    requires a <= b && p > 0
    ensures a / p <= b / p
  {
    QuotientAtMost(p, a / p, a % p + (b - a), b / p, b % p);
  }

  /** Using up a bit pays for a link. */
  lemma Cheaper(h: nat, n: nat, t: nat, k: nat, cost: nat)
    requires n <= h && Pot(n, k) + cost <= Pot(h, k)
    ensures Budget(n, t, k) + cost <= Budget(h, t, k)
  {
    QuotientMono(n, h, Pow2(k));
  }

  lemma OddStep(h: nat, t: nat, k: nat)
    requires h % 2 == 1 && t < h < t + Pow2(k)
    ensures Budget(Next(h, t), t, k) < Budget(h, t, k)
    ensures GetSkipHeight(h) >= t ==> Next(h, t) == GetSkipHeight(h)
  {
    if h > 1 {
      var m := h - 1;
      var z := InvertLowestOne(InvertLowestOne(m));
      OddNext(h, t, m, z);
      OddBits(h, t, k, m, z);
    }
    Cheaper(h, Next(h, t), t, k, 1);
  }

  /** The skip of an odd height is followed unless it leads past the target. */
  lemma OddNext(h: nat, t: nat, m: nat, z: nat)
    requires h == m + 1 && m % 2 == 0 && m > 0 && t < h && z == InvertLowestOne(InvertLowestOne(m))
    ensures GetSkipHeight(h) == z + 1 && Next(h, t) == if z + 1 >= t then z + 1 else m
  {
    var x := InvertLowestOne(m);
    ClearAgain(x, 0);
    assert GetSkipHeight(m) == x;
  }

  lemma OddBits(h: nat, t: nat, k: nat, m: nat, z: nat)
    requires h == m + 1 && m % 2 == 0 && m > 0 && t < h < t + Pow2(k) && z == InvertLowestOne(InvertLowestOne(m))
    ensures Pot(m, k) < Pot(h, k) && (z + 1 >= t ==> Pot(z + 1, k) < Pot(h, k))
  {
    var x := InvertLowestOne(m);
    ClearOnes(m, k);
    ClearAgain(m, k);
    ClearAgain(x, k);
    PotOdd(m, h, k);
    PotOdd(z, z + 1, k);
  }

  lemma PotLast(h: nat, k: nat)
    requires h % 2 == 0 && h > 0 && LowestOne(h) >= Pow2(k)
    ensures Pot(h, k) == 0
  {
    ClearOnes(h, k);
  }

  lemma PotAtMost(n: nat, n': nat, k: nat)
    requires n % 2 == 0 && n' == n + 1 && k > 0
    ensures Pot(n', k) < 2 * k
  {
    PotOdd(n, n', k);
    EvenOnes(n, k);
  }

  /** An even height whose bit is too far: the height is a multiple of 2^k, and the next one down ends in ones. */
  lemma OverStep(h: nat, t: nat, k: nat)
    requires h % 2 == 0 && k > 0 && t < h < t + Pow2(k) && LowestOne(h) >= Pow2(k)
    ensures Budget(h - 1, t, k) < Budget(h, t, k)
  {
    var q := LowestDivides(h, k);
    PotLast(h, k);
    PotAtMost(h - 2, h - 1, k);
    LastMultiple(h, t, Pow2(k), q);
  }

  lemma LastMultiple(h: nat, t: nat, p: nat, q: nat)
    requires q > 0 && h == q * p && t < h < t + p
    ensures (h - 1) / p == t / p < h / p
  {
    var less := q - 1;
    assert h == less * p + p;
    DivModUnique(h, p, q, 0);
    DivModUnique(h - 1, p, less, p - 1);
    DivModUnique(t, p, less, t - less * p);
  }

  /** What clearing bits of `h - 2` gives: the bits of `h` cleared, or a height close by when `h` is a multiple of 8. */
  lemma NearBits(h: nat, x: nat, y: nat, z: nat)
    requires h % 2 == 0 && h > 2 && x == InvertLowestOne(h) && y == InvertLowestOne(h - 2) && z == InvertLowestOne(y)
    ensures x == h - 2 || x == y || z >= x
  {
    ClearTwice(h / 2, h);
    ClearTwice(h / 2 - 1, h - 2);
    var q := h / 4;
    if h % 4 == 2 {
      ClearOdd(q, h / 2);
    } else {
      ClearOdd(q - 1, h / 2 - 1);
      NearFours(q, x, y, z);
    }
  }

  lemma NearFours(q: nat, x: nat, y: nat, z: nat)
    requires q > 0 && x == 2 * InvertLowestOne(2 * q) && y == 4 * (q - 1) && z == InvertLowestOne(y)
    ensures x == y || z >= x
  {
    ClearTwice(q, 2 * q);
    ClearsLowestOne(q);
    if q % 2 == 1 {
      ClearOdd(q / 2, q);
    } else {
      ClearOdd(q / 2 - 1, q - 1);
      ClearTwice(q - 1, 2 * (q - 1));
      ClearTwice(2 * (q - 1), y);
      assert LowestOne(q) >= 2;
    }
  }

  /** Two more bits are used up. */
  lemma TwoBits(h: nat, t: nat, k: nat, x: nat, y: nat, z: nat)
    requires h % 2 == 0 && h > 2 && x == InvertLowestOne(h) && y == InvertLowestOne(h - 2) && z == InvertLowestOne(y)
    requires h < t + Pow2(k) && x > t && z + 1 < x - 2 && z + 1 >= t
    ensures z % 2 == 0 && Ones(z, k) + 2 <= Ones(h, k)
  {
    NearBits(h, x, y, z);
    ClearOnes(h, k);
    ClearOnes(x, k);
    ClearAgain(h, k);
    ClearAgain(x, k);
    ClearAgain(InvertLowestOne(x), k);
  }

  /** An even height is passed by only for a better skip of its parent. */
  lemma Declined(h: nat, t: nat, x: nat, y: nat, z: nat)
    requires h % 2 == 0 && t < h && Next(h, t) != x && x == InvertLowestOne(h) > t
    requires y == InvertLowestOne(h - 2) && z == InvertLowestOne(y)
    ensures h > 2 && GetSkipHeight(h - 1) == z + 1 < x - 2 && t <= z + 1 < h - 1 == Next(h, t)
  {
    ClearAgain(h, 0);
    assert GetSkipHeight(h) == x;
  }

  /** That takes two links, and uses up two bits. */
  lemma DeclinedStep(h: nat, t: nat, k: nat)
    requires h % 2 == 0 && t < h < t + Pow2(k) && Next(h, t) != InvertLowestOne(h) > t
    ensures Next(h, t) == h - 1 > t && Next(h - 1, t) < h - 1 && Budget(Next(h - 1, t), t, k) + 2 <= Budget(h, t, k)
  {
    var x, y, less := InvertLowestOne(h), InvertLowestOne(h - 2), h - 1;
    var z := InvertLowestOne(y);
    Declined(h, t, x, y, z);
    TwoBits(h, t, k, x, y, z);
    OddStep(less, t, k);
    PotOdd(z, z + 1, k);
    Cheaper(h, z + 1, t, k, 2);
  }

  // ----- all levels -----

  function Bound(k: nat): nat {
    2 * k * (k + 1)
  }

  lemma BoundNext(k: nat, less: nat)
    requires k == less + 1
    ensures Bound(k) == Bound(less) + 4 * k
  {
    assert 2 * k * (k + 1) == 2 * k * less + 4 * k;
  }

  lemma {:induction false} WithinLevel(h: nat, t: nat, k: nat)
    requires k > 0 && t <= h < t + Pow2(k)
    ensures Links(h, t) <= Budget(h, t, k) + Bound(k - 1)
    decreases k, h
  {
    if h < t + Pow2(k - 1) {
      LinksBound(h, t, k - 1);
    } else if h % 2 == 1 {
      OddStep(h, t, k);
      WithinLevel(Next(h, t), t, k);
    } else if Next(h, t) == GetSkipHeight(h) {
      ClearOnes(h, k);
      ClearAgain(h, k);
      Cheaper(h, Next(h, t), t, k, 1);
      WithinLevel(Next(h, t), t, k);
    } else if GetSkipHeight(h) < t {
      ClearOnes(h, k);
      LowestIsPower(h, k - 1);
      OverStep(h, t, k);
      WithinLevel(h - 1, t, k);
    } else {
      DeclinedStep(h, t, k);
      WithinLevel(Next(h - 1, t), t, k);
    }
  }

  lemma BudgetAtMost(h: nat, t: nat, k: nat)
    requires k > 0
    ensures Budget(h, t, k) < 4 * k
  {
    EvenOnes(h - h % 2, k);
  }

  /** Going back less than 2^k blocks takes at most 2 * k * (k + 1) links. */
  lemma {:induction false} LinksBound(h: nat, t: nat, k: nat)
    requires t <= h < t + Pow2(k)
    ensures Links(h, t) <= Bound(k)
    decreases k, h + 1
  {
    if k > 0 {
      WithinLevel(h, t, k);
      BudgetAtMost(h, t, k);
      BoundNext(k, k - 1);
    }
  }
}
