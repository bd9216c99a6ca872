/** Little-endian sequences of 32-bit words and the numbers they stand for. */
module Limbs {
  import opened Arith
  import opened Powers

  const BASE: nat := 0x1_0000_0000
  type Limb = x: nat | x < 0x1_0000_0000

  /** The weight of limb `n`. */
  function Weight(n: nat): (w: nat)
    ensures w >= 1
  {
    if n == 0 then 1 else BASE * Weight(n - 1)
  }

  lemma {:induction false} WeightIsPow2(n: nat)
    ensures Weight(n) == Pow2(32 * n)
  {
    if n > 0 {
      WeightIsPow2(n - 1);
      Pow2Add(32, 32 * (n - 1));
      BaseIsPow2();
    }
  }

  lemma BaseIsPow2()
    ensures BASE == Pow2(32)
  {
    assert Pow2(4) == 16;
    Pow2Add(4, 4);
    Pow2Add(8, 8);
    Pow2Add(16, 16);
  }

  lemma {:induction false} WeightAdd(a: nat, b: nat)
    ensures Weight(a + b) == Weight(a) * Weight(b)
  {
    if a > 0 {
      WeightAdd(a - 1, b);
      assert BASE * Weight(a - 1) * Weight(b) == BASE * (Weight(a - 1) * Weight(b));
    }
  }

  lemma OneMore(x: nat, y: nat, w: nat)
    requires x < y
    ensures x * w + w <= y * w
  {
    MulMono(w, x + 1, y);
    Distribute(x, 1, w);
    assert w * (x + 1) == (x + 1) * w && w * y == y * w;
  }

  lemma Scaled(k: int, p: int, x: int, w: int)
    ensures k * (p + x * w) == k * p + x * (k * w)
  {
    assert k * (x * w) == x * (k * w);
    Distribute(p, x * w, k);
  }

  /** The number in the first `n` limbs. */
  function Prefix(s: seq<Limb>, n: nat): nat
    requires n <= |s|
  {
    if n == 0 then 0 else Prefix(s, n - 1) + s[n - 1] * Weight(n - 1)
  }

  function Number(s: seq<Limb>): nat {
    Prefix(s, |s|)
  }

  lemma {:induction false} PrefixBound(s: seq<Limb>, n: nat)
    requires n <= |s|
    ensures Prefix(s, n) < Weight(n)
  {
    if n > 0 {
      PrefixBound(s, n - 1);
      OneMore(s[n - 1], BASE, Weight(n - 1));
    }
  }

  lemma {:induction false} SamePrefix(s: seq<Limb>, t: seq<Limb>, n: nat)
    requires n <= |s| && n <= |t| && s[..n] == t[..n]
    ensures Prefix(s, n) == Prefix(t, n)
  {
    if n > 0 {
      assert s[..n - 1] == s[..n][..n - 1] && t[..n - 1] == t[..n][..n - 1];
      assert s[n - 1] == s[..n][n - 1] && t[n - 1] == t[..n][n - 1];
      SamePrefix(s, t, n - 1);
    }
  }

  ghost predicate IsZero(s: seq<Limb>) {
    forall j | 0 <= j < |s| :: s[j] == 0
  }

  lemma {:induction false} ZeroPrefix(s: seq<Limb>, n: nat)
    requires n <= |s| && forall j | 0 <= j < n :: s[j] == 0
    ensures Prefix(s, n) == 0
  {
    if n > 0 {
      ZeroPrefix(s, n - 1);
    }
  }

  /** Limbs from `k` on count `Weight(k)` times as much. */
  lemma {:induction false} PrefixSplit(s: seq<Limb>, k: nat, n: nat)
    requires k <= n <= |s|
    ensures Prefix(s, n) == Prefix(s, k) + Weight(k) * Prefix(s[k..], n - k)
  {
    if k < n {
      PrefixSplit(s, k, n - 1);
      WeightAdd(k, n - 1 - k);
      assert s[k..][n - 1 - k] == s[n - 1];
      Scaled(Weight(k), Prefix(s[k..], n - 1 - k), s[n - 1], Weight(n - 1 - k));
    }
  }

  lemma {:induction false} SuffixZero(s: seq<Limb>, k: nat, n: nat)
    requires k <= n <= |s| && forall j | k <= j < n :: s[j] == 0
    ensures Prefix(s, n) == Prefix(s, k)
  {
    if k < n {
      SuffixZero(s, k, n - 1);
    }
  }

  /** Changing one limb changes the number by the difference at its weight. */
  lemma {:induction false} OneLimb(s: seq<Limb>, k: nat, x: Limb, n: nat)
    requires k < |s| && n <= |s|
    ensures Prefix(s[k := x], n) == Prefix(s, n) + if k < n then (x - s[k]) * Weight(k) else 0
  {
    if n > 0 {
      OneLimb(s, k, x, n - 1);
      if k == n - 1 {
        assert x * Weight(k) == s[k] * Weight(k) + (x - s[k]) * Weight(k);
      }
    }
  }

  lemma Distribute(a: int, b: int, w: int)
    ensures (a + b) * w == a * w + b * w
  {
  }

  /** A sum of words put back into a limb and a carry. */
  lemma CarryStep(i: nat, n: nat, lo: nat, carry: nat)
    requires n == lo + BASE * carry
    ensures lo * Weight(i) + carry * Weight(i + 1) == n * Weight(i)
  {
    var w := Weight(i);
    assert carry * (BASE * w) == (BASE * carry) * w;
    Distribute(lo, BASE * carry, w);
  }

  /** Nothing but the number modulo 2^(32n) fits in `n` limbs. */
  lemma Wraps(s: seq<Limb>, x: int, t: int)
    requires Number(s) + t * Weight(|s|) == x
    ensures Number(s) == x % Weight(|s|)
  {
    PrefixBound(s, |s|);
    assert t * Weight(|s|) == Weight(|s|) * t;
    DivModUnique(x, Weight(|s|), t, Number(s));
  }

  // ----- order -----

  /** The highest limb that differs decides. */
  lemma HighestDecides(s: seq<Limb>, t: seq<Limb>, i: nat)
    requires i < |s| == |t| && s[i] < t[i] && s[i + 1..] == t[i + 1..]
    ensures Number(s) < Number(t)
  {
    PrefixSplit(s, i + 1, |s|);
    PrefixSplit(t, i + 1, |t|);
    PrefixBound(s, i);
    OneMore(s[i], t[i], Weight(i));
    assert Prefix(s, i + 1) < Prefix(t, i + 1);
  }

  // ----- or -----

  function BitOr(x: nat, y: nat): nat {
    if x == 0 && y == 0 then 0 else 2 * BitOr(x / 2, y / 2) + if x % 2 == 1 || y % 2 == 1 then 1 else 0
  }

  /** When the bits of `x` start above those of `y`, or is addition. */
  lemma {:induction false} OrIsSum(x: nat, y: nat, k: nat)
    requires x % Pow2(k) == 0 && y < Pow2(k)
    ensures BitOr(x, y) == x + y
  {
    if k == 0 {
      OrZero(x);
    } else if x != 0 || y != 0 {
      var p := Pow2(k - 1);
      assert x == (2 * p) * (x / (2 * p));
      var q := x / (2 * p);
      assert (2 * p) * q == 2 * (p * q);
      DivModUnique(x / 2, p, q, 0);
      OrIsSum(x / 2, y / 2, k - 1);
    }
  }

  lemma {:induction false} OrZero(x: nat)
    ensures BitOr(x, 0) == x
  {
    if x != 0 {
      OrZero(x / 2);
    }
  }
}
