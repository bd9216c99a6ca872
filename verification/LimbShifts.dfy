/** Shifting limb sequences: every shift is a window of the unbounded left shift by less than one limb. */
module LimbShifts {
  import opened Arith
  import opened Powers
  import opened Limbs

  /** The part of `x << s` that stays in the word. */
  function Low(x: Limb, s: nat): Limb
    requires s <= 32
  {
    (x * Pow2(s)) % BASE
  }

  /** The part of `x << s` that moves to the next word. */
  function High(x: Limb, s: nat): (h: Limb)
    requires s <= 32
  {
    QuotientShrinks(x, Pow2(32 - s));
    x / Pow2(32 - s)
  }

  lemma SplitProduct(x: nat, p: nat, q: nat)
    requires p > 0 && q > 0 && p * q == BASE
    ensures
      var h, r := x / q, x % q;
      && x * p == r * p + BASE * h
      && (x * p) / BASE == h && (x * p) % BASE == r * p && (r * p) % p == 0 && 0 <= r * p && r * p + p <= BASE
  {
    var h, r := x / q, x % q;
    assert x == q * h + r;
    assert (q * h + r) * p == (p * q) * h + r * p;
    OneMore(r, q, p);
    assert q * p == p * q;
    MulMono(p, 0, r);
    DivModUnique(x * p, BASE, h, r * p);
    DivModUnique(r * p, p, r, 0);
  }

  lemma QuotientBelow(x: nat, p: nat, q: nat)
    requires q > 0 && x < p * q
    ensures x / q < p
  {
    var h := x / q;
    assert x == q * h + x % q;
    if h >= p {
      MulMono(q, p, h);
    }
  }

  lemma WordShift(x: Limb, s: nat)
    requires s <= 32
    ensures x * Pow2(s) == Low(x, s) + BASE * High(x, s)
    ensures High(x, s) < Pow2(s) && Low(x, s) % Pow2(s) == 0 && Low(x, s) + Pow2(s) <= BASE
  {
    BaseIsPow2();
    Pow2Add(s, 32 - s);
    SplitProduct(x, Pow2(s), Pow2(32 - s));
    QuotientBelow(x, Pow2(s), Pow2(32 - s));
  }

  lemma ShiftedFits(a: seq<Limb>, s: nat, i: nat, m: int)
    requires i <= |a| && s <= 32
    ensures (if 0 <= m < i then Low(a[m], s) else 0) + (if 0 < m <= i then High(a[m - 1], s) else 0) < BASE
  {
    if 0 <= m < i {
      WordShift(a[m], s);
    }
    if 0 < m <= i {
      WordShift(a[m - 1], s);
    }
  }

  /** Limb `m` of the unbounded shift, once limbs below `i` of the operand have been processed. */
  function ShiftedBy(a: seq<Limb>, s: nat, i: nat, m: int): Limb
    requires i <= |a| && s <= 32
  {
    ShiftedFits(a, s, i, m);
    (if 0 <= m < i then Low(a[m], s) else 0) + if 0 < m <= i then High(a[m - 1], s) else 0
  }

  function Shifted(a: seq<Limb>, s: nat): (z: seq<Limb>)
    requires s <= 32
    ensures |z| == |a| + 1
    ensures forall m | 0 <= m <= |a| :: z[m] == ShiftedBy(a, s, |a|, m)
  {
    seq(|a| + 1, m => ShiftedBy(a, s, |a|, m))
  }

  lemma ShiftStep(v: nat, p: nat, x: nat, s: nat, w: nat, c: nat, lo: nat, hi: nat)
    requires v + c * w == p * Pow2(s) && x * Pow2(s) == lo + BASE * hi
    ensures v + (lo + c) * w + hi * (BASE * w) == (p + x * w) * Pow2(s)
  {
    var q := Pow2(s);
    Distribute(lo, c, w);
    Distribute(p, x * w, q);
    assert (x * w) * q == (x * q) * w;
    Distribute(lo, BASE * hi, w);
    assert (BASE * hi) * w == hi * (BASE * w);
  }

  function CarryInto(a: seq<Limb>, s: nat, m: nat): nat
    requires s <= 32 && m <= |a|
  {
    if m > 0 then High(a[m - 1], s) else 0
  }

  lemma {:induction false} ShiftedPrefix(a: seq<Limb>, s: nat, m: nat)
    requires s <= 32 && m <= |a|
    ensures Prefix(Shifted(a, s), m) + CarryInto(a, s, m) * Weight(m) == Prefix(a, m) * Pow2(s)
  {
    if m > 0 {
      ShiftedPrefix(a, s, m - 1);
      NextShifted(a, s, m - 1, Shifted(a, s));
    }
  }

  lemma NextShifted(a: seq<Limb>, s: nat, m: nat, z: seq<Limb>)
    requires s <= 32 && m < |a| && z == Shifted(a, s)
    requires Prefix(z, m) + CarryInto(a, s, m) * Weight(m) == Prefix(a, m) * Pow2(s)
    ensures Prefix(z, m + 1) + CarryInto(a, s, m + 1) * Weight(m + 1) == Prefix(a, m + 1) * Pow2(s)
  {
    WordShift(a[m], s);
    assert z[m] == ShiftedBy(a, s, |a|, m);
    ShiftStep(Prefix(z, m), Prefix(a, m), a[m], s, Weight(m), CarryInto(a, s, m), Low(a[m], s), High(a[m], s));
  }

  /** The unbounded shift multiplies by 2^s. */
  lemma ShiftedNumber(a: seq<Limb>, s: nat)
    requires s <= 32
    ensures Number(Shifted(a, s)) == Number(a) * Pow2(s)
  {
    ShiftedPrefix(a, s, |a|);
    if |a| > 0 {
      assert Shifted(a, s)[|a|] == High(a[|a| - 1], s);
    }
  }

  // ----- left -----

  lemma WholeShift(x: nat, k: nat, s: nat)
    ensures x * Pow2(32 * k + s) == Weight(k) * (x * Pow2(s))
  {
    Pow2Add(32 * k, s);
    WeightIsPow2(k);
    assert x * (Weight(k) * Pow2(s)) == Weight(k) * (x * Pow2(s));
  }

  lemma LeftShift(a: seq<Limb>, k: nat, s: nat, r: seq<Limb>)
    requires s < 32 && |r| == |a|
    requires forall j | 0 <= j < |r| :: r[j] == ShiftedBy(a, s, |a|, j - k)
    ensures Number(r) == Number(a) * Pow2(32 * k + s) % Weight(|a|)
  {
    ShiftedNumber(a, s);
    WholeShift(Number(a), k, s);
    if k >= |a| {
      ZeroPrefix(r, |a|);
      LeftOver(r, k, Number(a) * Pow2(s));
    } else {
      LeftWindow(a, k, s, r);
    }
  }

  lemma LeftOver(r: seq<Limb>, k: nat, z: nat)
    requires k >= |r| && Number(r) == 0
    ensures Number(r) == Weight(k) * z % Weight(|r|)
  {
    var n := |r|;
    WeightAdd(n, k - n);
    var w, v := Weight(n), Weight(k - n);
    assert w * v * z == (v * z) * w;
    Wraps(r, Weight(k) * z, v * z);
  }

  lemma LeftWindow(a: seq<Limb>, k: nat, s: nat, r: seq<Limb>)
    requires s < 32 && |r| == |a| && k < |a|
    requires forall j | 0 <= j < |r| :: r[j] == ShiftedBy(a, s, |a|, j - k)
    ensures Number(r) == Weight(k) * Number(Shifted(a, s)) % Weight(|a|)
  {
    LeftDigits(a, k, s, r);
    LeftFits(r, k, Shifted(a, s));
  }

  lemma LeftDigits(a: seq<Limb>, k: nat, s: nat, r: seq<Limb>)
    requires s < 32 && |r| == |a| && k < |a|
    requires forall j | 0 <= j < |r| :: r[j] == ShiftedBy(a, s, |a|, j - k)
    ensures Number(r) == Weight(k) * Prefix(Shifted(a, s), |a| - k)
  {
    var n, z := |a|, Shifted(a, s);
    forall j | 0 <= j < k ensures r[j] == 0 {
      assert r[j] == ShiftedBy(a, s, n, j - k);
    }
    var u := r[k..][..n - k];
    forall m | 0 <= m < n - k ensures u[m] == z[m] {
      assert r[k + m] == ShiftedBy(a, s, n, k + m - k);
    }
    WindowNumber(r, k, z);
  }

  lemma WindowNumber(r: seq<Limb>, k: nat, z: seq<Limb>)
    requires k <= |r| < |z| && (forall j | 0 <= j < k :: r[j] == 0) && r[k..][..|r| - k] == z[..|r| - k]
    ensures Number(r) == Weight(k) * Prefix(z, |r| - k)
  {
    ZeroLow(r, k);
    SamePrefix(r[k..], z, |r| - k);
  }

  lemma ZeroLow(r: seq<Limb>, k: nat)
    requires k <= |r| && forall j | 0 <= j < k :: r[j] == 0
    ensures Number(r) == Weight(k) * Prefix(r[k..], |r| - k)
  {
    ZeroPrefix(r, k);
    PrefixSplit(r, k, |r|);
  }

  lemma LeftFits(r: seq<Limb>, k: nat, z: seq<Limb>)
    requires k < |r| && |z| == |r| + 1 && Number(r) == Weight(k) * Prefix(z, |r| - k)
    ensures Number(r) == Weight(k) * Number(z) % Weight(|r|)
  {
    var n := |r|;
    PrefixSplit(z, n - k, n + 1);
    WeightAdd(k, n - k);
    LeftRest(r, n, Weight(k), Weight(n - k), Prefix(z, n - k), Prefix(z[n - k..], k + 1));
  }

  lemma LeftRest(r: seq<Limb>, n: nat, wk: nat, wr: nat, p: nat, q: nat)
    requires |r| == n && Weight(n) == wk * wr && Number(r) == wk * p
    ensures Number(r) == wk * (p + wr * q) % Weight(n)
  {
    assert wk * (p + wr * q) == wk * p + wk * (wr * q);
    assert wk * (wr * q) == q * (wk * wr);
    Wraps(r, wk * (p + wr * q), q);
  }

  // ----- right -----

  lemma RightShift(a: seq<Limb>, k: nat, s: nat, r: seq<Limb>)
    requires s < 32 && |r| == |a|
    requires forall j | 0 <= j < |r| :: r[j] == ShiftedBy(a, 32 - s, |a|, j + k + 1)
    ensures Number(r) == Number(a) / Pow2(32 * k + s)
  {
    if k >= |a| {
      ZeroPrefix(r, |a|);
      PrefixBound(a, |a|);
      WeightIsPow2(|a|);
      Pow2Mono(32 * |a|, 32 * k + s);
      DivModUnique(Number(a), Pow2(32 * k + s), 0, Number(a));
    } else {
      RightWindow(a, k, s, r);
      ShiftedNumber(a, 32 - s);
      WeightIsPow2(k + 1);
      Pow2Add(32 * k + s, 32 - s);
      PrefixBound(Shifted(a, 32 - s), k + 1);
      Cancel(Number(a), Pow2(32 - s), Pow2(32 * k + s), Number(r), Prefix(Shifted(a, 32 - s), k + 1));
    }
  }

  lemma RightWindow(a: seq<Limb>, k: nat, s: nat, r: seq<Limb>)
    requires s < 32 && |r| == |a| && k < |a|
    requires forall j | 0 <= j < |r| :: r[j] == ShiftedBy(a, 32 - s, |a|, j + k + 1)
    ensures Number(Shifted(a, 32 - s)) == Prefix(Shifted(a, 32 - s), k + 1) + Weight(k + 1) * Number(r)
  {
    var n, m, z := |a|, k + 1, Shifted(a, 32 - s);
    var top := z[m..];
    PrefixSplit(z, m, n + 1);
    SuffixZero(r, n - k, n);
    WindowIs(a, k, 32 - s, r, z, top);
    SamePrefix(r, top, n - k);
  }

  lemma WindowIs(a: seq<Limb>, k: nat, s: nat, r: seq<Limb>, z: seq<Limb>, top: seq<Limb>)
    requires 0 < s <= 32 && |r| == |a| && k < |a| && z == Shifted(a, s) && top == z[k + 1..]
    requires forall j | 0 <= j < |r| :: r[j] == ShiftedBy(a, s, |a|, j + k + 1)
    ensures r[..|a| - k] == top[..|a| - k]
  {
    forall j | 0 <= j < |a| - k ensures r[j] == top[j] {
      assert top[j] == z[j + k + 1];
    }
  }

  lemma Cancel(x: nat, q: nat, p: nat, y: nat, r: nat)
    requires q > 0 && p > 0 && x * q == r + p * q * y && r < p * q
    ensures y == x / p
  {
    assert x * q == q * (p * y) + r by {
      assert p * q * y == q * (p * y);
    }
    var d := x - p * y;
    assert x * q == q * x && q * d == q * x - q * (p * y);
    if d < 0 {
      MulMono(q, d, -1);
    }
    assert q * p == p * q;
    if d >= p {
      MulMono(q, p, d);
    }
    DivModUnique(x, p, y, d);
  }

  // ----- bits -----

  /** The highest set bit of the top limb is the highest set bit of the number. */
  lemma TopBit(s: seq<Limb>, pos: nat, bit: nat)
    requires pos < |s| && Pow2(bit) <= s[pos] < Pow2(bit + 1) && forall j | pos < j < |s| :: s[j] == 0
    ensures Pow2(32 * pos + bit) <= Number(s) < Pow2(32 * pos + bit + 1)
  {
    SuffixZero(s, pos + 1, |s|);
    PrefixBound(s, pos);
    WeightIsPow2(pos);
    Pow2Add(32 * pos, bit);
    Pow2Add(32 * pos, bit + 1);
    Between(Prefix(s, pos), Weight(pos), s[pos], Pow2(bit), Pow2(bit + 1));
  }

  lemma Between(v: nat, w: nat, x: nat, lo: nat, hi: nat)
    requires v < w && lo <= x < hi
    ensures w * lo <= v + x * w < w * hi
  {
    MulMono(w, lo, x);
    OneMore(x, hi, w);
    assert w * x == x * w && w * hi == hi * w;
  }

  /** What one turn of a shift loop does to each limb. */
  lemma ShiftedNext(a: seq<Limb>, s: nat, i: nat, m: int)
    requires i < |a| && s <= 32
    ensures ShiftedBy(a, s, i + 1, m) ==
      if m == i then BitOr(ShiftedBy(a, s, i, m), Low(a[i], s))
      else if m == i + 1 then BitOr(ShiftedBy(a, s, i, m), High(a[i], s))
      else ShiftedBy(a, s, i, m)
  {
    WordShift(a[i], s);
    if m == i {
      if i > 0 {
        WordShift(a[i - 1], s);
      }
      OrCommutes(ShiftedBy(a, s, i, m), Low(a[i], s));
      OrIsSum(Low(a[i], s), ShiftedBy(a, s, i, m), s);
    } else if m == i + 1 {
      OrCommutes(0, High(a[i], s));
      OrZero(High(a[i], s));
    }
  }

  /** After `i` turns of a shift loop, limb `j` of the result is limb `j + off` of the unbounded shift so far. */
  ghost predicate Turning(r: seq<Limb>, a: seq<Limb>, s: nat, i: nat, off: int)
    requires i <= |a| && s <= 32
  {
    forall j | 0 <= j < |r| :: r[j] == ShiftedBy(a, s, i, j + off)
  }

  lemma FirstHalf(a: seq<Limb>, s: nat, i: nat)
    requires i < |a| && s <= 32
    ensures ShiftedBy(a, s, i, i + 1) == 0 && BitOr(0, High(a[i], s)) == High(a[i], s) == ShiftedBy(a, s, i + 1, i + 1)
    ensures s == 0 ==> High(a[i], s) == 0
  {
    ShiftedNext(a, s, i, i + 1);
    WordShift(a[i], s);
  }

  lemma SecondHalf(a: seq<Limb>, s: nat, i: nat)
    requires i < |a| && s <= 32
    ensures BitOr(ShiftedBy(a, s, i, i), Low(a[i], s)) == ShiftedBy(a, s, i + 1, i)
  {
    ShiftedNext(a, s, i, i);
  }

  lemma NothingLow(x: Limb, y: Limb)
    ensures Low(x, 32) == 0 && BitOr(y, Low(x, 32)) == y
  {
    WordShift(x, 32);
    BaseIsPow2();
    OrZero(y);
  }

  lemma Turned(r: seq<Limb>, r': seq<Limb>, a: seq<Limb>, s: nat, i: nat, off: int)
    requires i < |a| && s <= 32 && |r'| == |r| && Turning(r, a, s, i, off)
    requires 0 <= i - off < |r| ==> r'[i - off] == ShiftedBy(a, s, i + 1, i)
    requires 0 <= i + 1 - off < |r| ==> r'[i + 1 - off] == ShiftedBy(a, s, i + 1, i + 1)
    requires forall j | 0 <= j < |r| && j != i - off && j != i + 1 - off :: r'[j] == r[j]
    ensures Turning(r', a, s, i + 1, off)
  {
    forall j | 0 <= j < |r'| ensures r'[j] == ShiftedBy(a, s, i + 1, j + off) {
      ShiftedNext(a, s, i, j + off);
      assert r[j] == ShiftedBy(a, s, i, j + off);
    }
  }

  lemma {:induction false} OrCommutes(x: nat, y: nat)
    ensures BitOr(x, y) == BitOr(y, x)
  {
    if x != 0 || y != 0 {
      OrCommutes(x / 2, y / 2);
    }
  }

  // ----- single bits -----

  /** No bit below position `n` is set. */
  ghost predicate ClearBelow(s: seq<Limb>, n: nat) {
    forall j | 0 <= j < |s| :: LimbClear(s[j], n - 32 * j)
  }

  ghost predicate LimbClear(x: Limb, n: int) {
    (n >= 32 ==> x == 0) && (0 < n < 32 ==> x % Pow2(n) == 0)
  }

  lemma EvenMultiple(x: nat, k: nat)
    requires x % Pow2(k + 1) == 0
    ensures x % Pow2(k) == 0 && (x + Pow2(k)) % Pow2(k) == 0
  {
    var p, q := Pow2(k), x / Pow2(k + 1);
    assert x == (2 * p) * q == p * (2 * q);
    DivModUnique(x, p, 2 * q, 0);
    assert p * (2 * q + 1) == p * (2 * q) + p;
    DivModUnique(x + p, p, 2 * q + 1, 0);
  }

  lemma LimbClearBelow(x: Limb, n: int)
    requires LimbClear(x, n + 1)
    ensures LimbClear(x, n)
  {
    if 0 < n < 31 {
      EvenMultiple(x, n);
    } else if n == 31 {
      DivModUnique(0, Pow2(31), 0, 0);
    }
  }

  lemma ClearFewer(s: seq<Limb>, n: nat)
    requires ClearBelow(s, n + 1)
    ensures ClearBelow(s, n)
  {
    forall j | 0 <= j < |s| ensures LimbClear(s[j], n - 32 * j) {
      LimbClearBelow(s[j], n - 32 * j);
    }
  }

  /** Setting bit `k` of a limb with no bit at or below it. */
  lemma LimbSetBit(x: Limb, k: nat)
    requires k < 32 && LimbClear(x, k + 1)
    ensures BitOr(x, Pow2(k)) == x + Pow2(k) < BASE && LimbClear(x + Pow2(k), k)
  {
    if k == 31 {
      DivModUnique(0, Pow2(k + 1), 0, 0);
    }
    EvenMultiple(x, k);
    LimbRoom(x, k);
    OrIsSum(x, Pow2(k), k + 1);
  }

  lemma LimbRoom(x: Limb, k: nat)
    requires k < 32 && x % Pow2(k + 1) == 0
    ensures x + Pow2(k + 1) <= BASE
  {
    BaseIsPow2();
    Pow2Add(k + 1, 31 - k);
    RoomAbove(x, Pow2(k + 1), Pow2(31 - k));
  }

  lemma RoomAbove(x: nat, p: nat, q: nat)
    requires p > 0 && x % p == 0 && x < p * q
    ensures x + p <= p * q
  {
    var d := x / p;
    assert x == p * d;
    if d >= q {
      MulMono(p, q, d);
    }
    MulMono(p, d + 1, q);
    assert p * (d + 1) == p * d + p;
  }

  lemma SetBitValue(s: seq<Limb>, n: nat)
    requires n < 32 * |s| && ClearBelow(s, n + 1)
    ensures
      var j, k := n / 32, n % 32;
      && BitOr(s[j], Pow2(k)) < BASE
      && var t := s[j := BitOr(s[j], Pow2(k))];
      Number(t) == Number(s) + Pow2(n) && ClearBelow(t, n)
  {
    var j, k := n / 32, n % 32;
    assert LimbClear(s[j], n + 1 - 32 * j);
    LimbSetBit(s[j], k);
    var x: Limb := BitOr(s[j], Pow2(k));
    BitWeight(s, n, x);
    ClearFewer(s, n);
    var t := s[j := x];
    forall i | 0 <= i < |t| ensures LimbClear(t[i], n - 32 * i) {
      assert LimbClear(s[i], n - 32 * i);
    }
  }

  lemma BitWeight(s: seq<Limb>, n: nat, x: Limb)
    requires n < 32 * |s| && x == s[n / 32] + Pow2(n % 32)
    ensures Number(s[n / 32 := x]) == Number(s) + Pow2(n)
  {
    var j, k := n / 32, n % 32;
    OneLimb(s, j, x, |s|);
    WeightIsPow2(j);
    Pow2Add(32 * j, k);
    assert Pow2(k) * Weight(j) == Weight(j) * Pow2(k);
  }
}
