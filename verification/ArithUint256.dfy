/**
 * The class `base_uint` (src/arith_uint256.h, src/arith_uint256.cpp): limb loops that compute modulo 2^(32 * width).
 * Masks and word shifts are written as remainders, quotients and products; `|=` is `BitOr`.
 */
module ArithUint256 {
  import opened Arith
  import opened Powers
  import opened Limbs
  import opened LimbShifts

  /** Storing limb `i` of a number whose lower limbs are done. */
  lemma StoreLimb(s: seq<Limb>, i: nat, x: Limb)
    requires i < |s|
    ensures Prefix(s[i := x], i) == Prefix(s, i) && Prefix(s[i := x], i + 1) == Prefix(s, i) + x * Weight(i)
  {
    OneLimb(s, i, x, i);
  }

  lemma TwoLimbs(s: seq<Limb>)
    requires |s| >= 2
    ensures Prefix(s, 2) == s[0] + BASE * s[1] && Weight(2) == BASE * BASE
  {
    assert Weight(0) == 1 && Weight(1) == BASE;
    assert Prefix(s, 1) == s[0];
  }

  lemma AddStep(v: nat, x: nat, y: nat, i: nat, a: nat, b: nat, carry: nat, lo: nat, carry': nat)
    requires v + carry * Weight(i) == x + y
    requires carry + a + b == lo + BASE * carry'
    ensures v + lo * Weight(i) + carry' * Weight(i + 1) == x + a * Weight(i) + (y + b * Weight(i))
  {
    CarryStep(i, carry + a + b, lo, carry');
    Distribute(carry + a, b, Weight(i));
    Distribute(carry, a, Weight(i));
  }

  lemma MulStep(v: nat, x: nat, i: nat, a: nat, b: nat, carry: nat, lo: nat, carry': nat)
    requires v + carry * Weight(i) == x * b
    requires carry + b * a == lo + BASE * carry'
    ensures v + lo * Weight(i) + carry' * Weight(i + 1) == (x + a * Weight(i)) * b
  {
    var w := Weight(i);
    CarryStep(i, carry + b * a, lo, carry');
    Distribute(carry, b * a, w);
    Distribute(x, a * w, b);
    assert (b * a) * w == (a * w) * b;
  }

  lemma ProductAtMost(x: nat, y: nat, m: nat)
    requires x <= m && y <= m
    ensures 0 <= x * y <= m * m
  {
    MulMono(x, y, m);
    MulMono(m, x, m);
  }

  lemma FitsIn64(p: nat, c: nat, d: nat)
    requires p <= 0xffff_fffe_0000_0001 && c < BASE && d < BASE
    ensures c + d + p < 0x1_0000_0000_0000_0000 && (c + d + p) / BASE < BASE
  {
  }

  /** A product of two words and two more words fit in 64 bits, and the carry fits in a word again. */
  lemma ProductFits(x: Limb, y: Limb, c: Limb, d: Limb)
    ensures 0 <= c + d + x * y < 0x1_0000_0000_0000_0000
    ensures (c + d + x * y) / BASE < BASE
  {
    ProductAtMost(x, y, 0xffff_ffff);
    FitsIn64(x * y, c, d);
  }

  lemma OneMoreLimb(x: seq<Limb>, i: nat)
    requires i < |x| && Prefix(x, i) + 1 == Weight(i) && (x[i] + 1) % BASE == 0
    ensures Prefix(x, i + 1) + 1 == Weight(i + 1)
  {
    Distribute(x[i], 1, Weight(i));
  }

  lemma SameAbove(x: seq<Limb>, y: seq<Limb>, k: nat)
    requires k <= |x| == |y| && x[k..] == y[k..]
    ensures Number(y) - Number(x) == Prefix(y, k) - Prefix(x, k)
  {
    PrefixSplit(x, k, |x|);
    PrefixSplit(y, k, |y|);
  }

  lemma OneUp(x: seq<Limb>, y: seq<Limb>, i: nat)
    requires i < |x| == |y| && Prefix(x, i) + 1 == Weight(i) && Prefix(y, i) == 0 && y[i] as int == x[i] as int + 1
    ensures Prefix(y, i + 1) == Prefix(x, i + 1) + 1
  {
    var w, c := Weight(i), x[i];
    assert (c + 1) * w == c * w + w;
    assert Prefix(x, i + 1) == w - 1 + c * w;
  }

  /** Carrying one past `i` full limbs. */
  lemma Incremented(x: seq<Limb>, y: seq<Limb>, i: nat)
    requires i < |x| == |y| && Prefix(x, i) + 1 == Weight(i)
    requires (forall j | 0 <= j < i :: y[j] == 0) && y[i] == (x[i] + 1) % BASE && y[i + 1..] == x[i + 1..]
    requires y[i] == 0 ==> i == |x| - 1
    ensures Number(y) == (Number(x) + 1) % Weight(|x|)
  {
    ZeroPrefix(y, i);
    if y[i] == 0 {
      OneMoreLimb(x, i);
      Wraps(y, Number(x) + 1, 1);
    } else {
      OneUp(x, y, i);
      SameAbove(x, y, i + 1);
      Wraps(y, Number(x) + 1, 0);
    }
  }

  lemma SubtractWraps(x: nat, y: nat, m: nat)
    requires x < m && y < m
    ensures (x + (m - y) % m) % m == (x - y) % m
  {
    var d := (x - y) % m;
    if y == 0 {
      DivModUnique(m, m, 1, 0);
    } else {
      DivModUnique(m - y, m, 0, m - y);
      if x >= y {
        DivModUnique(x - y, m, 0, x - y);
        DivModUnique(x + (m - y), m, 1, x - y);
      } else {
        DivModUnique(x - y, m, -1, x - y + m);
        DivModUnique(x + (m - y), m, 0, x - y + m);
      }
    }
  }

  lemma RowStep(v: nat, px: nat, pb: nat, i: nat, j: nat, x: nat, a: nat, b: nat, carry: nat, lo: nat, carry': nat)
    requires v + carry * Weight(i + j) == px + a * Weight(j) * pb
    requires carry + x + a * b == lo + BASE * carry'
    ensures v + lo * Weight(i + j) + carry' * Weight(i + j + 1) == px + x * Weight(i + j) + a * Weight(j) * (pb + b * Weight(i))
  {
    var w, wi, wj := Weight(i + j), Weight(i), Weight(j);
    CarryStep(i + j, carry + x + a * b, lo, carry');
    Distribute(carry + x, a * b, w);
    Distribute(carry, x, w);
    WeightAdd(j, i);
    Scaled(a * wj, pb, b, wi);
    RowProduct(a, b, wi, wj);
  }

  lemma RowProduct(a: nat, b: nat, wi: nat, wj: nat)
    ensures (a * b) * (wj * wi) == b * (a * wj * wi)
  {
    assert (a * b) * (wj * wi) == b * (a * (wj * wi));
    assert a * (wj * wi) == a * wj * wi;
  }

  lemma RowEnd(v: nat, x: nat, b: seq<Limb>, j: nat, a: nat, carry: nat) returns (over: nat)
    requires j <= |b| && v + carry * Weight(|b|) == x + a * Weight(j) * Prefix(b, |b| - j)
    ensures v + over * Weight(|b|) == x + a * Weight(j) * Number(b)
  {
    var k, r := |b| - j, Prefix(b[|b| - j..], j);
    PrefixSplit(b, k, |b|);
    WeightAdd(k, j);
    MulMono(a, 0, r);
    over := carry + a * r;
    RowSum(v, x, carry, a, r, Prefix(b, k), Weight(k), Weight(j));
  }

  lemma RowSum(v: nat, x: nat, carry: nat, a: nat, r: nat, p: nat, wk: nat, wj: nat)
    requires v + carry * (wk * wj) == x + a * wj * p
    ensures v + (carry + a * r) * (wk * wj) == x + a * wj * (p + wk * r)
  {
    Distribute(carry, a * r, wk * wj);
    Distribute(p, wk * r, a * wj);
    RowTail(a, r, wk, wj);
    assert a * wj * p == p * (a * wj) && a * wj * (wk * r) == (wk * r) * (a * wj);
    assert a * wj * (p + wk * r) == (p + wk * r) * (a * wj);
  }

  lemma RowTail(a: nat, r: nat, wk: nat, wj: nat)
    ensures (a * wj) * (wk * r) == (a * r) * (wk * wj)
  {
    assert (a * wj) * (wk * r) == a * (wj * (wk * r));
    assert wj * (wk * r) == r * (wk * wj);
    assert (a * r) * (wk * wj) == a * (r * (wk * wj));
  }

  /** The inner loop of `bits`. */
  method HighestBit(x: Limb) returns (bits: nat)
    requires x != 0
    ensures bits < 32 && Pow2(bits) <= x < Pow2(bits + 1)
  {
    BaseIsPow2();
    bits := 31;
    while bits > 0
      invariant bits < 32 && x < Pow2(bits + 1)
    {
      BitTest(x, Pow2(bits));
      if (x / Pow2(bits)) % 2 == 1 {
        return;
      }
      bits := bits - 1;
    }
  }

  lemma BitTest(x: nat, p: nat)
    requires p > 0 && x < 2 * p
    ensures (x / p) % 2 == 1 <==> x >= p
  {
    if x >= p {
      DivModUnique(x, p, 1, x - p);
    } else {
      DivModUnique(x, p, 0, x);
    }
  }

  // ----- division -----

  /** `q` holds the quotient bits above `shift`, and `num` is what is left to divide. */
  ghost predicate Dividing(num: nat, div: nat, q: nat, n: nat, d: nat, shift: int)
    requires shift >= -1
  {
    d > 0 && num + q * d == n && num < d * Pow2(shift + 1) && (shift >= 0 ==> div == d * Pow2(shift))
  }

  lemma DivideStep(num: nat, div: nat, q: nat, n: nat, d: nat, shift: nat)
    requires Dividing(num, div, q, n, d, shift)
    ensures num >= div ==> Dividing(num - div, div / 2, q + Pow2(shift), n, d, shift - 1)
    ensures num < div ==> Dividing(num, div / 2, q, n, d, shift - 1)
  {
    var p := Pow2(shift);
    Distribute(q, p, d);
    assert p * d == d * p;
    assert d * (2 * p) == 2 * (d * p);
    if shift > 0 {
      assert d * p == 2 * (d * Pow2(shift - 1)) by {
        assert d * (2 * Pow2(shift - 1)) == 2 * (d * Pow2(shift - 1));
      }
    }
  }

  lemma DivideDone(num: nat, q: nat, n: nat, d: nat)
    requires d > 0 && num + q * d == n && num < d
    ensures q == n / d
  {
    assert d * q == q * d;
    DivModUnique(n, d, q, num);
  }

  lemma QuotientIsZero(n: nat, d: nat, num_bits: nat, div_bits: nat)
    requires div_bits > num_bits && Pow2(div_bits - 1) <= d && if num_bits == 0 then n == 0 else n < Pow2(num_bits)
    ensures n / d == 0
  {
    Pow2Mono(num_bits, div_bits - 1);
    DivModUnique(n, d, 0, n);
  }

  lemma Aligned(n: nat, d: nat, num_bits: nat, div_bits: nat, width: nat)
    requires 0 < div_bits <= num_bits <= 32 * width
    requires Pow2(div_bits - 1) <= d < Pow2(div_bits) && n < Pow2(num_bits)
    ensures d * Pow2(num_bits - div_bits) % Weight(width) == d * Pow2(num_bits - div_bits)
    ensures Dividing(n, d * Pow2(num_bits - div_bits), 0, n, d, num_bits - div_bits)
  {
    var shift := num_bits - div_bits;
    Pow2Add(div_bits, shift);
    Pow2Mono(num_bits, 32 * width);
    WeightIsPow2(width);
    AlignedBounds(d, Pow2(div_bits - 1), Pow2(shift));
    DivModUnique(d * Pow2(shift), Weight(width), 0, d * Pow2(shift));
  }

  lemma AlignedBounds(d: nat, h: nat, p: nat)
    requires h <= d < 2 * h && p > 0
    ensures 0 <= d * p < 2 * h * p <= d * (2 * p)
  {
    OneMore(d, 2 * h, p);
    MulMono(d, 0, p);
    MulMono(2 * p, h, d);
    assert (2 * p) * h == 2 * h * p && (2 * p) * d == d * (2 * p);
  }

  lemma Difference(s: seq<Limb>, div: nat)
    requires Number(s) >= div
    ensures (Number(s) - div) % Weight(|s|) == Number(s) - div
  {
    PrefixBound(s, |s|);
    DivModUnique(Number(s) - div, Weight(|s|), 0, Number(s) - div);
  }

  lemma AllClear(s: seq<Limb>, n: nat)
    requires forall j | 0 <= j < |s| :: s[j] == 0
    ensures ClearBelow(s, n)
  {
    forall j | 0 <= j < |s| ensures LimbClear(s[j], n - 32 * j) {
      if 0 < n - 32 * j {
        DivModUnique(0, Pow2(n - 32 * j), 0, 0);
      }
    }
  }

  function Order(a: nat, b: nat): int {
    if a < b then -1 else if a > b then 1 else 0
  }

  class BaseUint {
    const pn: array<Limb>

    ghost function Value(): nat
      reads pn
    {
      Number(pn[..])
    }

    ghost function Modulus(): nat {
      Weight(pn.Length)
    }

    constructor (width: nat)
      ensures fresh(pn) && pn.Length == width && Value() == 0
    {
      pn := new Limb[width](_ => 0);
      new;
      ZeroPrefix(pn[..], width);
    }

    constructor Copy(b: BaseUint)
      ensures fresh(pn) && pn[..] == b.pn[..]
    {
      pn := new Limb[b.pn.Length](i requires 0 <= i < b.pn.Length reads b.pn => b.pn[i]);
    }

    constructor Word(width: nat, b: Limb)
      requires width > 0
      ensures fresh(pn) && pn.Length == width && Value() == b
    {
      pn := new Limb[width](i => if i == 0 then b else 0);
      new;
      SuffixZero(pn[..], 1, width);
      assert Prefix(pn[..], 1) == b * Weight(0);
    }

    /** Assignment of a 64-bit number. */
    method Assign(b: U64)
      requires pn.Length >= 2
      modifies pn
      ensures Value() == b
    {
      forall i | 0 <= i < pn.Length {
        pn[i] := if i == 0 then b % BASE else if i == 1 then b / BASE else 0;
      }
      TwoLimbs(pn[..]);
      SuffixZero(pn[..], 2, pn.Length);
    }

    method GetLow64() returns (low: U64)
      requires pn.Length >= 2
      ensures low == Value() % (BASE * BASE)
    {
      low := pn[0] + BASE * pn[1];
      TwoLimbs(pn[..]);
      PrefixSplit(pn[..], 2, pn.Length);
      DivModUnique(Value(), BASE * BASE, Prefix(pn[2..], pn.Length - 2), low);
      assert pn[..][2..] == pn[2..];
    }

    method AddAssign(b: BaseUint)
      requires b.pn.Length == pn.Length
      modifies pn
      ensures Value() == (old(Value()) + old(b.Value())) % Modulus()
    {
      ghost var x, y := pn[..], b.pn[..];
      var carry: U64 := 0;
      for i := 0 to pn.Length
        invariant carry < BASE && pn[i..] == x[i..] && b.pn[i..] == y[i..]
        invariant Prefix(pn[..], i) + carry * Weight(i) == Prefix(x, i) + Prefix(y, i)
      {
        ghost var s := pn[..];
        assert pn[i] == pn[i..][0] == x[i] && b.pn[i] == b.pn[i..][0] == y[i];
        var n: U64 := carry + pn[i] + b.pn[i];
        AddStep(Prefix(s, i), Prefix(x, i), Prefix(y, i), i, x[i], y[i], carry, n % BASE, n / BASE);
        StoreLimb(s, i, n % BASE);
        pn[i] := n % BASE;
        carry := n / BASE;
        assert pn[..] == s[i := pn[i]];
        assert pn[i + 1..] == x[i..][1..] && b.pn[i + 1..] == y[i..][1..];
      }
      assert pn[..][..pn.Length] == pn[..] && x[..pn.Length] == x && y[..pn.Length] == y;
      Wraps(pn[..], Number(x) + Number(y), carry);
    }

    method MultiplyWord(b32: Limb)
      modifies pn
      ensures Value() == old(Value()) * b32 % Modulus()
    {
      ghost var x := pn[..];
      var carry: U64 := 0;
      for i := 0 to pn.Length
        invariant carry < BASE && pn[i..] == x[i..]
        invariant Prefix(pn[..], i) + carry * Weight(i) == Prefix(x, i) * b32
      {
        ghost var s := pn[..];
        assert pn[i] == pn[i..][0] == x[i];
        ProductFits(b32, x[i], carry, 0);
        var n: U64 := carry + b32 * pn[i];
        MulStep(Prefix(s, i), Prefix(x, i), i, x[i], b32, carry, n % BASE, n / BASE);
        StoreLimb(s, i, n % BASE);
        pn[i] := n % BASE;
        carry := n / BASE;
        assert pn[..] == s[i := pn[i]];
        assert pn[i + 1..] == x[i..][1..];
      }
      Wraps(pn[..], Number(x) * b32, carry);
    }

    method Invert() returns (ret: BaseUint)
      ensures fresh(ret) && fresh(ret.pn) && ret.pn.Length == pn.Length
      ensures ret.Value() == Modulus() - 1 - Value()
    {
      ret := new BaseUint(pn.Length);
      for i := 0 to pn.Length
        invariant Prefix(ret.pn[..], i) + Prefix(pn[..], i) == Weight(i) - 1
      {
        ghost var s := ret.pn[..];
        StoreLimb(s, i, BASE - 1 - pn[i]);
        ret.pn[i] := BASE - 1 - pn[i];
        assert ret.pn[..] == s[i := ret.pn[i]];
        Distribute(BASE - 1 - pn[i], pn[i], Weight(i));
        Distribute(BASE, -1, Weight(i));
      }
    }

    method Increment()
      requires pn.Length > 0
      modifies pn
      ensures Value() == (old(Value()) + 1) % Modulus()
    {
      ghost var x := pn[..];
      var i := 0;
      pn[i] := (pn[i] + 1) % BASE;
      while pn[i] == 0 && i < pn.Length - 1
        invariant 0 <= i < pn.Length
        invariant forall j | 0 <= j < i :: pn[j] == 0
        invariant pn[i] == (x[i] + 1) % BASE && pn[i + 1..] == x[i + 1..]
        invariant Prefix(x, i) + 1 == Weight(i)
      {
        OneMoreLimb(x, i);
        assert pn[i + 1] == pn[i + 1..][0] == x[i + 1];
        i := i + 1;
        pn[i] := (pn[i] + 1) % BASE;
        assert pn[i + 1..] == x[i..][1..];
      }
      Incremented(x, pn[..], i);
    }

    method Negate() returns (ret: BaseUint)
      requires pn.Length > 0
      ensures fresh(ret) && fresh(ret.pn) && ret.pn.Length == pn.Length
      ensures ret.Value() == (Modulus() - Value()) % Modulus()
    {
      ret := Invert();
      ret.Increment();
    }

    method SubtractAssign(b: BaseUint)
      requires b.pn.Length == pn.Length > 0
      modifies pn
      ensures Value() == (old(Value()) - old(b.Value())) % Modulus()
    {
      var negated := b.Negate();
      ghost var x, y, m := Value(), b.Value(), Modulus();
      PrefixBound(pn[..], pn.Length);
      PrefixBound(b.pn[..], pn.Length);
      AddAssign(negated);
      SubtractWraps(x, y, m);
    }

    /** How far a row has come: `x` was there before, `carry` is left over. */
    ghost predicate RowAt(b: BaseUint, x: seq<Limb>, a: Limb, j: nat, i: nat, carry: nat)
      reads this, pn, b, b.pn
    {
      && b.pn.Length == pn.Length == |x| && i + j <= |x| && carry < BASE && pn[i + j..] == x[i + j..]
      && Prefix(pn[..], i + j) + carry * Weight(i + j) == Prefix(x, i + j) + a * Weight(j) * Prefix(b.pn[..], i)
    }

    /** One limb of a row: adds the product and what is carried. */
    method AddProduct(b: BaseUint, a: Limb, j: nat, i: nat, carry: U64, ghost x: seq<Limb>) returns (carry': U64)
      requires b.pn.Length == pn.Length && i + j < pn.Length && carry < BASE
      requires if b.pn == pn then carry == 0 && IsZero(pn[..]) else RowAt(b, x, a, j, i, carry)
      modifies pn
      ensures if b.pn == pn then carry' == 0 && IsZero(pn[..]) else RowAt(b, x, a, j, i + 1, carry')
    {
      ghost var s, d := pn[..], b.pn[i];
      ProductFits(a, d, carry, s[i + j]);
      var n: U64 := carry + pn[i + j] + a * b.pn[i];
      pn[i + j] := n % BASE;
      carry' := n / BASE;
      assert pn[..] == s[i + j := n % BASE];
      if b.pn == pn {
        assert a * d == 0;
      } else {
        assert s[i + j] == s[i + j..][0] == x[i + j];
        RowStep(Prefix(s, i + j), Prefix(x, i + j), Prefix(b.pn[..], i), i, j, x[i + j], a, d, carry, n % BASE, n / BASE);
        StoreLimb(s, i + j, n % BASE);
        assert pn[i + j + 1..] == x[i + j..][1..];
      }
    }

    /** One row of the schoolbook product; `over` counts what falls off the top. A cleared operand adds nothing. */
    method AddRow(b: BaseUint, a: Limb, j: nat) returns (ghost over: nat)
      requires b.pn.Length == pn.Length && j <= pn.Length && (b.pn == pn ==> IsZero(pn[..]))
      modifies pn
      ensures if b.pn == pn then IsZero(pn[..]) else Value() + over * Modulus() == old(Value()) + a * Weight(j) * b.Value()
    {
      ghost var x := pn[..];
      var carry: U64 := 0;
      for i := 0 to pn.Length - j
        invariant if b.pn == pn then carry == 0 && IsZero(pn[..]) else RowAt(b, x, a, j, i, carry)
      {
        carry := AddProduct(b, a, j, i, carry, x);
      }
      over := 0;
      if b.pn != pn {
        over := RowEnd(Number(pn[..]), Number(x), b.pn[..], j, a, carry);
      }
    }

    /** Product modulo 2^256; clearing the number first also clears an operand that is the number itself. */
    method MultiplyAssign(b: BaseUint)
      requires b.pn.Length == pn.Length
      modifies pn
      ensures Value() == if b.pn == pn then 0 else old(Value()) * old(b.Value()) % Modulus()
    {
      var a := new BaseUint.Copy(this);
      ghost var x, y, t: nat := a.pn[..], b.Value(), 0;
      Clear();
      for j := 0 to pn.Length
        invariant a.pn[..] == x
        invariant if b.pn == pn then IsZero(pn[..]) else b.Value() == y && Value() + t * Modulus() == Prefix(x, j) * y
      {
        ghost var over := AddRow(b, a.pn[j], j);
        if b.pn != pn {
          Distribute(Prefix(x, j), x[j] * Weight(j), y);
          Distribute(t, over, Modulus());
          t := t + over;
        }
      }
      if b.pn == pn {
        ZeroPrefix(pn[..], pn.Length);
      } else {
        Wraps(pn[..], Number(x) * y, t);
      }
    }

    method Clear()
      modifies pn
      ensures Value() == 0 && forall j | 0 <= j < pn.Length :: pn[j] == 0
    {
      forall i | 0 <= i < pn.Length {
        pn[i] := 0;
      }
      ZeroPrefix(pn[..], pn.Length);
    }

    method LeftTurn(a: seq<Limb>, i: nat, k: int, shift: nat)
      requires k >= 0 && i < |a| == pn.Length && shift < 32 && Turning(pn[..], a, shift, i, -k)
      modifies pn
      ensures Turning(pn[..], a, shift, i + 1, -k)
    {
      ghost var r := pn[..];
      FirstHalf(a, shift, i);
      SecondHalf(a, shift, i);
      if i + k + 1 < pn.Length {
        assert pn[i + k + 1] == ShiftedBy(a, shift, i, i + k + 1 + -k);
      }
      if i + k + 1 < pn.Length && shift != 0 {
        pn[i + k + 1] := BitOr(pn[i + k + 1], High(a[i], shift));
      }
      if i + k < pn.Length {
        assert pn[i + k] == ShiftedBy(a, shift, i, i + k + -k);
        pn[i + k] := BitOr(pn[i + k], Low(a[i], shift));
      }
      ghost var r' := pn[..];
      Turned(r, r', a, shift, i, -k);
    }

    method ShiftLeftAssign(shift0: nat)
      modifies pn
      ensures Value() == old(Value()) * Pow2(shift0) % Modulus()
    {
      var a := pn[..];
      Clear();
      var k: int, shift := shift0 / 32, shift0 % 32;
      for i := 0 to pn.Length
        invariant Turning(pn[..], a, shift, i, -k)
      {
        LeftTurn(a, i, k, shift);
      }
      LeftShift(a, k, shift, pn[..]);
    }

    method RightTurn(a: seq<Limb>, i: nat, k: nat, shift: nat)
      requires i < |a| == pn.Length && shift < 32 && Turning(pn[..], a, 32 - shift, i, k + 1)
      modifies pn
      ensures Turning(pn[..], a, 32 - shift, i + 1, k + 1)
    {
      ghost var r := pn[..];
      FirstHalf(a, 32 - shift, i);
      SecondHalf(a, 32 - shift, i);
      if i >= k {
        assert pn[i - k] == ShiftedBy(a, 32 - shift, i, i - k + (k + 1));
      }
      if i - k - 1 >= 0 {
        assert pn[i - k - 1] == ShiftedBy(a, 32 - shift, i, i - k - 1 + (k + 1));
        NothingLow(a[i], ShiftedBy(a, 32 - shift, i, i));
      }
      if i - k - 1 >= 0 && shift != 0 {
        pn[i - k - 1] := BitOr(pn[i - k - 1], Low(a[i], 32 - shift));
      }
      if i - k >= 0 {
        pn[i - k] := BitOr(pn[i - k], High(a[i], 32 - shift));
      }
      ghost var r' := pn[..];
      Turned(r, r', a, 32 - shift, i, k + 1);
    }

    method ShiftRightAssign(shift0: nat)
      modifies pn
      ensures Value() == old(Value()) / Pow2(shift0)
    {
      var a := pn[..];
      Clear();
      var k, shift := shift0 / 32, shift0 % 32;
      for i := 0 to pn.Length
        invariant Turning(pn[..], a, 32 - shift, i, k + 1)
      {
        RightTurn(a, i, k, shift);
      }
      RightShift(a, k, shift, pn[..]);
    }

    method CompareTo(b: BaseUint) returns (r: int)
      requires b.pn.Length == pn.Length
      ensures r == Order(Value(), b.Value())
    {
      ghost var x, y := pn[..], b.pn[..];
      ghost var order := Order(Number(x), Number(y));
      var i := pn.Length - 1;
      while i >= 0
        invariant -1 <= i < pn.Length && x[i + 1..] == y[i + 1..]
      {
        if pn[i] < b.pn[i] {
          HighestDecides(x, y, i);
          assert order == -1;
          return -1;
        }
        if pn[i] > b.pn[i] {
          HighestDecides(y, x, i);
          assert order == 1;
          return 1;
        }
        assert x[i..] == [x[i]] + x[i + 1..] && y[i..] == [y[i]] + y[i + 1..];
        i := i - 1;
      }
      assert x[0..] == x && y[0..] == y;
      return 0;
    }

    method Bits() returns (r: nat)
      ensures r <= 32 * pn.Length
      ensures r == 0 <==> Value() == 0
      ensures r > 0 ==> Pow2(r - 1) <= Value() < Pow2(r)
    {
      var pos := pn.Length - 1;
      while pos >= 0
        invariant -1 <= pos < pn.Length && forall j | pos < j < pn.Length :: pn[j] == 0
      {
        if pn[pos] != 0 {
          var bits := HighestBit(pn[pos]);
          TopBit(pn[..], pos, bits);
          return 32 * pos + bits + 1;
        }
        pos := pos - 1;
      }
      ZeroPrefix(pn[..], pn.Length);
      return 0;
    }

    method SetBit(n: nat)
      requires n < 32 * pn.Length && ClearBelow(pn[..], n + 1)
      modifies pn
      ensures Value() == old(Value()) + Pow2(n) && ClearBelow(pn[..], n)
    {
      ghost var s := pn[..];
      SetBitValue(s, n);
      pn[n / 32] := BitOr(pn[n / 32], Pow2(n % 32));
      assert pn[..] == s[n / 32 := pn[n / 32]];
    }

    /** The shift-and-subtract loop: `num` keeps the remainder, this object collects the quotient. */
    method LongDivide(num: BaseUint, div: BaseUint, shift0: nat, ghost d: nat)
      requires pn.Length == num.pn.Length == div.pn.Length && pn != num.pn && pn != div.pn && num.pn != div.pn
      requires shift0 < 32 * pn.Length && forall j | 0 <= j < pn.Length :: pn[j] == 0
      requires Dividing(num.Value(), div.Value(), 0, num.Value(), d, shift0)
      modifies pn, num.pn, div.pn
      ensures d > 0 && Value() == old(num.Value()) / d
    {
      ghost var n := num.Value();
      var shift: int := shift0;
      ZeroPrefix(pn[..], pn.Length);
      AllClear(pn[..], shift0 + 1);
      while shift >= 0
        invariant -1 <= shift <= shift0 && ClearBelow(pn[..], shift + 1)
        invariant Dividing(num.Value(), div.Value(), Value(), n, d, shift)
      {
        DivideStep(num.Value(), div.Value(), Value(), n, d, shift);
        var order := num.CompareTo(div);
        if order >= 0 {
          Difference(num.pn[..], div.Value());
          num.SubtractAssign(div);
          SetBit(shift);
        } else {
          ClearFewer(pn[..], shift);
        }
        div.ShiftRightAssign(1);
        shift := shift - 1;
      }
      DivideDone(num.Value(), Value(), n, d);
    }

    method DivideAssign(b: BaseUint) returns (ok: bool)
      requires b.pn.Length == pn.Length > 0
      modifies pn
      ensures ok <==> old(b.Value()) != 0
      ensures Value() == if ok then old(Value()) / old(b.Value()) else 0
    {
      var div := new BaseUint.Copy(b);
      var num := new BaseUint.Copy(this);
      ghost var n, d := num.Value(), div.Value();
      Clear();
      var num_bits := num.Bits();
      var div_bits := div.Bits();
      if div_bits == 0 {
        return false;
      }
      if div_bits > num_bits {
        QuotientIsZero(n, d, num_bits, div_bits);
        return true;
      }
      var shift := num_bits - div_bits;
      Aligned(n, d, num_bits, div_bits, pn.Length);
      div.ShiftLeftAssign(shift);
      LongDivide(num, div, shift, d);
      return true;
    }
  }
}
