/** `SetCompact`, `GetCompact` (src/arith_uint256.cpp:206-247) and `GetBlockProof` (src/chain.cpp:122-135). */
module Compact {
  import opened Arith
  import opened Powers
  import opened Limbs
  import opened LimbShifts
  import opened ArithUint256
  import opened CompactModel

  lemma WidthIs256(width: nat)
    requires width == 8
    ensures Weight(width) == LIMIT
  {
    WeightIsPow2(width);
    LimitIsPow2(32 * width);
  }

  method SetCompact(x: BaseUint, nCompact: U32) returns (fNegative: bool, fOverflow: bool)
    requires x.pn.Length == 8
    modifies x.pn
    ensures x.Value() == Decoded(nCompact) % LIMIT
    ensures fNegative <==> Mantissa(nCompact) != 0 && SignOf(nCompact)
    ensures fOverflow <==> Decoded(nCompact) >= LIMIT
  {
    var nSize, nWord := nCompact / 0x100_0000, nCompact % 0x80_0000;
    WidthIs256(x.pn.Length);
    if nSize <= 3 {
      nWord := Quotient(nWord, Pow2(8 * (3 - nSize)));
      x.Assign(nWord);
      SmallMantissa(nCompact);
    } else {
      x.Assign(nWord);
      x.ShiftLeftAssign(8 * (nSize - 3));
    }
    OverflowIsExact(nCompact);
    fNegative := nWord != 0 && (nCompact / 0x80_0000) % 2 == 1;
    fOverflow := nWord != 0 && (nSize > 34 || (nWord > 0xff && nSize > 33) || (nWord > 0xffff && nSize > 32));
  }

  lemma SmallMantissa(c: U32)
    requires SizeOf(c) <= 3
    ensures Mantissa(c) < 0x80_0000 && Decoded(c) % LIMIT == Decoded(c) == Mantissa(c)
  {
    QuotientShrinks(WordOf(c), Bytes(3 - SizeOf(c)));
    DivModUnique(Decoded(c), LIMIT, 0, Decoded(c));
  }

  lemma BitsToBytes(v: nat, bits: nat)
    requires if v == 0 then bits == 0 else bits > 0 && Pow2(bits - 1) <= v < Pow2(bits)
    ensures ByteSize(v) == (bits + 7) / 8
  {
    var k := (bits + 7) / 8;
    if v > 0 {
      Pow2Mono(bits, 8 * k);
      Pow2Mono(8 * (k - 1), bits - 1);
    }
    ByteSizeUnique(v, k);
  }

  /** The three leading bytes, read through `GetLow64`. */
  method LeadingWord(x: BaseUint, nSize: nat) returns (nCompact: U32)
    requires x.pn.Length == 8 && nSize == ByteSize(x.Value())
    ensures nCompact == Leading(x.Value()) < 0x100_0000
  {
    ghost var v := x.Value();
    ghost var leading := Leading(v);
    LeadingBytes(v);
    ThroughWords(leading);
    if nSize <= 3 {
      var low := x.GetLow64();
      SmallLow(v);
      var shifted := low * Pow2(8 * (3 - nSize));
      assert shifted == leading;
      nCompact := shifted % BASE;
    } else {
      var bn := new BaseUint.Copy(x);
      bn.ShiftRightAssign(8 * (nSize - 3));
      assert bn.Value() == leading;
      var low := bn.GetLow64();
      nCompact := low % BASE;
    }
  }

  lemma ThroughWords(l: nat)
    requires l < 0x100_0000
    ensures l % (BASE * BASE) == l && l % BASE == l
  {
  }

  lemma SmallLow(v: nat)
    requires ByteSize(v) <= 3
    ensures v % (BASE * BASE) == v
  {
    ByteSizeMeans(v);
    SmallPowers();
    Pow2Mono(8 * ByteSize(v), 24);
  }

  lemma {:induction false} OrNewBit(x: nat, k: nat)
    requires (x / Pow2(k)) % 2 == 0
    ensures BitOr(x, Pow2(k)) == x + Pow2(k)
  {
    if k == 0 {
      OrZero(x / 2);
    } else {
      var p := Pow2(k - 1);
      HalfQuotient(x, p);
      OrNewBit(x / 2, k - 1);
    }
  }

  lemma HalfQuotient(x: nat, p: nat)
    requires p > 0
    ensures (x / 2) / p == x / (2 * p)
  {
    var q := x / (2 * p);
    var r := x % (2 * p);
    assert x == (2 * p) * q + r;
    assert (2 * p) * q == 2 * (p * q);
    DivModUnique(x / 2, p, q, r / 2);
  }

  lemma OrSize(m: nat, size: nat)
    requires m < 0x80_0000
    ensures BitOr(m, size * 0x100_0000) == m + size * 0x100_0000
  {
    SmallPowers();
    OrCommutes(m, size * 0x100_0000);
    OrIsSum(size * 0x100_0000, m, 24);
  }

  lemma OrSign(c: U32)
    requires !SignOf(c)
    ensures BitOr(c, 0x80_0000) == c + 0x80_0000 < 0x1_0000_0000
  {
    SmallPowers();
    OrNewBit(c, 23);
  }

  /** The word written: the canonical encoding, with the sign bit added for a negative non-zero mantissa. */
  function Signed(x: nat, fNegative: bool): U32
    requires x < LIMIT
  {
    if fNegative && WordOf(Encoded(x)) != 0 then OrSign(Encoded(x)); Encoded(x) + 0x80_0000 else Encoded(x)
  }

  method GetCompact(x: BaseUint, fNegative: bool) returns (nCompact: U32)
    requires x.pn.Length == 8
    ensures x.Value() < LIMIT && nCompact == Signed(x.Value(), fNegative)
  {
    ghost var v := x.Value();
    WidthIs256(x.pn.Length);
    PrefixBound(x.pn[..], x.pn.Length);
    var bits := x.Bits();
    BitsToBytes(v, bits);
    var nSize := (bits + 7) / 8;
    var m := LeadingWord(x, nSize);
    if (m / 0x80_0000) % 2 == 1 {
      m := m / 0x100;
      nSize := nSize + 1;
    }
    EncodingFits(v);
    assert m < 0x80_0000 && nSize < 256;
    OrSize(m, nSize);
    nCompact := BitOr(m, nSize * 0x100_0000);
    assert nCompact == Encoded(v);
    if fNegative && nCompact % 0x80_0000 != 0 {
      OrSign(nCompact);
      nCompact := BitOr(nCompact, 0x80_0000);
    }
  }

  /** A number that a compact word can express is never 2^256 - 1. */
  lemma NotAllOnes(c: U32)
    requires Decoded(c) < LIMIT
    ensures Decoded(c) + 1 < LIMIT
  {
    if SizeOf(c) <= 3 {
      SmallMantissa(c);
    } else {
      EvenProduct(Mantissa(c), Pow2(8 * (SizeOf(c) - 3) - 1));
    }
  }

  lemma EvenProduct(m: nat, p: nat)
    ensures (m * (2 * p)) % 2 == 0
  {
    assert m * (2 * p) == 2 * (m * p);
  }

  lemma ProofFormula(t: nat)
    requires 0 < t < LIMIT - 1
    ensures (LIMIT - 1 - t) / (t + 1) + 1 == LIMIT / (t + 1) < LIMIT
  {
    var d := t + 1;
    var q, r := (LIMIT - d) / d, (LIMIT - d) % d;
    assert LIMIT - d == d * q + r;
    assert d * (q + 1) == d * q + d;
    DivModUnique(LIMIT, d, q + 1, r);
    MulMono(q + 1, 2, d);
    assert (q + 1) * d == d * (q + 1);
  }

  /** `(~bnTarget / (bnTarget + 1)) + 1`. */
  method Work(bnTarget: BaseUint) returns (work: BaseUint)
    requires bnTarget.pn.Length == 8 && 0 < bnTarget.Value() < LIMIT - 1
    ensures work.pn.Length == 8 && work.Value() == LIMIT / (bnTarget.Value() + 1)
  {
    ghost var t := bnTarget.Value();
    WidthIs256(bnTarget.pn.Length);
    ProofFormula(t);
    var one := new BaseUint.Word(8, 1);
    var divisor := new BaseUint.Copy(bnTarget);
    divisor.AddAssign(one);
    SmallModulo(t + 1);
    work := bnTarget.Invert();
    var ok := work.DivideAssign(divisor);
    work.AddAssign(one);
    SmallModulo(LIMIT / (t + 1));
  }

  lemma SmallModulo(x: nat)
    requires x < LIMIT
    ensures x % LIMIT == x
  {
  }

  /** The work of a block: the floor of 2^256 / (target + 1), and 0 for a target that is no valid target. */
  method GetBlockProof(nBits: U32) returns (work: BaseUint)
    ensures work.pn.Length == 8
    ensures
      var t := Decoded(nBits);
      var valid := !(SignOf(nBits) && Mantissa(nBits) != 0) && 0 < t < LIMIT;
      work.Value() == if valid then LIMIT / (t + 1) else 0
  {
    var bnTarget := new BaseUint(8);
    var fNegative, fOverflow := SetCompact(bnTarget, nBits);
    var zero := new BaseUint(8);
    var order := bnTarget.CompareTo(zero);
    if fNegative || fOverflow || order == 0 {
      return zero;
    }
    SmallModulo(Decoded(nBits));
    NotAllOnes(nBits);
    work := Work(bnTarget);
  }
}
