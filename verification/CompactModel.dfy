/** The compact format of difficulty targets (src/arith_uint256.cpp:206-247), as a codec on natural numbers. */
module CompactModel {
  import opened Arith
  import opened Powers
  import opened Limbs

  type U32 = x: nat | x < 0x1_0000_0000

  /** 2^256. */
  const LIMIT: nat := 0x1_00000000_00000000_00000000_00000000_00000000_00000000_00000000_00000000

  lemma LimitIsPow2(n: nat)
    requires n == 256
    ensures Pow2(n) == LIMIT
  {
    var k := 8;
    SmallPowers();
    Pow2Twice(k, 0x100);
    Pow2Twice(2 * k, 0x1_0000);
    Pow2Twice(4 * k, 0x1_0000_0000);
    Pow2Twice(8 * k, 0x1_0000_0000_0000_0000);
    Pow2Twice(16 * k, 0x1_00000000_00000000_00000000_00000000);
  }

  function Bytes(k: nat): (p: nat)
    ensures p >= 1
  {
    Pow2(8 * k)
  }

  lemma BytesStep(k: nat)
    ensures Bytes(k + 1) == 0x100 * Bytes(k) && Bytes(k + 2) == 0x1_0000 * Bytes(k) && Bytes(k + 3) == 0x100_0000 * Bytes(k)
  {
    SmallPowers();
    Pow2Add(8, 8 * k);
    Pow2Add(16, 8 * k);
    Pow2Add(24, 8 * k);
  }

  function Quotient(x: nat, p: nat): nat
    requires p > 0
  {
    QuotientShrinks(x, p);
    x / p
  }

  function SizeOf(c: U32): nat { c / 0x100_0000 }
  function WordOf(c: U32): nat { c % 0x80_0000 }
  predicate SignOf(c: U32) { (c / 0x80_0000) % 2 == 1 }

  /** The mantissa after the shift for sizes up to 3. */
  function Mantissa(c: U32): nat {
    if SizeOf(c) <= 3 then Quotient(WordOf(c), Bytes(3 - SizeOf(c))) else WordOf(c)
  }

  /** The number a compact word stands for, without any bound on its width. */
  function Decoded(c: U32): nat {
    if SizeOf(c) <= 3 then Mantissa(c) else Mantissa(c) * Bytes(SizeOf(c) - 3)
  }

  predicate OverflowTest(nWord: nat, nSize: nat) {
    nWord != 0 && (nSize > 34 || (nWord > 0xff && nSize > 33) || (nWord > 0xffff && nSize > 32))
  }

  lemma ProductReaches(w: nat, e: nat, k: nat)
    ensures w * Pow2(e) >= Pow2(e + k) <==> w >= Pow2(k)
  {
    Pow2Add(k, e);
    if w >= Pow2(k) {
      MulMono(Pow2(e), Pow2(k), w);
    } else {
      OneMore(w, Pow2(k), Pow2(e));
    }
  }

  lemma SmallPowers()
    ensures Pow2(8) == 0x100 && Pow2(16) == 0x1_0000 && Pow2(24) == 0x100_0000
    ensures Pow2(15) == 0x8000 && Pow2(23) == 0x80_0000
    ensures Bytes(0) == 1 && Bytes(1) == 0x100 && Bytes(2) == 0x1_0000 && Bytes(3) == 0x100_0000
  {
    assert Pow2(4) == 16;
    Pow2Add(4, 4);
    Pow2Add(8, 8);
    Pow2Add(16, 8);
    assert Pow2(16) == 2 * Pow2(15) && Pow2(24) == 2 * Pow2(23);
  }

  /** The overflow flag is set exactly when the true value does not fit in 256 bits. */
  lemma OverflowIsExact(c: U32)
    ensures OverflowTest(Mantissa(c), SizeOf(c)) <==> Decoded(c) >= LIMIT
  {
    if SizeOf(c) <= 3 {
      QuotientShrinks(WordOf(c), Bytes(3 - SizeOf(c)));
    } else {
      ShiftOverflows(WordOf(c), SizeOf(c));
    }
  }

  lemma ShiftOverflows(w: nat, s: nat)
    requires w < 0x80_0000 && s > 3
    ensures OverflowTest(w, s) <==> w * Bytes(s - 3) >= LIMIT
  {
    if s >= 35 {
      FarShift(w, s);
    } else {
      NearShift(w, s);
    }
  }

  lemma FarShift(w: nat, s: nat)
    requires s >= 35
    ensures w * Bytes(s - 3) >= LIMIT <==> w > 0
  {
    var e := 8 * (s - 3);
    LimitIsPow2(256);
    Pow2Mono(256, e);
    MulMono(Pow2(e), if w == 0 then 0 else 1, w);
  }

  lemma NearShift(w: nat, s: nat)
    requires w < 0x80_0000 && 3 < s < 35
    ensures OverflowTest(w, s) <==> w * Bytes(s - 3) >= LIMIT
  {
    SmallPowers();
    var e := 8 * (s - 3);
    LimitIsPow2(e + (256 - e));
    ProductReaches(w, e, 256 - e);
    if s <= 32 {
      Pow2Mono(24, 256 - e);
    }
  }

  // ----- encoding -----

  /** How many bytes a number needs. */
  function ByteSize(x: nat): nat {
    if x == 0 then 0 else 1 + ByteSize(x / 256)
  }

  lemma {:induction false} ByteSizeMeans(x: nat)
    ensures x < Bytes(ByteSize(x)) && (x > 0 ==> Bytes(ByteSize(x) - 1) <= x)
  {
    if x > 0 {
      var k := ByteSize(x / 256);
      ByteSizeMeans(x / 256);
      SmallPowers();
      Pow2Add(8, 8 * k);
      if k > 0 {
        Pow2Add(8, 8 * (k - 1));
      } else {
        assert x / 256 == 0;
      }
    }
  }

  lemma ByteSizeUnique(x: nat, k: nat)
    requires x < Bytes(k) && (k > 0 ==> Bytes(k - 1) <= x)
    ensures k == ByteSize(x)
  {
    ByteSizeMeans(x);
    var j := ByteSize(x);
    if j < k {
      Pow2Mono(8 * j, 8 * (k - 1));
    } else if k < j {
      Pow2Mono(8 * k, 8 * (j - 1));
    }
  }

  /** The three most significant bytes. */
  function Leading(x: nat): nat {
    if ByteSize(x) <= 3 then x * Bytes(3 - ByteSize(x)) else Quotient(x, Bytes(ByteSize(x) - 3))
  }

  /** The mantissa and size `GetCompact` writes. */
  function EncodedMantissa(x: nat): nat {
    if (Leading(x) / 0x80_0000) % 2 == 1 then Leading(x) / 256 else Leading(x)
  }

  function EncodedSize(x: nat): nat {
    if (Leading(x) / 0x80_0000) % 2 == 1 then ByteSize(x) + 1 else ByteSize(x)
  }

  lemma LeadingBytes(x: nat)
    ensures Leading(x) < 0x100_0000
    ensures ByteSize(x) >= 3 ==> Leading(x) == Quotient(x, Bytes(ByteSize(x) - 3)) >= 0x1_0000
  {
    ByteSizeMeans(x);
    SmallPowers();
    var k := ByteSize(x);
    if k >= 3 {
      BytesStep(k - 3);
      LeadingBounds(x, Bytes(k - 3));
      assert Bytes(0) == 1;
    } else {
      SmallLeading(x);
    }
  }

  lemma LeadingBounds(x: nat, p: nat)
    requires p > 0 && 0x1_0000 * p <= x < 0x100_0000 * p
    ensures 0x1_0000 <= x / p < 0x100_0000
  {
    var q := x / p;
    assert x == p * q + x % p;
    assert p * (q + 1) == p * q + p;
    if q < 0x1_0000 {
      MulMono(p, q + 1, 0x1_0000);
    }
    if q >= 0x100_0000 {
      MulMono(p, 0x100_0000, q);
    }
  }

  lemma SmallLeading(x: nat)
    requires ByteSize(x) < 3
    ensures x < 0x1_0000 && ByteSize(x) == (if x == 0 then 0 else if x < 0x100 then 1 else 2)
    ensures Leading(x) == if x < 0x100 then x * 0x1_0000 else x * 0x100
  {
    SmallPowers();
    ByteSizeMeans(x);
    var k := ByteSize(x);
    if k == 0 {
    } else if k == 1 {
      assert Leading(x) == x * Bytes(2);
    } else {
      assert Leading(x) == x * Bytes(1);
    }
  }

  /** Both asserts of `GetCompact` hold: the mantissa leaves the sign bit clear and the size fits in a byte. */
  lemma EncodingFits(x: nat)
    requires x < LIMIT
    ensures EncodedMantissa(x) < 0x80_0000 && EncodedSize(x) <= 33
  {
    LeadingBytes(x);
    SizeFits(x);
  }

  lemma SizeFits(x: nat)
    requires x < LIMIT
    ensures ByteSize(x) <= 32
  {
    ByteSizeMeans(x);
    if ByteSize(x) > 32 {
      var n := 256;
      LimitIsPow2(n);
      Pow2Mono(n, 8 * (ByteSize(x) - 1));
    }
  }

  lemma Packed(m: nat, s: nat)
    requires m < 0x80_0000 && s < 0x100
    ensures
      var c := m + s * 0x100_0000;
      c < 0x1_0000_0000 && SizeOf(c) == s && WordOf(c) == m && !SignOf(c)
  {
  }

  function Encoded(x: nat): (c: U32)
    requires x < LIMIT
    ensures SizeOf(c) == EncodedSize(x) && WordOf(c) == EncodedMantissa(x) && !SignOf(c)
  {
    EncodingFits(x);
    Packed(EncodedMantissa(x), EncodedSize(x));
    EncodedMantissa(x) + EncodedSize(x) * 0x100_0000
  }

  // ----- what survives the trip -----

  lemma SmallIsExact(x: nat)
    requires ByteSize(x) < 3 && x < LIMIT
    ensures Decoded(Encoded(x)) == x
  {
    SmallLeading(x);
    SmallDecoded(Encoded(x));
  }

  lemma SmallDecoded(c: U32)
    requires SizeOf(c) <= 3
    ensures
      var w := WordOf(c);
      Decoded(c) == match SizeOf(c) case 0 => w / 0x100_0000 case 1 => w / 0x1_0000 case 2 => w / 0x100 case 3 => w
  {
    SmallPowers();
  }

  lemma QuotientOfQuotient(x: nat, p: nat)
    requires p > 0
    ensures (x / p) / 256 == x / (256 * p)
  {
    var q := x / p;
    var r := q / 256;
    assert x == p * q + x % p && q == 256 * r + q % 256;
    assert p * (256 * r + q % 256) == (256 * p) * r + p * (q % 256);
    MulMono(p, q % 256, 255);
    MulMono(p, 0, q % 256);
    DivModUnique(x, 256 * p, r, p * (q % 256) + x % p);
  }

  /** From three bytes on, the mantissa is the quotient by the weight of the dropped bytes, and keeps 15 bits at least. */
  lemma LargeIsQuotient(x: nat)
    requires ByteSize(x) >= 3 && x < LIMIT
    ensures
      var m, s := EncodedMantissa(x), EncodedSize(x);
      s >= 3 && m == Quotient(x, Bytes(s - 3)) && 0x8000 <= m < 0x80_0000
  {
    LeadingBytes(x);
    var k := ByteSize(x);
    QuotientOfQuotient(x, Bytes(k - 3));
    BytesStep(k - 3);
  }

  /** Decoding what was encoded loses less than one part in 2^15 and never exceeds the number. */
  lemma DecodeIsClose(x: nat)
    requires x < LIMIT
    ensures
      var y := Decoded(Encoded(x));
      y <= x && (x > 0 ==> (x - y) * 0x8000 < y)
  {
    if ByteSize(x) < 3 {
      SmallIsExact(x);
    } else {
      LargeIsQuotient(x);
      LargeDecoded(x);
      QuotientIsClose(x, Bytes(EncodedSize(x) - 3), EncodedMantissa(x));
    }
  }

  lemma LargeDecoded(x: nat)
    requires x < LIMIT && EncodedSize(x) >= 3
    ensures Decoded(Encoded(x)) == EncodedMantissa(x) * Bytes(EncodedSize(x) - 3)
  {
    SmallPowers();
  }

  lemma QuotientIsClose(x: nat, p: nat, m: nat)
    requires p > 0 && m == Quotient(x, p) && m >= 0x8000
    ensures m * p <= x && (x - m * p) * 0x8000 < m * p
  {
    assert x == p * m + x % p;
    MulMono(p, 0x8000, m);
    assert p * m == m * p;
  }

  /** Nothing `GetCompact` writes reads back as negative or overflowing. */
  lemma EncodedIsValid(x: nat)
    requires x < LIMIT
    ensures !SignOf(Encoded(x)) && !OverflowTest(Mantissa(Encoded(x)), SizeOf(Encoded(x))) && Decoded(Encoded(x)) < LIMIT
  {
    DecodeIsClose(x);
    OverflowIsExact(Encoded(x));
  }

  /** Encoding is stable: the decoded number encodes to the same word. */
  lemma EncodeAgain(x: nat)
    requires x < LIMIT
    ensures Decoded(Encoded(x)) < LIMIT && Encoded(Decoded(Encoded(x))) == Encoded(x)
  {
    DecodeIsClose(x);
    if ByteSize(x) < 3 {
      SmallIsExact(x);
    } else {
      LargeIsQuotient(x);
      LargeDecoded(x);
      var y := Decoded(Encoded(x));
      SameSize(x, y);
      SameLeading(x, y);
    }
  }

  lemma SameSize(x: nat, y: nat)
    requires ByteSize(x) >= 3 && x < LIMIT && y <= x && y == EncodedMantissa(x) * Bytes(EncodedSize(x) - 3)
    requires EncodedSize(x) >= 3
    ensures ByteSize(y) == ByteSize(x)
  {
    LargeIsQuotient(x);
    LeadingBytes(x);
    ByteSizeMeans(x);
    var m, k := EncodedMantissa(x), ByteSize(x);
    if EncodedSize(x) == k {
      KeepsSize(y, m, k);
    } else {
      KeepsSizeAbove(y, m, k);
    }
    ByteSizeUnique(y, k);
  }

  lemma KeepsSize(y: nat, m: nat, k: nat)
    requires k >= 3 && y == m * Bytes(k - 3) && m >= 0x1_0000
    ensures Bytes(k - 1) <= y && Quotient(y, Bytes(k - 3)) == m
  {
    BytesStep(k - 3);
    KeepsQuotient(y, m, Bytes(k - 3));
  }

  lemma KeepsQuotient(y: nat, m: nat, p: nat)
    requires p > 0 && y == m * p && m >= 0x1_0000
    ensures 0x1_0000 * p <= y && Quotient(y, p) == m
  {
    MulMono(p, 0x1_0000, m);
    assert p * m == m * p;
    DivModUnique(y, p, m, 0);
  }

  lemma KeepsSizeAbove(y: nat, m: nat, k: nat)
    requires k >= 3 && y == m * Bytes(k - 2) && m >= 0x8000
    ensures Bytes(k - 1) <= y && Quotient(y, Bytes(k - 3)) == 0x100 * m
  {
    BytesStep(k - 3);
    var p := Bytes(k - 3);
    MulMono(0x100 * p, 0x8000, m);
    Regrouped(m, p);
    DivModUnique(y, p, 0x100 * m, 0);
  }

  lemma Regrouped(m: nat, q: nat)
    ensures m * (0x100 * q) == q * (0x100 * m) == (0x100 * q) * m
  {
  }

  lemma SameLeading(x: nat, y: nat)
    requires ByteSize(x) == ByteSize(y) >= 3 && x < LIMIT && y <= x && EncodedSize(x) >= 3
    requires y == EncodedMantissa(x) * Bytes(EncodedSize(x) - 3)
    ensures EncodedMantissa(y) == EncodedMantissa(x) && EncodedSize(y) == EncodedSize(x)
  {
    LargeIsQuotient(x);
    LeadingBytes(y);
    LeadingBytes(x);
    var m, k := EncodedMantissa(x), ByteSize(x);
    if EncodedSize(x) == k {
      KeepsSize(y, m, k);
      SameParts(x, y, m);
    } else {
      KeepsSizeAbove(y, m, k);
      SameParts(x, y, 0x100 * m);
    }
  }

  lemma SameParts(x: nat, y: nat, l: nat)
    requires ByteSize(x) == ByteSize(y) && Leading(y) == l < 0x100_0000
    requires EncodedMantissa(x) < 0x80_0000 && l == if EncodedSize(x) == ByteSize(x) then EncodedMantissa(x) else 0x100 * EncodedMantissa(x)
    requires EncodedSize(x) != ByteSize(x) ==> EncodedMantissa(x) >= 0x8000
    ensures EncodedMantissa(y) == EncodedMantissa(x) && EncodedSize(y) == EncodedSize(x)
  {
  }
}
