/** Base58 (src/base58.cpp:21-140): change of base with leading zeros kept, and the checksummed form. */
module Base58 {
  import opened Arith
  import opened Options
  import opened Digits
  import opened Slices

  // ----- the conversion -----

  function LeadingZeros(s: seq<nat>): (z: nat)
    ensures z <= |s| && (forall i | 0 <= i < z :: s[i] == 0) && (z < |s| ==> s[z] != 0)
  {
    if s != [] && s[0] == 0 then 1 + LeadingZeros(s[1..]) else 0
  }

  function Zeros(n: nat): (s: seq<nat>)
    ensures |s| == n && forall i | 0 <= i < n :: s[i] == 0
  {
    seq(n, _ => 0)
  }

  /** Digits of one base to digits of another: each leading zero stays one digit, the rest is converted as a number. */
  function Convert(s: seq<nat>, from: nat, to: nat): (r: seq<nat>)
    requires to > 1
    ensures AreDigits(r, to)
  {
    var z := LeadingZeros(s);
    Zeros(z) + ToDigits(Num(s[z..], from), to)
  }

  lemma LeadingZerosUnique(s: seq<nat>, z: nat)
    requires z <= |s| && (forall i | 0 <= i < z :: s[i] == 0) && (z < |s| ==> s[z] != 0)
    ensures LeadingZeros(s) == z
  {
  }

  /** Converting there and back gives the same digits, for any two bases. */
  lemma ConvertBack(s: seq<nat>, a: nat, b: nat)
    requires a > 1 && b > 1 && AreDigits(s, a)
    ensures Convert(Convert(s, a, b), b, a) == s
  {
    var z := LeadingZeros(s);
    var n := Num(s[z..], a);
    var d := ToDigits(n, b);
    var t := Convert(s, a, b);
    assert t == Zeros(z) + d;
    LeadingZerosUnique(t, z);
    assert t[z..] == d;
    NumOfDigits(n, b);
    DigitsOfNum(s[z..], a);
    assert s == Zeros(z) + s[z..];
  }

  // ----- the buffers are large enough -----

  /** Each byte adds less than 1.38 base-58 digits: 256^8 <= 58^11. */
  lemma EncodeRoom(n: nat)
    ensures Pow(256, n) <= Pow(58, n * 138 / 100 + 1)
  {
    SmallPowers();
    Fits(256, 58, 8, 11, n, n * 138 / 100 + 1);
  }

  /** Each character adds less than 0.733 bytes: 58^71 <= 256^52. */
  lemma DecodeRoom(n: nat)
    ensures Pow(58, n) <= Pow(256, n * 733 / 1000 + 1)
  {
    LargePowers();
    Fits(58, 256, 71, 52, n, n * 733 / 1000 + 1);
  }

  lemma SmallPowers()
    ensures Pow(256, 8) <= Pow(58, 11)
  {
    var k := 2;
    assert Pow(256, k) == 65536;
    Squared(256, k, 65536);
    Squared(256, 2 * k, 4294967296);
    var m := 3;
    assert Pow(58, m) == 195112;
    Pow58(8);
    PowAdd(58, 8, m);
  }

  lemma Pow58(n: nat)
    requires n == 8
    ensures Pow(58, n) == 128063081718016
  {
    var k := 2;
    assert Pow(58, k) == 3364;
    Squared(58, k, 3364);
    Squared(58, 2 * k, 11316496);
  }

  lemma LargePowers()
    ensures Pow(58, 71) <= Pow(256, 52)
  {
    var k, m := 8, 7;
    Pow58(k);
    assert 58 * Pow(58, m) == Pow(58, m + 1);
    Squared(58, k, 128063081718016);
    Squared(58, 2 * k, 16400152899115243850138976256);
    Squared(58, 4 * k, 268965015114358137726910587140455987105619365599731777536);
    PowAdd(58, 8 * k, m);
    var j := 4;
    assert Pow(256, j) == 4294967296;
    Squared(256, j, 4294967296);
    Squared(256, 2 * j, 18446744073709551616);
    Squared(256, 4 * j, 340282366920938463463374607431768211456);
    PowAdd(256, 8 * j, 4 * j);
    PowAdd(256, 12 * j, j);
  }

  // ----- in place: b = b * mul + ch -----

  lemma DigitStep(low: nat, xlow: nat, p: nat, base: nat, mul: nat, ch: nat, x: nat, carry: nat, v: nat)
    requires base > 0 && low + carry * p == xlow * mul + ch && v == carry + mul * x
    ensures (v % base) * p + low + (v / base) * (base * p) == (x * p + xlow) * mul + ch
  {
    var q, r := v / base, v % base;
    assert v == base * q + r;
    assert q * (base * p) == (base * q) * p;
    assert (base * q + r) * p == (base * q) * p + r * p;
    assert (carry + mul * x) * p == carry * p + (mul * x) * p;
    assert (x * p + xlow) * mul == (x * p) * mul + xlow * mul;
    assert (mul * x) * p == (x * p) * mul;
  }

  /** The digits from position `k` on. */
  ghost function Low(b: seq<nat>, k: nat, base: nat): nat
    requires k <= |b|
  {
    Num(b[k..], base)
  }

  lemma LowStep(b: seq<nat>, k: nat, x: nat, base: nat)
    requires k < |b|
    ensures Low(b[k := x], k, base) == x * Pow(base, |b| - 1 - k) + Low(b, k + 1, base)
    ensures Low(b[k := x], k + 1, base) == Low(b, k + 1, base)
  {
    var t := b[k := x];
    assert t[k..] == [x] + b[k + 1..];
    assert t[k..][1..] == b[k + 1..] == t[k + 1..];
  }

  ghost predicate ZeroBefore(b: seq<nat>, k: int) {
    forall j | 0 <= j < |b| && j < k :: b[j] == 0
  }

  lemma ZeroPart(b: seq<nat>, k: nat, base: nat)
    requires k <= |b| && ZeroBefore(b, k)
    ensures Num(b, base) == Low(b, k, base)
  {
    assert b == b[..k] + b[k..];
    NumZeros(b[..k], b[k..], base);
  }

  lemma NoCarry(low: nat, carry: nat, p: nat, v: int)
    requires low + carry * p == v < p
    ensures carry == 0
  {
    if carry > 0 {
      MulMono(p, 1, carry);
    }
  }

  lemma QuotientBelow(v: nat, base: nat, mul: nat, carry: nat, x: nat)
    requires base > 1 && carry < mul && x < base && v == carry + mul * x
    ensures 0 <= v / base < mul && 0 <= v % base < base
  {
    MulMono(mul, x, base - 1);
    var q := v / base;
    assert v == base * q + v % base;
    assert mul * (base - 1) == mul * base - mul && mul * base == base * mul;
    if q >= mul {
      MulMono(base, mul, q);
    }
  }

  /** `x` times `mul` plus `ch`, done for the last `i` digits of `y`. */
  ghost predicate Adding(x: seq<nat>, y: seq<nat>, base: nat, mul: nat, ch: nat, i: nat, carry: nat) {
    && i <= |x| == |y| && carry < mul && AreDigits(y, base) && y[..|x| - i] == x[..|x| - i]
    && Low(y, |x| - i, base) + carry * Pow(base, i) == Low(x, |x| - i, base) * mul + ch
  }

  lemma AddingStart(x: seq<nat>, base: nat, mul: nat, ch: nat)
    requires ch < mul && AreDigits(x, base)
    ensures Adding(x, x, base, mul, ch, 0, ch)
  {
    assert x[|x|..] == [];
    assert Pow(base, 0) == 1;
  }

  lemma AddingStep(x: seq<nat>, y: seq<nat>, base: nat, mul: nat, ch: nat, i: nat, carry: nat)
    requires base > 1 && i < |x| && Adding(x, y, base, mul, ch, i, carry) && AreDigits(x, base)
    ensures
      var k := |x| - 1 - i;
      var v := carry + mul * y[k];
      v >= 0 && 0 <= v / base && y[k] == x[k] && Adding(x, y[k := v % base], base, mul, ch, i + 1, v / base)
  {
    var k := |x| - 1 - i;
    assert y[k] == y[..|x| - i][k] == x[..|x| - i][k] == x[k];
    var v := carry + mul * x[k];
    QuotientBelow(v, base, mul, carry, x[k]);
    DigitStep(Low(y, k + 1, base), Low(x, k + 1, base), Pow(base, i), base, mul, ch, x[k], carry, v);
    AddingDigit(x, y, base, i, k, v % base);
    var y' := y[k := v % base];
    assert y'[..k] == y[..k + 1][..k] && x[..k] == x[..k + 1][..k];
  }

  lemma AddingDigit(x: seq<nat>, y: seq<nat>, base: nat, i: nat, k: nat, d: nat)
    requires i < |x| == |y| && k == |x| - 1 - i
    ensures Low(y[k := d], k, base) == d * Pow(base, i) + Low(y, k + 1, base)
    ensures Low(x, k, base) == x[k] * Pow(base, i) + Low(x, k + 1, base)
  {
    LowStep(y, k, d, base);
    LowStep(x, k, x[k], base);
    assert x[k := x[k]] == x;
  }

  lemma AddingEnd(x: seq<nat>, y: seq<nat>, base: nat, mul: nat, ch: nat, length: nat, i: nat, carry: nat)
    requires Adding(x, y, base, mul, ch, i, carry) && length <= |x| && ZeroBefore(x, |x| - length)
    requires Num(x, base) * mul + ch < Pow(base, |x|)
    requires (carry == 0 && i >= length) || i == |x|
    ensures carry == 0 && length <= i && ZeroBefore(y, |x| - i) && Num(y, base) == Num(x, base) * mul + ch
  {
    if i == |x| {
      assert x[0..] == x && y[0..] == y;
      NoCarry(Num(y, base), carry, Pow(base, i), Num(x, base) * mul + ch);
    } else {
      AddingEarly(x, y, base, mul, ch, i);
    }
  }

  /** Stopping early leaves only zeros above. */
  lemma AddingEarly(x: seq<nat>, y: seq<nat>, base: nat, mul: nat, ch: nat, i: nat)
    requires Adding(x, y, base, mul, ch, i, 0) && ZeroBefore(x, |x| - i)
    ensures ZeroBefore(y, |x| - i) && Num(y, base) == Num(x, base) * mul + ch
  {
    var k := |x| - i;
    forall j | 0 <= j < k ensures y[j] == x[j] {
      assert y[..k][j] == x[..k][j];
    }
    ZeroPart(x, k, base);
    ZeroPart(y, k, base);
    assert 0 * Pow(base, i) == 0;
  }

  method AddDigit(b: array<nat>, base: nat, mul: nat, i: nat, carry: nat, ghost x: seq<nat>, ghost ch: nat) returns (carry': nat)
    requires base > 1 && i < |x| && Adding(x, b[..], base, mul, ch, i, carry) && AreDigits(x, base)
    modifies b
    ensures Adding(x, b[..], base, mul, ch, i + 1, carry')
  {
    ghost var y := b[..];
    AddingStep(x, y, base, mul, ch, i, carry);
    var k := b.Length - 1 - i;
    var v := carry + mul * b[k];
    b[k] := v % base;
    assert b[..] == y[k := b[k]];
    carry' := v / base;
  }

  /** The inner loop of both directions. Its final assertion holds whenever the result fits in the buffer. */
  method MultiplyAdd(b: array<nat>, base: nat, mul: nat, ch: nat, length: nat) returns (length': nat)
    requires base > 1 && ch < mul && AreDigits(b[..], base) && length <= b.Length && ZeroBefore(b[..], b.Length - length)
    requires Num(b[..], base) * mul + ch < Pow(base, b.Length)
    modifies b
    ensures AreDigits(b[..], base) && length <= length' <= b.Length && ZeroBefore(b[..], b.Length - length')
    ensures Num(b[..], base) == Num(old(b[..]), base) * mul + ch
  {
    ghost var x := b[..];
    var carry: nat, i: nat := ch, 0;
    AddingStart(x, base, mul, ch);
    while (carry != 0 || i < length) && i < b.Length
      invariant Adding(x, b[..], base, mul, ch, i, carry)
    {
      carry := AddDigit(b, base, mul, i, carry, x, ch);
      i := i + 1;
    }
    AddingEnd(x, b[..], base, mul, ch, length, i, carry);
    assert carry == 0;
    length' := i;
  }

  // ----- the alphabet -----

  const ALPHABET: string := "123456789" + "ABCDEFGH" + "JKLMN" + "PQRSTUVWXYZ" + "abcdefghijk" + "mnopqrstuvwxyz"

  /** The character of a digit: six runs of consecutive characters. */
  function CharOf(d: nat): char
    requires d < 58
  {
    (if d < 9 then 49 + d
     else if d < 17 then 65 + (d - 9)
     else if d < 22 then 74 + (d - 17)
     else if d < 33 then 80 + (d - 22)
     else if d < 44 then 97 + (d - 33)
     else 109 + (d - 44)) as char
  }

  /** The digit of a character, if it has one. */
  function CharDigit(c: char): Option<nat> {
    var x := c as int;
    if 49 <= x <= 57 then Some(x - 49)
    else if 65 <= x <= 72 then Some(x - 65 + 9)
    else if 74 <= x <= 78 then Some(x - 74 + 17)
    else if 80 <= x <= 90 then Some(x - 80 + 22)
    else if 97 <= x <= 107 then Some(x - 97 + 33)
    else if 109 <= x <= 122 then Some(x - 109 + 44)
    else None
  }

  lemma DigitOfChar(d: nat)
    requires d < 58
    ensures CharDigit(CharOf(d)) == Some(d) && !IsSpace(CharOf(d))
  {
  }

  lemma CharOfDigit(c: char)
    requires CharDigit(c).Some?
    ensures CharDigit(c).value < 58 && CharOf(CharDigit(c).value) == c
  {
  }

  lemma AlphabetRuns(d: nat)
    requires d < 58
    ensures |ALPHABET| == 58 && ALPHABET[d] == CharOf(d)
  {
    var a, b, c, e, f, g := "123456789", "ABCDEFGH", "JKLMN", "PQRSTUVWXYZ", "abcdefghijk", "mnopqrstuvwxyz";
    assert ALPHABET == a + b + c + e + f + g;
    if d < 9 {
      assert ALPHABET[d] == a[d];
    } else if d < 17 {
      assert ALPHABET[d] == b[d - 9];
    } else if d < 22 {
      assert ALPHABET[d] == c[d - 17];
    } else if d < 33 {
      assert ALPHABET[d] == e[d - 22];
    } else if d < 44 {
      assert ALPHABET[d] == f[d - 33];
    } else {
      assert ALPHABET[d] == g[d - 44];
    }
  }

  /** Where a character stands in the alphabet (`strchr`). */
  method Find(c: char) returns (r: Option<nat>)
    ensures r == CharDigit(c) && (r.Some? ==> r.value < 58)
  {
    AlphabetRuns(0);
    var i := 0;
    while i < |ALPHABET|
      invariant i <= 58 && forall j | 0 <= j < i :: CharOf(j) != c
    {
      AlphabetRuns(i);
      DigitOfChar(i);
      if ALPHABET[i] == c {
        return Some(i);
      }
      i := i + 1;
    }
    if CharDigit(c).Some? {
      CharOfDigit(c);
    }
    return None;
  }

  predicate IsSpace(c: char) {
    c == ' ' || '\t' <= c <= '\r'
  }

  // ----- encoding -----

  function Chars(d: seq<nat>): (s: string)
    requires AreDigits(d, 58)
    ensures |s| == |d| && forall i | 0 <= i < |d| :: s[i] == CharOf(d[i])
  {
    seq(|d|, i requires 0 <= i < |d| => CharOf(d[i]))
  }

  method Translate(d: seq<nat>) returns (str: string)
    requires AreDigits(d, 58)
    ensures str == Chars(d)
  {
    str := "";
    for i := 0 to |d|
      invariant |str| == i && forall j | 0 <= j < i :: str[j] == CharOf(d[j])
    {
      AlphabetRuns(d[i]);
      str := str + [ALPHABET[d[i]]];
    }
  }

  function Encoded(vch: seq<Byte>): string {
    Chars(Convert(vch, 256, 58))
  }

  method CountZeros(s: seq<nat>) returns (zeroes: nat)
    ensures zeroes == LeadingZeros(s)
  {
    zeroes := 0;
    while zeroes < |s| && s[zeroes] == 0
      invariant zeroes <= |s| && forall i | 0 <= i < zeroes :: s[i] == 0
    {
      zeroes := zeroes + 1;
    }
    LeadingZerosUnique(s, zeroes);
  }

  /** A buffer whose last `length` digits hold a number. */
  ghost predicate Holds(b: seq<nat>, base: nat, length: nat, value: nat) {
    AreDigits(b, base) && length <= |b| && ZeroBefore(b, |b| - length) && Num(b, base) == value
  }

  /** One turn of the outer loops: the buffer holds the number of the digits read so far. */
  method TakeDigit(b: array<nat>, base: nat, mul: nat, ch: nat, length: nat, ghost done: seq<nat>) returns (length': nat)
    requires base > 1 && mul > 0 && ch < mul && AreDigits(done, mul) && Pow(mul, |done| + 1) <= Pow(base, b.Length)
    requires Holds(b[..], base, length, Num(done, mul))
    modifies b
    ensures Holds(b[..], base, length', Num(done + [ch], mul))
  {
    NumAppend(done, ch, mul);
    NumBound(done + [ch], mul);
    length' := MultiplyAdd(b, base, mul, ch, length);
  }

  lemma EmptyBuffer(b: seq<nat>, base: nat)
    requires base > 0 && forall i | 0 <= i < |b| :: b[i] == 0
    ensures Holds(b, base, 0, 0)
  {
    NumZeros(b, [], base);
    assert b + [] == b;
  }

  /** The digits of a buffer without its leading zeros. */
  method Significant(b: array<nat>, base: nat, length: nat, ghost value: nat) returns (d: seq<nat>)
    requires base > 1 && Holds(b[..], base, length, value)
    ensures d == ToDigits(value, base)
  {
    var it := b.Length - length;
    while it < b.Length && b[it] == 0
      invariant it <= b.Length && ZeroBefore(b[..], it)
    {
      it := it + 1;
    }
    d := b[it..];
    ZeroPart(b[..], it, base);
    assert b[..][it..] == d;
    DigitsOfNum(d, base);
  }

  method EncodeBase58(vch: seq<Byte>) returns (str: string)
    ensures str == Encoded(vch)
  {
    var zeroes := CountZeros(vch);
    var rest := vch[zeroes..];
    var size := |rest| * 138 / 100 + 1;
    var b58 := new nat[size](_ => 0);
    EmptyBuffer(b58[..], 58);
    EncodeRoom(|rest|);
    var length := 0;
    for p := 0 to |rest|
      invariant Holds(b58[..], 58, length, Num(rest[..p], 256))
    {
      PowMono(256, p + 1, |rest|);
      length := TakeDigit(b58, 58, 256, rest[p], length, rest[..p]);
      assert rest[..p] + [rest[p]] == rest[..p + 1];
    }
    assert rest[..|rest|] == rest;
    var digits := Significant(b58, 58, length, Num(rest, 256));
    str := Translate(Zeros(zeroes) + digits);
  }

  // ----- decoding -----

  /** The first position from `i` on whose character is not a space. */
  function SkipSpaces(s: string, i: nat): (j: nat)
    requires i <= |s|
    ensures i <= j <= |s| && (forall k | i <= k < j :: IsSpace(s[k])) && (j < |s| ==> !IsSpace(s[j]))
    decreases |s| - i
  {
    if i < |s| && IsSpace(s[i]) then SkipSpaces(s, i + 1) else i
  }

  /** The first position from `i` on whose character is a space. */
  function WordEnd(s: string, i: nat): (j: nat)
    requires i <= |s|
    ensures i <= j <= |s| && (forall k | i <= k < j :: !IsSpace(s[k])) && (j < |s| ==> IsSpace(s[j]))
    decreases |s| - i
  {
    if i < |s| && !IsSpace(s[i]) then WordEnd(s, i + 1) else i
  }

  predicate AllDigits(s: string) {
    forall i | 0 <= i < |s| :: CharDigit(s[i]).Some?
  }

  function Values(s: string): (d: seq<nat>)
    requires AllDigits(s)
    ensures |d| == |s| && AreDigits(d, 58) && forall i | 0 <= i < |s| :: d[i] == CharDigit(s[i]).value
  {
    assert forall i | 0 <= i < |s| :: CharDigit(s[i]).value < 58;
    seq(|s|, i requires 0 <= i < |s| => CharDigit(s[i]).value)
  }

  /** One word of base-58 characters, with spaces allowed around it. */
  function Decoded(s: string): Option<seq<nat>> {
    var a := SkipSpaces(s, 0);
    var e := WordEnd(s, a);
    if AllDigits(s[a..e]) && SkipSpaces(s, e) == |s| then Some(Convert(Values(s[a..e]), 58, 256)) else None
  }

  lemma OneIsZero(c: char)
    ensures CharDigit(c) == Some(0) <==> c == '1'
  {
  }

  lemma WordDecoded(s: string, a: nat, z: nat, e: nat, done: seq<nat>)
    requires a == SkipSpaces(s, 0) && a + z <= e == WordEnd(s, a) && SkipSpaces(s, e) == |s|
    requires (forall i | a <= i < a + z :: s[i] == '1') && (a + z < e ==> s[a + z] != '1') && HasRead(s, a + z, e, done)
    ensures Decoded(s) == Some(Zeros(z) + ToDigits(Num(done, 58), 256))
  {
    var w, t := s[a..e], s[a + z..e];
    forall i | 0 <= i < |w| ensures CharDigit(w[i]).Some? && (i < z ==> CharDigit(w[i]).value == 0) {
      OneIsZero(w[i]);
      if i >= z {
        assert w[i] == t[i - z];
      }
    }
    var d := Values(w);
    if a + z < e {
      OneIsZero(s[a + z]);
      assert d[z] == CharDigit(w[z]).value;
    }
    LeadingZerosUnique(d, z);
    assert d[z..] == Values(t);
  }

  lemma BadWord(s: string, a: nat, k: nat)
    requires a == SkipSpaces(s, 0) <= k < |s| && (forall j | a <= j < k :: !IsSpace(s[j])) && !IsSpace(s[k]) && CharDigit(s[k]).None?
    ensures Decoded(s) == None
  {
    var e := WordEnd(s, a);
    assert k < e;
    assert s[a..e][k - a] == s[k];
  }

  lemma {:induction false} WordEndUnique(s: string, i: nat, j: nat)
    requires i <= j <= |s| && (forall k | i <= k < j :: !IsSpace(s[k])) && (j < |s| ==> IsSpace(s[j]))
    ensures WordEnd(s, i) == j
    decreases j - i
  {
    if i < j {
      WordEndUnique(s, i + 1, j);
    }
  }

  lemma {:induction false} SkipSpacesUnique(s: string, i: nat, j: nat)
    requires i <= j <= |s| && (forall k | i <= k < j :: IsSpace(s[k])) && (j < |s| ==> !IsSpace(s[j]))
    ensures SkipSpaces(s, i) == j
    decreases j - i
  {
    if i < j {
      SkipSpacesUnique(s, i + 1, j);
    }
  }

  method SkipLeading(s: string, i: nat) returns (psz: nat)
    requires i <= |s|
    ensures psz == SkipSpaces(s, i)
  {
    psz := i;
    while psz < |s| && IsSpace(s[psz])
      invariant i <= psz <= |s| && forall k | i <= k < psz :: IsSpace(s[k])
    {
      psz := psz + 1;
    }
    SkipSpacesUnique(s, i, psz);
  }

  method SkipOnes(s: string, i: nat) returns (psz: nat)
    requires i <= |s|
    ensures i <= psz <= |s| && (forall k | i <= k < psz :: s[k] == '1') && (psz < |s| ==> s[psz] != '1')
  {
    psz := i;
    while psz < |s| && s[psz] == '1'
      invariant i <= psz <= |s| && forall k | i <= k < psz :: s[k] == '1'
    {
      psz := psz + 1;
    }
  }

  /** The characters from `i` to `j` have been read as digits. */
  ghost predicate HasRead(s: string, i: nat, j: nat, done: seq<nat>) {
    i <= j <= |s| && AllDigits(s[i..j]) && done == Values(s[i..j])
  }

  lemma DecodeRoomFor(k: nat, n: nat)
    requires k <= n
    ensures Pow(58, k) <= Pow(256, n * 733 / 1000 + 1)
  {
    DecodeRoom(n);
    PowMono(58, k, n);
  }

  lemma MoreDigits(s: string, i: nat, j: nat, done: seq<nat>, d: nat)
    requires HasRead(s, i, j, done) && j < |s| && CharDigit(s[j]) == Some(d)
    ensures HasRead(s, i, j + 1, done + [d]) && d < 58 && AreDigits(done, 58)
  {
    var t := s[i..j + 1];
    assert t == s[i..j] + [s[j]];
    forall k | 0 <= k < |t| ensures CharDigit(t[k]).Some? {
      if k < j - i {
        assert t[k] == s[i..j][k];
      } else {
        assert t[k] == s[j];
      }
    }
  }

  ghost predicate NoSpaces(s: string, i: nat, j: nat) {
    i <= j <= |s| && forall k | i <= k < j :: !IsSpace(s[k])
  }

  method TakeChar(s: string, start: nat, psz: nat, b256: array<nat>, length: nat, ghost done: seq<nat>)
    returns (ok: bool, length': nat, ghost done': seq<nat>)
    requires HasRead(s, start, psz, done) && psz < |s| && b256.Length == (|s| - start) * 733 / 1000 + 1
    requires Holds(b256[..], 256, length, Num(done, 58))
    modifies b256
    ensures ok <==> CharDigit(s[psz]).Some?
    ensures ok ==> HasRead(s, start, psz + 1, done') && Holds(b256[..], 256, length', Num(done', 58))
  {
    var d := Find(s[psz]);
    ok, length', done' := d.Some?, length, done;
    if ok {
      DecodeRoomFor(|done| + 1, |s| - start);
      MoreDigits(s, start, psz, done, d.value);
      length' := TakeDigit(b256, 256, 58, d.value, length, done);
      done' := done + [d.value];
    }
  }

  /** Reads characters from `start` up to the next space. */
  method ReadWord(s: string, start: nat) returns (ok: bool, psz: nat, digits: seq<nat>)
    requires start <= |s|
    ensures NoSpaces(s, start, psz)
    ensures !ok ==> psz < |s| && !IsSpace(s[psz]) && CharDigit(s[psz]).None?
    ensures ok ==> (psz < |s| ==> IsSpace(s[psz])) && exists done :: HasRead(s, start, psz, done) && digits == ToDigits(Num(done, 58), 256)
  {
    var size := (|s| - start) * 733 / 1000 + 1;
    var b256 := new nat[size](_ => 0);
    EmptyBuffer(b256[..], 256);
    var length := 0;
    ghost var done: seq<nat> := [];
    psz, digits := start, [];
    while psz < |s| && !IsSpace(s[psz])
      invariant NoSpaces(s, start, psz) && HasRead(s, start, psz, done)
      invariant Holds(b256[..], 256, length, Num(done, 58))
    {
      ok, length, done := TakeChar(s, start, psz, b256, length, done);
      if !ok {
        return false, psz, [];
      }
      psz := psz + 1;
    }
    digits := Significant(b256, 256, length, Num(done, 58));
    ok := true;
  }

  method DecodeBase58(s: string) returns (ok: bool, vch: seq<nat>)
    ensures ok == Decoded(s).Some? && (ok ==> vch == Decoded(s).value)
  {
    vch := [];
    var a := SkipLeading(s, 0);
    var start := SkipOnes(s, a);
    var psz, digits;
    ok, psz, digits := ReadWord(s, start);
    assert NoSpaces(s, a, psz);
    if !ok {
      BadWord(s, a, psz);
      return;
    }
    WordEndUnique(s, a, psz);
    var end := SkipLeading(s, psz);
    if end != |s| {
      return false, [];
    }
    ghost var done :| HasRead(s, start, psz, done) && digits == ToDigits(Num(done, 58), 256);
    WordDecoded(s, a, start - a, psz, done);
    vch := Zeros(start - a) + digits;
  }

  // ----- round trips -----

  lemma ValuesOfChars(d: seq<nat>)
    requires AreDigits(d, 58)
    ensures AllDigits(Chars(d)) && Values(Chars(d)) == d
  {
    forall i | 0 <= i < |d| ensures CharDigit(Chars(d)[i]) == Some(d[i]) {
      DigitOfChar(d[i]);
    }
  }

  lemma SpaceFree(s: string)
    requires forall i | 0 <= i < |s| :: !IsSpace(s[i])
    ensures Decoded(s) == if AllDigits(s) then Some(Convert(Values(s), 58, 256)) else None
  {
    SkipSpacesUnique(s, 0, 0);
    WordEndUnique(s, 0, |s|);
    SkipSpacesUnique(s, |s|, |s|);
    assert s[0..|s|] == s;
  }

  /** Decoding inverts encoding, for every byte string. */
  lemma DecodeEncoded(vch: seq<Byte>)
    ensures Decoded(Encoded(vch)) == Some(vch)
  {
    var d := Convert(vch, 256, 58);
    ValuesOfChars(d);
    forall i | 0 <= i < |d| ensures !IsSpace(Chars(d)[i]) {
      DigitOfChar(d[i]);
    }
    SpaceFree(Chars(d));
    ConvertBack(vch, 256, 58);
  }

  /** Encoding inverts decoding, for every string without spaces that decodes. */
  lemma EncodeDecoded(s: string)
    requires (forall i | 0 <= i < |s| :: !IsSpace(s[i])) && Decoded(s).Some?
    ensures AreDigits(Decoded(s).value, 256) && Encoded(Decoded(s).value) == s
  {
    SpaceFree(s);
    ConvertBack(Values(s), 58, 256);
    forall i | 0 <= i < |s| ensures CharOf(Values(s)[i]) == s[i] {
      CharOfDigit(s[i]);
    }
  }

  // ----- with a checksum -----

  /** The first four bytes of the double hash. */
  type Checksum = seq<nat> -> seq<nat>

  ghost predicate FourBytes(sum: Checksum) {
    forall v: seq<nat> :: |sum(v)| == 4 && AreDigits(sum(v), 256)
  }

  method EncodeBase58Check(vchIn: seq<Byte>, sum: Checksum) returns (str: string)
    requires FourBytes(sum)
    ensures Decoded(str) == Some(vchIn + sum(vchIn))
  {
    var vch: seq<Byte> := vchIn + sum(vchIn);
    str := EncodeBase58(vch);
    DecodeEncoded(vch);
  }

  /** Succeeds exactly on the strings that decode to a payload followed by its checksum, and returns the payload. */
  method DecodeBase58Check(psz: string, sum: Checksum) returns (ok: bool, vchRet: seq<nat>)
    requires FourBytes(sum)
    ensures ok <==> exists v :: Decoded(psz) == Some(v + sum(v))
    ensures ok ==> Decoded(psz) == Some(vchRet + sum(vchRet))
    ensures !ok ==> vchRet == []
  {
    ok, vchRet := DecodeBase58(psz);
    if !ok || |vchRet| < 4 {
      if ok {
        TooShort(psz, sum);
      }
      return false, [];
    }
    var payload := vchRet[..|vchRet| - 4];
    if sum(payload) != vchRet[|vchRet| - 4..] {
      WrongSum(psz, sum, vchRet);
      return false, [];
    }
    assert vchRet == payload + vchRet[|vchRet| - 4..];
    vchRet := payload;
  }

  lemma TooShort(psz: string, sum: Checksum)
    requires FourBytes(sum) && Decoded(psz).Some? && |Decoded(psz).value| < 4
    ensures !exists v :: Decoded(psz) == Some(v + sum(v))
  {
    forall v ensures Decoded(psz) != Some(v + sum(v)) {
      assert |sum(v)| == 4;
    }
  }

  lemma WrongSum(psz: string, sum: Checksum, d: seq<nat>)
    requires FourBytes(sum) && Decoded(psz) == Some(d) && |d| >= 4 && sum(d[..|d| - 4]) != d[|d| - 4..]
    ensures !exists v :: Decoded(psz) == Some(v + sum(v))
  {
    forall v ensures Decoded(psz) != Some(v + sum(v)) {
      var all := v + sum(v);
      assert |sum(v)| == 4 && all[..|all| - 4] == v && all[|all| - 4..] == sum(v);
    }
  }

  /** Decoding what was encoded with a checksum succeeds with the same bytes. */
  method CheckedRoundTrip(vch: seq<Byte>, sum: Checksum) returns (ok: bool, back: seq<nat>)
    requires FourBytes(sum)
    ensures ok && back == vch
  {
    var str := EncodeBase58Check(vch, sum);
    ok, back := DecodeBase58Check(str, sum);
    assert |vch + sum(vch)| == |back + sum(back)| && |sum(vch)| == |sum(back)| == 4;
    assert back == (back + sum(back))[..|back|] && vch == (vch + sum(vch))[..|vch|];
  }
}
