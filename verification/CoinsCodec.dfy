/** The stored form of `CCoins` (src/coins.h:158-219, src/coins.cpp:17-33). */
module CoinsCodec {
  import opened Options
  import opened Powers
  import opened Slices
  import opened VarInt
  import opened AmountCodec
  import opened CoinsRecord
  import opened ScriptCompressor

  // ----- outputs -----

  function OutBytes(k: Curve, o: TxOut): seq<Byte>
    requires o.nValue >= 0
  {
    WriteVarInt(Compressed(o.nValue)) + WriteScript(k, o.scriptPubKey)
  }

  function ReadOut(k: Curve, s: seq<Byte>, i: nat): (r: Option<(TxOut, nat)>)
    requires i <= |s|
    ensures r.Some? ==> r.value.1 <= |s|
  {
    match ReadFrom(s, i, 0)
    case None => None
    case Some((x, j)) =>
      match ReadScript(k, s, j)
      case None => None
      case Some((script, j')) => Some((TxOut(Decompressed(x), script), j'))
  }

  /** What an output is once written and read: a spent one is empty, an over-long script is shortened. */
  function Restate(o: TxOut): TxOut {
    if o.IsNull() then NULL_OUT else o.(scriptPubKey := Shortened(o.scriptPubKey))
  }

  lemma {:induction false} ReadsOut(k: Curve, s: seq<Byte>, i: nat, o: TxOut, one: seq<Byte>, j: nat)
    requires k.Recovers() && o.nValue >= 0 && one == OutBytes(k, o) && At(s, i, one) && j == i + |one|
    ensures ReadOut(k, s, i) == Some((Restate(o), j))
  {
    var x := Compressed(o.nValue);
    var v, w := WriteVarInt(x), WriteScript(k, o.scriptPubKey);
    var i' := i + |v|;
    AtSplit(s, i, v, w);
    ReadsNumber(s, i, x, v, i');
    ReadScriptWritten(k, s, i', o.scriptPubKey, w, j);
    DecompressCompressed(o.nValue);
    OutIs(k, s, i, x, i', Shortened(o.scriptPubKey), j);
  }

  lemma {:induction false} OutIs(k: Curve, s: seq<Byte>, i: nat, x: nat, j: nat, script: Script, j': nat)
    requires i <= |s| && j <= |s| && ReadFrom(s, i, 0) == Some((x, j)) && ReadScript(k, s, j) == Some((script, j'))
    ensures ReadOut(k, s, i) == Some((TxOut(Decompressed(x), script), j'))
  {
  }

  // ----- which outputs are there -----

  predicate Flag(vout: seq<TxOut>, i: nat) {
    i < |vout| && !vout[i].IsNull()
  }

  /** Flags as a number, the first in the lowest bit. */
  function NumberOf(f: seq<bool>): nat {
    if f == [] then 0 else (if f[0] then 1 else 0) + 2 * NumberOf(f[1..])
  }

  /** The lowest `n` bits of a number as flags. */
  function BitsOf(x: nat, n: nat): (f: seq<bool>)
    ensures |f| == n
  {
    if n == 0 then [] else [x % 2 == 1] + BitsOf(x / 2, n - 1)
  }

  lemma {:induction false} BitsOfNumber(f: seq<bool>)
    ensures BitsOf(NumberOf(f), |f|) == f && NumberOf(f) < Pow2(|f|)
    ensures NumberOf(f) == 0 <==> true !in f
  {
    if f != [] {
      BitsOfNumber(f[1..]);
      assert f == [f[0]] + f[1..];
    }
  }

  /** The flags of outputs `p` to `q`. */
  function FlagsOf(vout: seq<TxOut>, p: nat, q: nat): (f: seq<bool>)
    requires p <= q
    ensures |f| == q - p && forall i | 0 <= i < q - p :: f[i] == Flag(vout, p + i)
  {
    seq(q - p, i requires 0 <= i => Flag(vout, p + i))
  }

  /** Byte `b` of the spentness mask: bit i stands for output 2 + 8b + i. */
  function MaskByte(vout: seq<TxOut>, b: nat): Byte {
    BitsOfNumber(MaskFlags(vout, b));
    assert Pow2(4) == 16;
    Pow2Add(4, 4);
    NumberOf(MaskFlags(vout, b))
  }

  function MaskFlags(vout: seq<TxOut>, b: nat): seq<bool> {
    FlagsOf(vout, 2 + 8 * b, 10 + 8 * b)
  }

  /** Mask bytes up to the last one that is not zero, among the first `n`. */
  function MaskSize(vout: seq<TxOut>, n: nat): nat {
    if n == 0 then 0 else if MaskByte(vout, n - 1) != 0 then n else MaskSize(vout, n - 1)
  }

  function NonzeroBytes(vout: seq<TxOut>, n: nat): nat {
    if n == 0 then 0 else NonzeroBytes(vout, n - 1) + if MaskByte(vout, n - 1) != 0 then 1 else 0
  }

  /** How many mask bytes the outputs from the third on span. */
  function Span(vout: seq<TxOut>): nat {
    if |vout| <= 2 then 0 else (|vout| - 2 + 7) / 8
  }

  lemma {:induction false} MaskSizeMeans(vout: seq<TxOut>, n: nat)
    ensures MaskSize(vout, n) <= n && NonzeroBytes(vout, n) == NonzeroBytes(vout, MaskSize(vout, n))
    ensures MaskSize(vout, n) > 0 ==> MaskByte(vout, MaskSize(vout, n) - 1) != 0
  {
    if n > 0 && MaskByte(vout, n - 1) == 0 {
      MaskSizeMeans(vout, n - 1);
    }
  }

  method CalcMaskSize(vout: seq<TxOut>) returns (nBytes: nat, nNonzeroBytes: nat)
    ensures nBytes == MaskSize(vout, Span(vout)) && nNonzeroBytes == NonzeroBytes(vout, Span(vout))
  {
    nBytes, nNonzeroBytes := 0, 0;
    var b := 0;
    while 2 + b * 8 < |vout|
      invariant b <= Span(vout) && nBytes == MaskSize(vout, b) && nNonzeroBytes == NonzeroBytes(vout, b)
    {
      var fZero := NoneLeft(vout, b);
      if !fZero {
        nBytes := b + 1;
        nNonzeroBytes := nNonzeroBytes + 1;
      }
      b := b + 1;
    }
  }

  method NoneLeft(vout: seq<TxOut>, b: nat) returns (fZero: bool)
    ensures fZero <==> MaskByte(vout, b) == 0
  {
    fZero := true;
    var i := 0;
    ghost var f := MaskFlags(vout, b);
    while i < 8 && 2 + b * 8 + i < |vout|
      invariant 0 <= i <= 8 && fZero == (true !in f[..i])
    {
      assert f[..i + 1] == f[..i] + [f[i]];
      if !vout[2 + b * 8 + i].IsNull() {
        fZero := false;
      }
      i := i + 1;
    }
    RestIsNull(vout, b, i);
    BitsOfNumber(f);
  }

  lemma RestIsNull(vout: seq<TxOut>, b: nat, i: nat)
    requires i <= 8 && (i < 8 ==> 2 + b * 8 + i >= |vout|)
    ensures
      var f := MaskFlags(vout, b);
      true in f <==> true in f[..i]
  {
    var f := MaskFlags(vout, b);
    if true in f {
      var j :| 0 <= j < 8 && f[j];
      assert f[..i][j];
    }
  }

  // ----- the record -----

  function MaskFrom(vout: seq<TxOut>, b: nat, size: nat): (m: seq<Byte>)
    requires b <= size
    ensures |m| == size - b
    decreases size - b
  {
    if b == size then [] else [MaskByte(vout, b)] + MaskFrom(vout, b + 1, size)
  }

  /** Outputs that are not spent have an amount. */
  predicate Storable(vout: seq<TxOut>) {
    forall i | 0 <= i < |vout| :: vout[i].nValue >= 0 || vout[i].IsNull()
  }

  function Restated(vout: seq<TxOut>): (r: seq<TxOut>)
    ensures |r| == |vout| && forall i | 0 <= i < |vout| :: r[i] == Restate(vout[i])
  {
    seq(|vout|, i requires 0 <= i < |vout| => Restate(vout[i]))
  }

  function OutsFrom(k: Curve, vout: seq<TxOut>, i: nat): seq<Byte>
    requires i <= |vout| && Storable(vout)
    decreases |vout| - i
  {
    if i == |vout| then []
    else (if vout[i].IsNull() then [] else OutBytes(k, vout[i])) + OutsFrom(k, vout, i + 1)
  }

  function HeaderCode(c: Coins): int {
    var f0, f1 := Flag(c.vout, 0), Flag(c.vout, 1);
    8 * (NonzeroBytes(c.vout, Span(c.vout)) - (if f0 || f1 then 0 else 1)) +
    (if c.fCoinBase then 1 else 0) + (if f0 then 2 else 0) + (if f1 then 4 else 0)
  }

  lemma {:induction false} SomeNonzero(vout: seq<TxOut>, n: nat, b: nat)
    requires b < n && MaskByte(vout, b) != 0
    ensures NonzeroBytes(vout, n) > 0 && MaskSize(vout, n) > b
  {
    if b < n - 1 {
      SomeNonzero(vout, n - 1, b);
    }
  }

  /** The byte of an available output is not zero. */
  lemma FlagInMask(vout: seq<TxOut>, i: nat)
    requires i >= 2 && Flag(vout, i)
    ensures (i - 2) / 8 < Span(vout) && MaskByte(vout, (i - 2) / 8) != 0
  {
    var b := (i - 2) / 8;
    var f := MaskFlags(vout, b);
    assert f[i - 2 - 8 * b];
    BitsOfNumber(f);
  }

  /** The assertion of `Serialize`: a record that is not pruned has something to write. */
  lemma HeaderCodeOk(c: Coins)
    requires !c.IsPruned()
    ensures HeaderCode(c) >= 0 && (Flag(c.vout, 0) || Flag(c.vout, 1) || NonzeroBytes(c.vout, Span(c.vout)) > 0)
  {
    var out :| out in c.vout && !out.IsNull();
    var i :| 0 <= i < |c.vout| && c.vout[i] == out;
    if i >= 2 {
      FlagInMask(c.vout, i);
      SomeNonzero(c.vout, Span(c.vout), (i - 2) / 8);
    }
  }

  function Written(k: Curve, c: Coins): seq<Byte>
    requires !c.IsPruned() && Storable(c.vout)
  {
    HeaderCodeOk(c);
    MaskSizeMeans(c.vout, Span(c.vout));
    WriteInt(c.nVersion) + (WriteVarInt(HeaderCode(c)) +
      (MaskFrom(c.vout, 0, MaskSize(c.vout, Span(c.vout))) + (OutsFrom(k, c.vout, 0) + WriteInt(c.nHeight))))
  }

  // ----- reading -----

  const BITS_PER_BYTE: nat := 8

  function ByteFlags(ch: Byte): seq<bool> {
    BitsOf(ch, BITS_PER_BYTE)
  }

  lemma FlagsOfMaskByte(vout: seq<TxOut>, b: nat)
    ensures ByteFlags(MaskByte(vout, b)) == MaskFlags(vout, b)
  {
    BitsOfNumber(MaskFlags(vout, b));
  }

  /** Reads mask bytes until `nMaskCode` non-zero ones were seen. */
  function ReadMask(s: seq<Byte>, i: nat, avail: seq<bool>, nMaskCode: nat): (r: Option<(seq<bool>, nat)>)
    requires i <= |s|
    ensures r.Some? ==> r.value.1 <= |s|
    decreases |s| - i
  {
    if nMaskCode == 0 then Some((avail, i))
    else if i == |s| then None
    else ReadMask(s, i + 1, avail + ByteFlags(s[i]), if s[i] != 0 then nMaskCode - 1 else nMaskCode)
  }

  /** Reads the outputs that are there, from flag `n` on. */
  function ReadOuts(k: Curve, s: seq<Byte>, i: nat, avail: seq<bool>, n: nat): (r: Option<(seq<TxOut>, nat)>)
    requires i <= |s| && n <= |avail|
    ensures r.Some? ==> r.value.1 <= |s|
    decreases |avail| - n
  {
    if n == |avail| then Some(([], i))
    else if !avail[n] then
      match ReadOuts(k, s, i, avail, n + 1)
      case None => None
      case Some((rest, j)) => Some(([NULL_OUT] + rest, j))
    else
      match ReadOut(k, s, i)
      case None => None
      case Some((o, i')) =>
        match ReadOuts(k, s, i', avail, n + 1)
        case None => None
        case Some((rest, j)) => Some(([o] + rest, j))
  }

  /** The whole record: `None` when the stream ends too early. */
  function ReadCoins(k: Curve, s: seq<Byte>, i: nat): Option<(Coins, nat)>
    requires i <= |s|
  {
    match ReadFrom(s, i, 0)
    case None => None
    case Some((nVersion, i1)) =>
      match ReadFrom(s, i1, 0)
      case None => None
      case Some((nCode, i2)) => ReadBody(k, s, i2, nVersion, nCode)
  }

  /** The first two availabilities in a header code, and the number of non-zero mask bytes. */
  function FirstFlags(nCode: nat): seq<bool> {
    [nCode / 2 % 2 == 1, nCode / 4 % 2 == 1]
  }

  function MaskCode(nCode: nat): nat {
    nCode / 8 + if nCode / 2 % 4 != 0 then 0 else 1
  }

  function ReadBody(k: Curve, s: seq<Byte>, i: nat, nVersion: int, nCode: nat): Option<(Coins, nat)>
    requires i <= |s|
  {
    match ReadMask(s, i, FirstFlags(nCode), MaskCode(nCode))
    case None => None
    case Some((flags, i1)) =>
      ReadRest(k, s, i1, nCode % 2 == 1, nVersion, flags)
  }

  function ReadRest(k: Curve, s: seq<Byte>, i: nat, fCoinBase: bool, nVersion: int, flags: seq<bool>): Option<(Coins, nat)>
    requires i <= |s|
  {
    match ReadOuts(k, s, i, flags, 0)
    case None => None
    case Some((vout, i1)) =>
      match ReadFrom(s, i1, 0)
      case None => None
      case Some((nHeight, i2)) => Some((Cleaned(Coins(fCoinBase, vout, nHeight, nVersion)), i2))
  }

  lemma {:induction false} NonzeroGrows(vout: seq<TxOut>, b: nat, n: nat)
    requires b <= n
    ensures NonzeroBytes(vout, b) <= NonzeroBytes(vout, n)
  {
    if b < n {
      NonzeroGrows(vout, b, n - 1);
    }
  }

  /** The number of non-zero bytes alone tells where the mask ends. */
  lemma {:induction false} ReadsMask(s: seq<Byte>, i: nat, vout: seq<TxOut>, b: nat, size: nat, avail: seq<bool>, code: nat, flags: seq<bool>, j: nat)
    requires b <= size && At(s, i, MaskFrom(vout, b, size)) && (size > 0 ==> MaskByte(vout, size - 1) != 0)
    requires NonzeroBytes(vout, size) == NonzeroBytes(vout, b) + code && j == i + (size - b)
    requires flags == avail + FlagsOf(vout, 2 + 8 * b, 2 + 8 * size)
    ensures ReadMask(s, i, avail, code) == Some((flags, j))
    decreases size - b
  {
    if b == size {
      assert flags == avail;
    } else {
      NonzeroGrows(vout, b, size - 1);
      var x, f := MaskByte(vout, b), MaskFlags(vout, b);
      AtSplit(s, i, [x], MaskFrom(vout, b + 1, size));
      FlagsOfMaskByte(vout, b);
      ReadsOneByte(s, i, x, f, avail, code);
      FlagsSplit(vout, b, size, avail);
      NonzeroGrows(vout, b + 1, size);
      ReadsMask(s, i + 1, vout, b + 1, size, avail + f, if x != 0 then code - 1 else code, flags, j);
    }
  }

  lemma ReadsOneByte(s: seq<Byte>, i: nat, x: Byte, f: seq<bool>, avail: seq<bool>, code: nat)
    requires At(s, i, [x]) && code > 0 && ByteFlags(x) == f
    ensures ReadMask(s, i, avail, code) == ReadMask(s, i + 1, avail + f, if x != 0 then code - 1 else code)
  {
    assert s[i] == s[i..i + 1][0] == x;
  }

  lemma FlagsSplit(vout: seq<TxOut>, b: nat, size: nat, avail: seq<bool>)
    requires b < size
    ensures avail + MaskFlags(vout, b) + FlagsOf(vout, 2 + 8 * (b + 1), 2 + 8 * size) == avail + FlagsOf(vout, 2 + 8 * b, 2 + 8 * size)
  {
  }

  function Nulls(n: nat): (s: seq<TxOut>)
    ensures |s| == n && forall i | 0 <= i < n :: s[i] == NULL_OUT
  {
    seq(n, _ => NULL_OUT)
  }

  lemma {:induction false} ReadsNulls(k: Curve, s: seq<Byte>, i: nat, avail: seq<bool>, n: nat)
    requires i <= |s| && n <= |avail| && forall j | n <= j < |avail| :: !avail[j]
    ensures ReadOuts(k, s, i, avail, n) == Some((Nulls(|avail| - n), i))
    decreases |avail| - n
  {
    if n < |avail| {
      ReadsNulls(k, s, i, avail, n + 1);
      assert [NULL_OUT] + Nulls(|avail| - n - 1) == Nulls(|avail| - n);
    } else {
      assert Nulls(0) == [];
    }
  }

  lemma {:induction false} ReadsOuts(k: Curve, s: seq<Byte>, i: nat, vout: seq<TxOut>, avail: seq<bool>, n: nat, back: seq<TxOut>, b: seq<Byte>, j: nat)
    requires k.Recovers() && Storable(vout) && n <= |vout| <= |avail| && b == OutsFrom(k, vout, n) && At(s, i, b) && j == i + |b|
    requires (forall j | 0 <= j < |avail| :: avail[j] == Flag(vout, j)) && back == Restated(vout) + Nulls(|avail| - |vout|)
    ensures ReadOuts(k, s, i, avail, n) == Some((back[n..], j))
    decreases |vout| - n
  {
    if n == |vout| {
      ReadsNulls(k, s, i, avail, n);
      assert back[n..] == Nulls(|avail| - n);
    } else {
      var o, m, rest := vout[n], n + 1, OutsFrom(k, vout, n + 1);
      assert [Restate(o)] + back[m..] == back[n..];
      if o.IsNull() {
        assert b == rest;
        ReadsOuts(k, s, i, vout, avail, m, back, rest, j);
        SkipIs(k, s, i, avail, n, m, back[m..], j);
      } else {
        var one := OutBytes(k, o);
        var i' := i + |one|;
        AtSplit(s, i, one, rest);
        ReadsOut(k, s, i, o, one, i');
        ReadsOuts(k, s, i', vout, avail, m, back, rest, j);
        OutsIs(k, s, i, avail, n, m, Restate(o), i', back[m..], j);
      }
    }
  }

  lemma {:induction false} SkipIs(k: Curve, s: seq<Byte>, i: nat, avail: seq<bool>, n: nat, m: nat, rest: seq<TxOut>, j: nat)
    requires i <= |s| && n < |avail| && !avail[n] && m == n + 1 && ReadOuts(k, s, i, avail, m) == Some((rest, j))
    ensures ReadOuts(k, s, i, avail, n) == Some(([NULL_OUT] + rest, j))
  {
  }

  lemma {:induction false} OutsIs(k: Curve, s: seq<Byte>, i: nat, avail: seq<bool>, n: nat, m: nat, o: TxOut, i': nat, rest: seq<TxOut>, j: nat)
    requires i <= |s| && i' <= |s| && n < |avail| && avail[n] && m == n + 1
    requires ReadOut(k, s, i) == Some((o, i')) && ReadOuts(k, s, i', avail, m) == Some((rest, j))
    ensures ReadOuts(k, s, i, avail, n) == Some(([o] + rest, j))
  {
  }

  lemma {:induction false} TrimBack(vout: seq<TxOut>, n: nat)
    requires vout == [] || !vout[|vout| - 1].IsNull()
    ensures TrimNulls(vout + Nulls(n)) == vout
  {
    var all := vout + Nulls(n);
    if n > 0 {
      assert all[..|all| - 1] == vout + Nulls(n - 1);
      TrimBack(vout, n - 1);
    } else {
      assert all == vout;
    }
  }

  /** The record came out and the stream stands at `j`. */
  ghost predicate IsRead(o: Option<(Coins, nat)>, c: Coins, j: nat) {
    o == Some((c, j))
  }

  lemma {:induction false} HeaderDecodes(c: Coins)
    requires !c.IsPruned()
    ensures Describes(HeaderCode(c), c, Span(c.vout))
  {
    HeaderCodeOk(c);
    Unpacks(NonzeroBytes(c.vout, Span(c.vout)), c.fCoinBase, Flag(c.vout, 0), Flag(c.vout, 1), HeaderCode(c));
  }

  lemma Unpacks(n: nat, f: bool, f0: bool, f1: bool, nCode: int)
    requires f0 || f1 || n > 0
    requires nCode == 8 * (n - (if f0 || f1 then 0 else 1)) + (if f then 1 else 0) + (if f0 then 2 else 0) + (if f1 then 4 else 0)
    ensures nCode >= 0 && (nCode % 2 == 1) == f && FirstFlags(nCode) == [f0, f1] && MaskCode(nCode) == n
  {
    ThreeBits(n - if f0 || f1 then 0 else 1, if f then 1 else 0, if f0 then 1 else 0, if f1 then 1 else 0);
  }

  lemma ThreeBits(a: nat, b: nat, b0: nat, b1: nat)
    requires b <= 1 && b0 <= 1 && b1 <= 1
    ensures
      var x := 8 * a + 4 * b1 + 2 * b0 + b;
      x % 2 == b && x / 2 % 2 == b0 && x / 4 % 2 == b1 && x / 8 == a && x / 2 % 4 == 2 * b1 + b0
  {
    var x := 8 * a + 4 * b1 + 2 * b0 + b;
    assert x / 2 == 4 * a + 2 * b1 + b0;
    assert x / 4 == 2 * a + b1;
  }

  /** All outputs lie under the first two flags and the mask. */
  lemma MaskCovers(c: Coins)
    requires c.IsClean()
    ensures |c.vout| <= 2 + 8 * MaskSize(c.vout, Span(c.vout))
  {
    if |c.vout| > 2 {
      FlagInMask(c.vout, |c.vout| - 1);
      SomeNonzero(c.vout, Span(c.vout), (|c.vout| - 3) / 8);
    }
  }

  /** What a record is once written and read, if its numbers are not negative. */
  function Returned(c: Coins): Coins {
    c.(vout := Restated(c.vout))
  }

  /** Version and height are written as signed numbers. */
  function Unsigned(c: Coins): Coins {
    c.(nVersion := Kept(c.nVersion), nHeight := Kept(c.nHeight))
  }

  lemma {:induction false} ReadsRest(k: Curve, s: seq<Byte>, i: nat, c: Coins, flags: seq<bool>, o: seq<Byte>, h: seq<Byte>, j: nat)
    requires k.Recovers() && c.IsClean() && c.nHeight >= 0 && Storable(c.vout)
    requires |c.vout| <= |flags| && forall j | 0 <= j < |flags| :: flags[j] == Flag(c.vout, j)
    requires o == OutsFrom(k, c.vout, 0) && h == WriteVarInt(c.nHeight) && At(s, i, o + h) && j == i + |o| + |h|
    ensures IsRead(ReadRest(k, s, i, c.fCoinBase, c.nVersion, flags), Returned(c), j)
  {
    var n, m := |flags| - |c.vout|, i + |o|;
    AtSplit(s, i, o, h);
    ReadsAllOuts(k, s, i, c, flags, o, m, n);
    ReadsNumber(s, m, c.nHeight, h, j);
    CleanedBack(Returned(c), n);
    RestIs(k, s, i, Returned(c), flags, Restated(c.vout) + Nulls(n), m, j);
  }

  lemma {:induction false} ReadsAllOuts(k: Curve, s: seq<Byte>, i: nat, c: Coins, flags: seq<bool>, o: seq<Byte>, m: nat, n: nat)
    requires k.Recovers() && Storable(c.vout) && |flags| == |c.vout| + n && forall j | 0 <= j < |flags| :: flags[j] == Flag(c.vout, j)
    requires o == OutsFrom(k, c.vout, 0) && At(s, i, o) && m == i + |o|
    ensures ReadOuts(k, s, i, flags, 0) == Some((Restated(c.vout) + Nulls(n), m))
  {
    var back := Restated(c.vout) + Nulls(n);
    ReadsOuts(k, s, i, c.vout, flags, 0, back, o, m);
    assert back[0..] == back;
  }

  lemma {:induction false} ReadsNumber(s: seq<Byte>, i: nat, n: nat, v: seq<Byte>, j: nat)
    requires v == WriteVarInt(n) && At(s, i, v) && j == i + |v|
    ensures ReadFrom(s, i, 0) == Some((n, j))
  {
    ReadWritten(s, i, n);
  }

  lemma CleanedBack(c: Coins, n: nat)
    requires c.IsClean()
    ensures Cleaned(c.(vout := c.vout + Nulls(n))) == c
  {
    TrimBack(c.vout, n);
  }

  lemma {:induction false} RestIs(k: Curve, s: seq<Byte>, i: nat, c: Coins, flags: seq<bool>, vout: seq<TxOut>, i1: nat, i2: nat)
    requires i <= |s| && i1 <= |s| && ReadOuts(k, s, i, flags, 0) == Some((vout, i1)) && ReadFrom(s, i1, 0) == Some((c.nHeight, i2))
    requires Cleaned(c.(vout := vout)) == c && c.nHeight >= 0
    ensures IsRead(ReadRest(k, s, i, c.fCoinBase, c.nVersion, flags), c, i2)
  {
  }

  /** A record is written like the one that will be read. */
  lemma WrittenUnsigned(k: Curve, c: Coins)
    requires !c.IsPruned() && Storable(c.vout)
    ensures !Unsigned(c).IsPruned() && Written(k, Unsigned(c)) == Written(k, c)
  {
    WriteIntKept(c.nVersion);
    WriteIntKept(c.nHeight);
    assert Unsigned(c).vout == c.vout && HeaderCode(Unsigned(c)) == HeaderCode(c);
  }

  /** Reading a record back consumes exactly the bytes that were written. */
  lemma ReadCoinsWritten(k: Curve, s: seq<Byte>, i: nat, c: Coins, j: nat)
    requires k.Recovers() && !c.IsPruned() && c.IsClean() && Storable(c.vout)
    requires At(s, i, Written(k, c)) && j == i + |Written(k, c)|
    ensures IsRead(ReadCoins(k, s, i), Returned(Unsigned(c)), j)
  {
    WrittenUnsigned(k, c);
    ReadsUnsigned(k, s, i, Unsigned(c), j);
  }

  lemma {:induction false} ReadsUnsigned(k: Curve, s: seq<Byte>, i: nat, c: Coins, j: nat)
    requires k.Recovers() && !c.IsPruned() && c.IsClean() && c.nVersion >= 0 && c.nHeight >= 0 && Storable(c.vout)
    requires At(s, i, Written(k, c)) && j == i + |Written(k, c)|
    ensures IsRead(ReadCoins(k, s, i), Returned(c), j)
  {
    var size, nCode := MaskSize(c.vout, Span(c.vout)), HeaderCode(c);
    HeaderDecodes(c);
    MaskSizeMeans(c.vout, Span(c.vout));
    MaskCovers(c);
    ReadsParts(k, s, i, c, size, nCode, WriteVarInt(c.nVersion), WriteVarInt(nCode), MaskFrom(c.vout, 0, size),
               OutsFrom(k, c.vout, 0), WriteVarInt(c.nHeight), j);
  }

  /** An output that comes back as it was: spent and empty, or with a script that is not over-long. */
  predicate Lasts(o: TxOut) {
    if o.IsNull() then o == NULL_OUT else |o.scriptPubKey| <= MAX_SCRIPT_SIZE
  }

  /** The record itself comes back iff neither version nor height is negative and no script in it is over-long. */
  lemma RestoredIff(k: Curve, s: seq<Byte>, i: nat, c: Coins, j: nat)
    requires k.Recovers() && !c.IsPruned() && c.IsClean() && Storable(c.vout)
    requires At(s, i, Written(k, c)) && j == i + |Written(k, c)|
    ensures IsRead(ReadCoins(k, s, i), c, j) <==>
            c.nVersion >= 0 && c.nHeight >= 0 && forall n | 0 <= n < |c.vout| :: Lasts(c.vout[n])
  {
    ReadCoinsWritten(k, s, i, c, j);
    RestatedLasts(c.vout);
  }

  lemma RestatedLasts(vout: seq<TxOut>)
    ensures Restated(vout) == vout <==> forall n | 0 <= n < |vout| :: Lasts(vout[n])
  {
    forall n | 0 <= n < |vout| ensures Restated(vout)[n] == vout[n] <==> Lasts(vout[n]) {
    }
  }

  /** A record that does not come back: one output with a script of 10001 zero bytes. */
  lemma OverlongIsLost(k: Curve, script: Script)
    requires k.Recovers() && script == seq(MAX_SCRIPT_SIZE + 1, _ => 0)
    ensures
      var c := Coins(false, [TxOut(1, script)], 1, 1);
      !c.IsPruned() && c.IsClean() && Storable(c.vout) && !IsRead(ReadCoins(k, Written(k, c), 0), c, |Written(k, c)|)
  {
    var c := Coins(false, [TxOut(1, script)], 1, 1);
    assert c.vout[0] in c.vout && !c.IsPruned();
    assert !Lasts(c.vout[0]);
    var s := Written(k, c);
    assert s[0..0 + |s|] == s;
    RestoredIff(k, s, 0, c, |s|);
  }

  /** Another one: version -1 is stored as the byte 127 and read as 127. */
  lemma NegativeIsLost(k: Curve, c: Coins)
    requires k.Recovers() && c == Coins(false, [TxOut(1, [])], 1, -1)
    ensures
      && !c.IsPruned() && c.IsClean() && Storable(c.vout)
      && var s := Written(k, c); IsRead(ReadCoins(k, s, 0), c.(nVersion := 127), |s|)
  {
    assert c.vout[0] in c.vout && !c.IsPruned();
    var s := Written(k, c);
    assert s[0..0 + |s|] == s;
    NegativeVersion(k, s, 0, c, |s|);
  }

  lemma NegativeVersion(k: Curve, s: seq<Byte>, i: nat, c: Coins, j: nat)
    requires k.Recovers() && !c.IsPruned() && c.IsClean() && Storable(c.vout) && c.nVersion == -1 && c.nHeight >= 0
    requires (forall n | 0 <= n < |c.vout| :: Lasts(c.vout[n])) && At(s, i, Written(k, c)) && j == i + |Written(k, c)|
    ensures IsRead(ReadCoins(k, s, i), c.(nVersion := 127), j)
  {
    ReadCoinsWritten(k, s, i, c, j);
    MinusOne(c);
  }

  lemma MinusOne(c: Coins)
    requires c.nVersion == -1 && c.nHeight >= 0 && forall n | 0 <= n < |c.vout| :: Lasts(c.vout[n])
    ensures Returned(Unsigned(c)) == c.(nVersion := 127)
  {
    RestatedLasts(c.vout);
  }

  /** `ClearUnspendable`, which every record made from a transaction goes through, leaves only such outputs. */
  lemma ClearedLasts(c: Coins, n: nat)
    requires (forall o | o in c.vout && o.IsNull() :: o == NULL_OUT) && n < |Cleaned(c.(vout := Spendable(c.vout))).vout|
    ensures Lasts(Cleaned(c.(vout := Spendable(c.vout))).vout[n])
  {
    var r := c.(vout := Spendable(c.vout));
    assert TrimNulls(r.vout)[n] == r.vout[n];
    assert c.vout[n] in c.vout;
  }

  lemma {:induction false} ReadsParts(k: Curve, s: seq<Byte>, i: nat, c: Coins, size: nat, nCode: nat,
                                      v: seq<Byte>, n: seq<Byte>, m: seq<Byte>, o: seq<Byte>, h: seq<Byte>, j: nat)
    requires k.Recovers() && c.IsClean() && c.nVersion >= 0 && c.nHeight >= 0 && Storable(c.vout) && Describes(nCode, c, size)
    requires |c.vout| <= 2 + 8 * size && (size > 0 ==> MaskByte(c.vout, size - 1) != 0)
    requires v == WriteVarInt(c.nVersion) && n == WriteVarInt(nCode) && m == MaskFrom(c.vout, 0, size)
    requires o == OutsFrom(k, c.vout, 0) && h == WriteVarInt(c.nHeight) && At(s, i, v + (n + (m + (o + h))))
    requires j == i + |v + (n + (m + (o + h)))|
    ensures IsRead(ReadCoins(k, s, i), Returned(c), j)
  {
    var i2 := i + |v| + |n|;
    ReadsHeader(k, s, i, c.nVersion, nCode, v, n, m + (o + h), i2);
    ReadsBody(k, s, i2, c, size, nCode, m, o, h, j);
  }

  lemma {:induction false} ReadsHeader(k: Curve, s: seq<Byte>, i: nat, nVersion: nat, nCode: nat, v: seq<Byte>, h: seq<Byte>, r: seq<Byte>, i2: nat)
    requires v == WriteVarInt(nVersion) && h == WriteVarInt(nCode) && At(s, i, v + (h + r)) && i2 == i + |v| + |h|
    ensures At(s, i2, r) && ReadCoins(k, s, i) == ReadBody(k, s, i2, nVersion, nCode)
  {
    AtSplit(s, i, v, h + r);
    AtSplit(s, i + |v|, h, r);
    ReadWritten(s, i, nVersion);
    ReadWritten(s, i + |v|, nCode);
    CoinsIs(k, s, i, nVersion, i + |v|, nCode, i2);
  }

  /** A header code says what `HeaderCode` put into it. */
  ghost predicate Describes(nCode: int, c: Coins, size: nat) {
    && nCode >= 0 && (nCode % 2 == 1) == c.fCoinBase
    && FirstFlags(nCode) == [Flag(c.vout, 0), Flag(c.vout, 1)] && MaskCode(nCode) == NonzeroBytes(c.vout, size)
  }

  lemma {:induction false} ReadsBody(k: Curve, s: seq<Byte>, i: nat, c: Coins, size: nat, nCode: nat, m: seq<Byte>, o: seq<Byte>, h: seq<Byte>, j: nat)
    requires k.Recovers() && c.IsClean() && c.nHeight >= 0 && Storable(c.vout) && Describes(nCode, c, size)
    requires |c.vout| <= 2 + 8 * size && (size > 0 ==> MaskByte(c.vout, size - 1) != 0)
    requires m == MaskFrom(c.vout, 0, size) && o == OutsFrom(k, c.vout, 0) && h == WriteVarInt(c.nHeight)
    requires At(s, i, m + (o + h)) && j == i + |m| + |o| + |h|
    ensures IsRead(ReadBody(k, s, i, c.nVersion, nCode), Returned(c), j)
  {
    var flags := [Flag(c.vout, 0), Flag(c.vout, 1)] + FlagsOf(c.vout, 2, 2 + 8 * size);
    var i1 := i + size;
    ReadsFlags(k, s, i, c, size, nCode, m, o + h, flags, i1);
    AllFlags(c.vout, size);
    ReadsRest(k, s, i1, c, flags, o, h, j);
  }

  lemma AllFlags(vout: seq<TxOut>, size: nat)
    ensures
      var flags := [Flag(vout, 0), Flag(vout, 1)] + FlagsOf(vout, 2, 2 + 8 * size);
      |flags| == 2 + 8 * size && forall j | 0 <= j < |flags| :: flags[j] == Flag(vout, j)
  {
  }

  lemma {:induction false} ReadsFlags(k: Curve, s: seq<Byte>, i: nat, c: Coins, size: nat, nCode: nat, m: seq<Byte>, r: seq<Byte>, flags: seq<bool>, i1: nat)
    requires m == MaskFrom(c.vout, 0, size) && At(s, i, m + r) && (size > 0 ==> MaskByte(c.vout, size - 1) != 0) && Describes(nCode, c, size)
    requires flags == [Flag(c.vout, 0), Flag(c.vout, 1)] + FlagsOf(c.vout, 2, 2 + 8 * size) && i1 == i + size
    ensures At(s, i1, r) && ReadBody(k, s, i, c.nVersion, nCode) == ReadRest(k, s, i1, c.fCoinBase, c.nVersion, flags)
  {
    AtSplit(s, i, m, r);
    var avail := [Flag(c.vout, 0), Flag(c.vout, 1)];
    ReadsWholeMask(s, i, c.vout, size, m, avail, NonzeroBytes(c.vout, size), flags, i1);
    BodyIs(k, s, i, c, size, nCode, avail, flags, i1);
  }

  lemma {:induction false} ReadsWholeMask(s: seq<Byte>, i: nat, vout: seq<TxOut>, size: nat, m: seq<Byte>, avail: seq<bool>, nMaskCode: nat, flags: seq<bool>, i1: nat)
    requires m == MaskFrom(vout, 0, size) && At(s, i, m) && (size > 0 ==> MaskByte(vout, size - 1) != 0)
    requires nMaskCode == NonzeroBytes(vout, size) && flags == avail + FlagsOf(vout, 2, 2 + 8 * size) && i1 == i + size
    ensures ReadMask(s, i, avail, nMaskCode) == Some((flags, i1))
  {
    ReadsMask(s, i, vout, 0, size, avail, nMaskCode, flags, i1);
  }

  lemma {:induction false} BodyIs(k: Curve, s: seq<Byte>, i: nat, c: Coins, size: nat, nCode: nat, avail: seq<bool>, flags: seq<bool>, i1: nat)
    requires i <= |s| && i1 <= |s| && avail == [Flag(c.vout, 0), Flag(c.vout, 1)] && Describes(nCode, c, size)
    requires ReadMask(s, i, avail, NonzeroBytes(c.vout, size)) == Some((flags, i1))
    ensures ReadBody(k, s, i, c.nVersion, nCode) == ReadRest(k, s, i1, c.fCoinBase, c.nVersion, flags)
  {
  }

  lemma {:induction false} CoinsIs(k: Curve, s: seq<Byte>, i: nat, nVersion: nat, i1: nat, nCode: nat, i2: nat)
    requires i <= |s| && i1 <= |s| && i2 <= |s|
    requires ReadFrom(s, i, 0) == Some((nVersion, i1)) && ReadFrom(s, i1, 0) == Some((nCode, i2))
    ensures ReadCoins(k, s, i) == ReadBody(k, s, i2, nVersion, nCode)
  {
  }

  // ----- the writing loops -----

  method MaskByteOf(vout: seq<TxOut>, b: nat) returns (chAvail: Byte)
    ensures chAvail == MaskByte(vout, b)
  {
    ghost var f := MaskFlags(vout, b);
    var x, i, w := 0, 0, 1;
    while i < 8 && 2 + b * 8 + i < |vout|
      invariant 0 <= i <= 8 && x == NumberOf(f[..i]) && w == Pow2(i)
    {
      NumberGrows(f, i);
      if !vout[2 + b * 8 + i].IsNull() {
        x := x + w; // bit i is still clear
      }
      i, w := i + 1, 2 * w;
    }
    RestIsZero(f, i);
    assert x == NumberOf(f) == MaskByte(vout, b);
    chAvail := x;
  }

  lemma {:induction false} NumberGrows(f: seq<bool>, i: nat)
    requires i < |f|
    ensures NumberOf(f[..i + 1]) == NumberOf(f[..i]) + if f[i] then Pow2(i) else 0
  {
    if i > 0 {
      NumberGrows(f[1..], i - 1);
      assert f[..i + 1][1..] == f[1..][..i] && f[..i][1..] == f[1..][..i - 1];
    } else {
      assert f[..1][1..] == [] && f[..0] == [];
    }
  }

  lemma {:induction false} RestIsZero(f: seq<bool>, i: nat)
    requires i <= |f| && forall j | i <= j < |f| :: !f[j]
    ensures NumberOf(f[..i]) == NumberOf(f)
    decreases |f| - i
  {
    if i < |f| {
      NumberGrows(f, i);
      RestIsZero(f, i + 1);
    } else {
      assert f[..i] == f;
    }
  }

  /** Spent, or an amount and a script within the integer types they are written with. */
  predicate Writable(o: TxOut) {
    o.IsNull() || (0 <= o.nValue <= MAX_MONEY && |o.scriptPubKey| < SIZE_LIMIT)
  }

  method Serialize(k: Curve, c: Coins) returns (s: seq<Byte>)
    requires !c.IsPruned() && c.nVersion < Pow2(31) && c.nHeight < Pow2(31) && |c.vout| < Pow2(31)
    requires Storable(c.vout) && forall j | 0 <= j < |c.vout| :: Writable(c.vout[j])
    ensures s == Written(k, c)
  {
    var nMaskSize, nMaskCode := CalcMaskSize(c.vout);
    MaskSizeMeans(c.vout, Span(c.vout));
    var fFirst := |c.vout| > 0 && !c.vout[0].IsNull();
    var fSecond := |c.vout| > 1 && !c.vout[1].IsNull();
    HeaderCodeOk(c);
    assert fFirst || fSecond || nMaskCode > 0;
    var nCode := 8 * (nMaskCode - (if fFirst || fSecond then 0 else 1)) + (if c.fCoinBase then 1 else 0)
                 + (if fFirst then 2 else 0) + (if fSecond then 4 else 0);
    assert nCode == HeaderCode(c);
    CodeFits(c);
    var version := Write(c.nVersion, 32);
    var header := Write(nCode, 32);
    var mask := WriteMask(c.vout, nMaskSize);
    var outs := WriteOuts(k, c.vout);
    var height := Write(c.nHeight, 32);
    s := version + (header + (mask + (outs + height)));
  }

  lemma {:induction false} NonzeroAtMost(vout: seq<TxOut>, n: nat)
    ensures NonzeroBytes(vout, n) <= n
  {
    if n > 0 {
      NonzeroAtMost(vout, n - 1);
    }
  }

  lemma CodeFits(c: Coins)
    requires |c.vout| < Pow2(31) && c.nVersion < Pow2(31) && c.nHeight < Pow2(31)
    ensures HeaderCode(c) < Pow2(32) && c.nVersion < Pow2(32) && c.nHeight < Pow2(32)
  {
    NonzeroAtMost(c.vout, Span(c.vout));
    var n := 31;
    assert Pow2(n + 1) == 2 * Pow2(n);
    Pow2Mono(5, n);
    assert Pow2(5) == 32;
  }

  method WriteMask(vout: seq<TxOut>, nMaskSize: nat) returns (mask: seq<Byte>)
    ensures mask == MaskFrom(vout, 0, nMaskSize)
  {
    mask := [];
    for b := 0 to nMaskSize
      invariant mask + MaskFrom(vout, b, nMaskSize) == MaskFrom(vout, 0, nMaskSize)
    {
      var chAvail := MaskByteOf(vout, b);
      assert mask + ([chAvail] + MaskFrom(vout, b + 1, nMaskSize)) == mask + [chAvail] + MaskFrom(vout, b + 1, nMaskSize);
      mask := mask + [chAvail];
    }
  }

  method WriteOuts(k: Curve, vout: seq<TxOut>) returns (outs: seq<Byte>)
    requires Storable(vout) && forall j | 0 <= j < |vout| :: Writable(vout[j])
    ensures outs == OutsFrom(k, vout, 0)
  {
    outs := [];
    ghost var all, rest := OutsFrom(k, vout, 0), OutsFrom(k, vout, 0);
    for i := 0 to |vout|
      invariant rest == OutsFrom(k, vout, i) && outs + rest == all
    {
      OutsNext(k, vout, i, outs, OutsFrom(k, vout, i + 1));
      rest := OutsFrom(k, vout, i + 1);
      if !vout[i].IsNull() {
        var one := WriteOut(k, vout[i]);
        outs := outs + one;
      }
    }
    assert rest == [];
  }

  lemma OutsNext(k: Curve, vout: seq<TxOut>, i: nat, outs: seq<Byte>, rest: seq<Byte>)
    requires i < |vout| && Storable(vout) && rest == OutsFrom(k, vout, i + 1)
    ensures outs + OutsFrom(k, vout, i) == (if vout[i].IsNull() then outs else outs + OutBytes(k, vout[i])) + rest
  {
    assert [] + rest == rest;
  }

  method WriteOut(k: Curve, o: TxOut) returns (s: seq<Byte>)
    requires Writable(o) && !o.IsNull()
    ensures s == OutBytes(k, o)
  {
    var x := CompressAmount(o.nValue);
    Pow2Of64(64);
    var v := Write(x, 64);
    var script := SerializeScript(k, o.scriptPubKey);
    s := v + script;
  }

  // ----- the reading loops -----

  method UnpackByte(ch: Byte) returns (f: seq<bool>)
    ensures f == ByteFlags(ch)
  {
    f := [];
    var x: nat := ch;
    for p := 0 to BITS_PER_BYTE
      invariant |f| == p && f + BitsOf(x, BITS_PER_BYTE - p) == ByteFlags(ch)
    {
      assert f + ([x % 2 == 1] + BitsOf(x / 2, BITS_PER_BYTE - p - 1)) == f + [x % 2 == 1] + BitsOf(x / 2, BITS_PER_BYTE - p - 1);
      f := f + [x % 2 == 1]; // bit p of the byte
      x := x / 2;
    }
    assert f + [] == f;
  }

  method UnserializeMask(s: seq<Byte>, i0: nat, avail0: seq<bool>, code0: nat) returns (o: Option<(seq<bool>, nat)>)
    requires i0 <= |s|
    ensures o == ReadMask(s, i0, avail0, code0)
  {
    var i, avail, nMaskCode := i0, avail0, code0;
    while nMaskCode > 0
      invariant i0 <= i <= |s| && ReadMask(s, i0, avail0, code0) == ReadMask(s, i, avail, nMaskCode)
      decreases |s| - i
    {
      if i == |s| {
        return None;
      }
      var chAvail := s[i];
      i := i + 1;
      var f := UnpackByte(chAvail);
      avail := avail + f;
      if chAvail != 0 {
        nMaskCode := nMaskCode - 1;
      }
    }
    return Some((avail, i));
  }

  method UnserializeOut(k: Curve, s: seq<Byte>, i: nat) returns (o: Option<(TxOut, nat)>)
    requires i <= |s| && k.Recovers()
    ensures o == ReadOut(k, s, i)
  {
    var v := Read(s, i);
    if v == None {
      return None;
    }
    var nValue := DecompressAmount(v.value.0);
    var script := UnserializeScript(k, s, v.value.1);
    if script == None {
      return None;
    }
    o := Some((TxOut(nValue, script.value.0), script.value.1));
  }

  method UnserializeOuts(k: Curve, s: seq<Byte>, i0: nat, avail: seq<bool>) returns (o: Option<(seq<TxOut>, nat)>)
    requires i0 <= |s| && k.Recovers()
    ensures o == ReadOuts(k, s, i0, avail, 0)
  {
    var i: nat, vout := i0, [];
    PrependNone(ReadOuts(k, s, i0, avail, 0));
    for n := 0 to |avail|
      invariant i <= |s| && ReadOuts(k, s, i0, avail, 0) == Prepend(vout, ReadOuts(k, s, i, avail, n))
    {
      var out := NULL_OUT;
      if avail[n] {
        var one := UnserializeOut(k, s, i);
        if one == None {
          return None;
        }
        out, i := one.value.0, one.value.1;
      }
      PrependOne(vout, out, ReadOuts(k, s, i, avail, n + 1));
      vout := vout + [out];
    }
    assert vout + [] == vout;
    return Some((vout, i));
  }

  method Unserialize(k: Curve, s: seq<Byte>, i: nat) returns (o: Option<(Coins, nat)>)
    requires i <= |s| && k.Recovers()
    ensures o == ReadCoins(k, s, i)
  {
    var version := Read(s, i);
    if version == None {
      return None;
    }
    var code := Read(s, version.value.1);
    if code == None {
      return None;
    }
    o := UnserializeBody(k, s, code.value.1, version.value.0, code.value.0);
  }

  method UnserializeBody(k: Curve, s: seq<Byte>, i: nat, nVersion: int, nCode: nat) returns (o: Option<(Coins, nat)>)
    requires i <= |s| && k.Recovers()
    ensures o == ReadBody(k, s, i, nVersion, nCode)
  {
    var vAvail := [nCode / 2 % 2 == 1, nCode / 4 % 2 == 1];
    var nMaskCode := nCode / 8 + if nCode / 2 % 4 != 0 then 0 else 1;
    var mask := UnserializeMask(s, i, vAvail, nMaskCode);
    if mask == None {
      return None;
    }
    o := UnserializeRest(k, s, mask.value.1, nCode % 2 == 1, nVersion, mask.value.0);
  }

  method UnserializeRest(k: Curve, s: seq<Byte>, i: nat, fCoinBase: bool, nVersion: int, flags: seq<bool>) returns (o: Option<(Coins, nat)>)
    requires i <= |s| && k.Recovers()
    ensures o == ReadRest(k, s, i, fCoinBase, nVersion, flags)
  {
    var outs := UnserializeOuts(k, s, i, flags);
    if outs == None {
      return None;
    }
    var height := Read(s, outs.value.1);
    if height == None {
      return None;
    }
    var c := Cleanup(Coins(fCoinBase, outs.value.0, height.value.0, nVersion));
    o := Some((c, height.value.1));
  }
}
