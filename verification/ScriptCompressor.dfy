/**
 * The stored form of an output script (src/compressor.h:59-88, src/compressor.cpp:13-130): six short forms for common
 * scripts, otherwise the length and the bytes. The elliptic curve is a parameter.
 */
module ScriptCompressor {
  import opened Options
  import opened Powers
  import opened Slices
  import opened VarInt
  import opened CoinsRecord

  const OP_RETURN: Byte := 0x6a
  const OP_DUP: Byte := 0x76
  const OP_EQUAL: Byte := 0x87
  const OP_EQUALVERIFY: Byte := 0x88
  const OP_HASH160: Byte := 0xa9
  const OP_CHECKSIG: Byte := 0xac

  const MAX_SCRIPT_SIZE: nat := 10000
  const SPECIAL_SCRIPTS: nat := 6
  /** Sizes are 32-bit numbers. */
  const SIZE_LIMIT: nat := 0x8000_0000

  /** `CPubKey::IsFullyValid` on a full key, and `CPubKey::Decompress` on a compressed one. */
  datatype Curve = Curve(isFullyValid: seq<Byte> -> bool, decompress: seq<Byte> -> Option<seq<Byte>>) {
    /** A point on the curve is given back by its first coordinate and the parity of its second. */
    ghost predicate Recovers() {
      && (forall key {:trigger isFullyValid(key)} | |key| == 65 && key[0] == 4 && isFullyValid(key) ::
            decompress([2 + key[64] % 2] + key[1..33]) == Some(key))
      && (forall short {:trigger decompress(short)} | decompress(short).Some? :: |decompress(short).value| == 65)
    }
  }

  // ----- the short forms -----

  predicate IsToKeyID(s: Script) {
    |s| == 25 && s[0] == OP_DUP && s[1] == OP_HASH160 && s[2] == 20 && s[23] == OP_EQUALVERIFY && s[24] == OP_CHECKSIG
  }

  predicate IsToScriptID(s: Script) {
    |s| == 23 && s[0] == OP_HASH160 && s[1] == 20 && s[22] == OP_EQUAL
  }

  predicate IsToShortKey(s: Script) {
    |s| == 35 && s[0] == 33 && s[34] == OP_CHECKSIG && (s[1] == 2 || s[1] == 3)
  }

  predicate IsToFullKey(k: Curve, s: Script) {
    |s| == 67 && s[0] == 65 && s[66] == OP_CHECKSIG && s[1] == 4 && k.isFullyValid(s[1..66])
  }

  /** The kind of a script that has a short form: the first byte written. */
  function Kind(k: Curve, s: Script): (r: Option<Byte>)
    ensures r.Some? ==> r.value < SPECIAL_SCRIPTS
  {
    if IsToKeyID(s) then Some(0)
    else if IsToScriptID(s) then Some(1)
    else if IsToShortKey(s) then Some(s[1])
    else if IsToFullKey(k, s) then Some(4 + s[65] % 2)
    else None
  }

  /** What is kept of such a script. */
  function Payload(k: Curve, s: Script): seq<Byte>
    requires Kind(k, s).Some?
  {
    if IsToKeyID(s) then s[3..23] else if IsToScriptID(s) then s[2..22] else s[2..34]
  }

  function SpecialSize(kind: nat): nat {
    if kind <= 1 then 20 else if kind <= 5 then 32 else 0
  }

  /** The script a short form stands for; a key that is on no curve leaves the script empty. */
  function Expanded(k: Curve, kind: nat, payload: seq<Byte>): Script
    requires kind < SPECIAL_SCRIPTS && |payload| == SpecialSize(kind)
  {
    if kind == 0 then [OP_DUP, OP_HASH160, 20] + payload + [OP_EQUALVERIFY, OP_CHECKSIG]
    else if kind == 1 then [OP_HASH160, 20] + payload + [OP_EQUAL]
    else if kind <= 3 then [33, kind] + payload + [OP_CHECKSIG]
    else
      match k.decompress([kind - 2] + payload)
      case None => []
      case Some(key) => [65] + key + [OP_CHECKSIG]
  }

  lemma ExpandPayload(k: Curve, s: Script)
    requires k.Recovers() && Kind(k, s).Some?
    ensures |Payload(k, s)| == SpecialSize(Kind(k, s).value) && Expanded(k, Kind(k, s).value, Payload(k, s)) == s
  {
    var kind, payload := Kind(k, s).value, Payload(k, s);
    if IsToKeyID(s) {
      assert s == [OP_DUP, OP_HASH160, 20] + payload + [OP_EQUALVERIFY, OP_CHECKSIG];
    } else if IsToScriptID(s) {
      assert s == [OP_HASH160, 20] + payload + [OP_EQUAL];
    } else if IsToShortKey(s) {
      assert s == [33, kind] + payload + [OP_CHECKSIG];
    } else {
      var key := s[1..66];
      assert key[1..33] == payload;
      assert s == [65] + key + [OP_CHECKSIG];
    }
  }

  // ----- the stored form -----

  function WriteScript(k: Curve, s: Script): seq<Byte> {
    if Kind(k, s).Some? then [Kind(k, s).value] + Payload(k, s) else WriteVarInt(|s| + SPECIAL_SCRIPTS) + s
  }

  function ReadScript(k: Curve, t: seq<Byte>, i: nat): (r: Option<(Script, nat)>)
    requires i <= |t|
    ensures r.Some? ==> r.value.1 <= |t|
  {
    match ReadFrom(t, i, 0)
    case None => None
    case Some((nSize, j)) =>
      var n := if nSize < SPECIAL_SCRIPTS then SpecialSize(nSize) else nSize - SPECIAL_SCRIPTS;
      if j + n > |t| then None
      else if nSize < SPECIAL_SCRIPTS then Some((Expanded(k, nSize, t[j..j + n]), j + n))
      else if n > MAX_SCRIPT_SIZE then Some(([OP_RETURN], j + n))
      else Some((t[j..j + n], j + n))
  }

  /** Over-long scripts come back as one that cannot be spent either. */
  function Shortened(s: Script): Script {
    if |s| > MAX_SCRIPT_SIZE then [OP_RETURN] else s
  }

  lemma ReadsSpecial(k: Curve, t: seq<Byte>, i: nat, s: Script, w: seq<Byte>, j: nat)
    requires k.Recovers() && Kind(k, s).Some? && w == WriteScript(k, s) && At(t, i, w) && j == i + |w|
    ensures ReadScript(k, t, i) == Some((s, j))
  {
    var kind, payload := Kind(k, s).value, Payload(k, s);
    ExpandPayload(k, s);
    AtSplit(t, i, [kind], payload);
    assert WriteVarInt(kind) == [kind];
    ReadWritten(t, i, kind);
  }

  lemma ReadsPlain(k: Curve, t: seq<Byte>, i: nat, s: Script, w: seq<Byte>, j: nat)
    requires Kind(k, s) == None && w == WriteScript(k, s) && At(t, i, w) && j == i + |w|
    ensures ReadScript(k, t, i) == Some((Shortened(s), j))
  {
    var size := WriteVarInt(|s| + SPECIAL_SCRIPTS);
    AtSplit(t, i, size, s);
    ReadWritten(t, i, |s| + SPECIAL_SCRIPTS);
  }

  /** Reading what was written gives the script back, unless it is over-long, and stops right behind it. */
  lemma ReadScriptWritten(k: Curve, t: seq<Byte>, i: nat, s: Script, w: seq<Byte>, j: nat)
    requires k.Recovers() && w == WriteScript(k, s) && At(t, i, w) && j == i + |w|
    ensures ReadScript(k, t, i) == Some((Shortened(s), j))
  {
    if Kind(k, s).Some? {
      ReadsSpecial(k, t, i, s, w, j);
    } else {
      ReadsPlain(k, t, i, s, w, j);
    }
  }

  // ----- the buffers -----

  method Compress(k: Curve, script: Script) returns (out: Option<seq<Byte>>)
    ensures out == if Kind(k, script).Some? then Some([Kind(k, script).value] + Payload(k, script)) else None
  {
    if IsToKeyID(script) {
      var a := new Byte[21];
      a[0] := 0;
      forall i | 0 <= i < 20 { a[1 + i] := script[3 + i]; }
      assert a[..] == [0] + script[3..23];
      return Some(a[..]);
    }
    if IsToScriptID(script) {
      var a := new Byte[21];
      a[0] := 1;
      forall i | 0 <= i < 20 { a[1 + i] := script[2 + i]; }
      assert a[..] == [1] + script[2..22];
      return Some(a[..]);
    }
    if IsToShortKey(script) || IsToFullKey(k, script) {
      var a := new Byte[33];
      forall i | 0 <= i < 32 { a[1 + i] := script[2 + i]; }
      a[0] := if script[1] == 4 then 4 + script[65] % 2 else script[1];
      assert a[..] == [a[0]] + script[2..34];
      return Some(a[..]);
    }
    return None;
  }

  method Decompress(k: Curve, nSize: nat, in_: seq<Byte>) returns (script: Script)
    requires k.Recovers() && nSize < SPECIAL_SCRIPTS && |in_| == SpecialSize(nSize)
    ensures script == Expanded(k, nSize, in_)
  {
    if nSize == 0 {
      var a := new Byte[25];
      a[0], a[1], a[2], a[23], a[24] := OP_DUP, OP_HASH160, 20, OP_EQUALVERIFY, OP_CHECKSIG;
      forall i | 0 <= i < 20 { a[3 + i] := in_[i]; }
      assert a[..] == [OP_DUP, OP_HASH160, 20] + in_ + [OP_EQUALVERIFY, OP_CHECKSIG];
      return a[..];
    }
    if nSize == 1 {
      var a := new Byte[23];
      a[0], a[1], a[22] := OP_HASH160, 20, OP_EQUAL;
      forall i | 0 <= i < 20 { a[2 + i] := in_[i]; }
      assert a[..] == [OP_HASH160, 20] + in_ + [OP_EQUAL];
      return a[..];
    }
    if nSize <= 3 {
      var a := new Byte[35];
      a[0], a[1], a[34] := 33, nSize, OP_CHECKSIG;
      forall i | 0 <= i < 32 { a[2 + i] := in_[i]; }
      assert a[..] == [33, nSize] + in_ + [OP_CHECKSIG];
      return a[..];
    }
    var pubkey := k.decompress([nSize - 2] + in_);
    if pubkey == None {
      return [];
    }
    assert |pubkey.value| == 65;
    var a := new Byte[67];
    a[0], a[66] := 65, OP_CHECKSIG;
    forall i | 0 <= i < 65 { a[1 + i] := pubkey.value[i]; }
    assert a[..] == [65] + pubkey.value + [OP_CHECKSIG];
    return a[..];
  }

  method SerializeScript(k: Curve, script: Script) returns (s: seq<Byte>)
    requires |script| < SIZE_LIMIT
    ensures s == WriteScript(k, script)
  {
    var compr := Compress(k, script);
    if compr.Some? {
      return compr.value;
    }
    var nSize := |script| + SPECIAL_SCRIPTS;
    Pow2Of32(32);
    var size := Write(nSize, 32);
    s := size + script;
  }

  method UnserializeScript(k: Curve, t: seq<Byte>, i: nat) returns (r: Option<(Script, nat)>)
    requires i <= |t| && k.Recovers()
    ensures r == ReadScript(k, t, i)
  {
    var v := Read(t, i);
    if v == None {
      return None;
    }
    var (nSize, j) := v.value;
    if nSize < SPECIAL_SCRIPTS {
      var n := SpecialSize(nSize);
      if j + n > |t| {
        return None;
      }
      var script := Decompress(k, nSize, t[j..j + n]);
      return Some((script, j + n));
    }
    nSize := nSize - SPECIAL_SCRIPTS;
    if j + nSize > |t| {
      return None;
    }
    if nSize > MAX_SCRIPT_SIZE {
      return Some(([OP_RETURN], j + nSize));
    }
    return Some((t[j..j + nSize], j + nSize));
  }

  // ----- scripts that cannot be spent -----

  /** `CScript::IsUnspendable` (src/script/script.h:638-641). */
  predicate IsUnspendable(s: Script) {
    (|s| > 0 && s[0] == OP_RETURN) || |s| > MAX_SCRIPT_SIZE
  }

  function Spendable(vout: seq<TxOut>): (r: seq<TxOut>)
    ensures |r| == |vout| && forall i | 0 <= i < |vout| :: r[i] == if IsUnspendable(vout[i].scriptPubKey) then NULL_OUT else vout[i]
  {
    seq(|vout|, i requires 0 <= i < |vout| => if IsUnspendable(vout[i].scriptPubKey) then NULL_OUT else vout[i])
  }

  method ClearUnspendable(c: Coins) returns (r: Coins)
    ensures r == Cleaned(c.(vout := Spendable(c.vout)))
  {
    var vout := c.vout;
    for i := 0 to |vout|
      invariant |vout| == |c.vout| && forall j | 0 <= j < |vout| :: vout[j] == if j < i then Spendable(c.vout)[j] else c.vout[j]
    {
      if IsUnspendable(vout[i].scriptPubKey) {
        vout := vout[i := NULL_OUT];
      }
    }
    assert vout == Spendable(c.vout);
    r := Cleanup(c.(vout := vout));
  }
}
