/** Variable-length integers (src/serialize.h:272-347). */
module VarInt {
  import opened Options
  import opened Powers
  import opened Slices

  /** The bytes of a number: base 128, most significant first, one less in each place above the last. */
  function Bytes(n: nat, more: bool): (s: seq<Byte>)
    ensures |s| > 0
    decreases n
  {
    var last: Byte := n % 128 + if more then 128 else 0;
    if n <= 0x7f then [last] else Bytes(n / 128 - 1, true) + [last]
  }

  function WriteVarInt(n: nat): seq<Byte> {
    Bytes(n, false)
  }

  /** Reads from position `i`, with the number read so far. */
  function ReadFrom(s: seq<Byte>, i: nat, n: nat): (r: Option<(nat, nat)>)
    requires i <= |s|
    ensures r.Some? ==> i < r.value.1 <= |s|
    decreases |s| - i
  {
    if i == |s| then None
    else
      var n' := n * 128 + s[i] % 128;
      if s[i] >= 128 then ReadFrom(s, i + 1, n' + 1) else Some((n', i + 1))
  }

  /** Reading the upper bytes of a number leaves it read so far, ready for the last byte. */
  lemma {:induction false} ReadsUpper(s: seq<Byte>, i: nat, n: nat)
    requires i + |Bytes(n, true)| <= |s| && s[i..i + |Bytes(n, true)|] == Bytes(n, true)
    ensures ReadFrom(s, i, 0) == ReadFrom(s, i + |Bytes(n, true)|, n + 1)
    decreases n
  {
    var b := Bytes(n, true);
    var k := |b| - 1;
    assert s[i + k] == s[i..i + |b|][k] == b[k];
    if n > 0x7f {
      var u := Bytes(n / 128 - 1, true);
      assert s[i..i + k] == s[i..i + |b|][..k] == u;
      ReadsUpper(s, i, n / 128 - 1);
    }
  }

  /** Reading back gives the number and stops right behind it. */
  lemma ReadWritten(s: seq<Byte>, i: nat, n: nat)
    requires i + |WriteVarInt(n)| <= |s| && s[i..i + |WriteVarInt(n)|] == WriteVarInt(n)
    ensures ReadFrom(s, i, 0) == Some((n, i + |WriteVarInt(n)|))
  {
    var b := WriteVarInt(n);
    var k := |b| - 1;
    assert s[i + k] == s[i..i + |b|][k] == b[k];
    if n > 0x7f {
      assert s[i..i + k] == s[i..i + |b|][..k] == Bytes(n / 128 - 1, true);
      ReadsUpper(s, i, n / 128 - 1);
    }
  }

  /** A signed number: the loop ends at once on a negative one and keeps its lowest seven bits. */
  function WriteInt(n: int): seq<Byte> {
    if n < 0 then [n % 128] else WriteVarInt(n)
  }

  /** What a signed number is once written and read. */
  function Kept(n: int): nat {
    if n < 0 then n % 128 else n
  }

  lemma WriteIntKept(n: int)
    ensures WriteInt(n) == WriteVarInt(Kept(n))
  {
  }

  /** A signed number comes back iff it is not negative. */
  lemma ReadIntWritten(s: seq<Byte>, i: nat, n: int)
    requires At(s, i, WriteInt(n))
    ensures ReadFrom(s, i, 0) == Some((Kept(n), i + |WriteInt(n)|)) && (Kept(n) == n <==> n >= 0)
  {
    WriteIntKept(n);
    ReadWritten(s, i, Kept(n));
  }

  /** Seven bits go into each byte, so `bits` bits fill at most (bits + 6) / 7 bytes. */
  lemma {:induction false} ShortEnough(n: nat, more: bool, k: nat)
    requires n < Pow2(7 * k) && k > 0
    ensures |Bytes(n, more)| <= k
    decreases n
  {
    if n > 0x7f {
      Pow2Add(7, 7 * (k - 1));
      assert Pow2(7) == 128;
      ShortEnough(n / 128 - 1, true, k - 1);
    }
  }

  /** The writing loop, with its buffer sized for the integer type. */
  method Write(n0: int, bits: nat) returns (out: seq<Byte>)
    requires bits > 0 && n0 < Pow2(bits)
    ensures out == WriteInt(n0)
  {
    var size := (bits + 6) / 7;
    BufferFits(n0, bits, size);
    WriteIntKept(n0);
    ghost var all := WriteInt(n0);
    var tmp := new Byte[size];
    var n, len := n0, 0;
    while true
      invariant 0 <= len <= size && Pending(all, n, tmp[..len]) && |all| <= size
      decreases Kept(n)
    {
      PendingNext(all, n, tmp[..len]);
      ghost var before := tmp[..len];
      tmp[len] := n % 128 + if len > 0 then 128 else 0;
      assert tmp[..len + 1] == before + [tmp[len]];
      if n <= 0x7f {
        break;
      }
      n := n / 128 - 1;
      len := len + 1;
    }
    out := Reversed(tmp[..len + 1]);
  }

  /** The bytes of `n` are still to come, in front of `done` read backwards. */
  ghost predicate Pending(all: seq<Byte>, n: int, done: seq<Byte>) {
    all == Bytes(Kept(n), |done| > 0) + Reversed(done)
  }

  lemma PendingNext(all: seq<Byte>, n: int, done: seq<Byte>)
    requires Pending(all, n, done)
    ensures
      var more := done + [n % 128 + if |done| > 0 then 128 else 0];
      |more| <= |all| && if n <= 0x7f then all == Reversed(more) else Pending(all, n / 128 - 1, more)
  {
    var last: Byte := n % 128 + if |done| > 0 then 128 else 0;
    assert Reversed(done + [last]) == [last] + Reversed(done);
  }

  lemma BufferFits(n: int, bits: nat, size: nat)
    requires bits > 0 && n < Pow2(bits) && size == (bits + 6) / 7
    ensures size > 0 && |WriteInt(n)| <= size
  {
    WriteIntKept(n);
    if n >= 0 {
      Pow2Mono(bits, 7 * size);
      ShortEnough(n, false, size);
    }
  }

  method Read(s: seq<Byte>, i0: nat) returns (o: Option<(nat, nat)>)
    requires i0 <= |s|
    ensures o == ReadFrom(s, i0, 0)
  {
    var i: nat, n: nat := i0, 0;
    while i < |s|
      invariant i0 <= i <= |s| && 0 <= n && ReadFrom(s, i0, 0) == ReadFrom(s, i, n)
    {
      var chData: nat := s[i];
      n := n * 128 + chData % 128;
      i := i + 1;
      if chData >= 128 {
        n := n + 1;
      } else {
        return Some((n, i));
      }
    }
    return None;
  }
}
