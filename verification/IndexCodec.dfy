/** The differential index list of `BlockTransactionsRequest` (src/blockencodings.h:30-70). */
module IndexCodec {
  import opened Options

  const MAX16: nat := 0xffff
  const MOD64: nat := 0x1_0000_0000_0000_0000

  /** The number written for entry `i`: an `int` difference, converted to 64 bits. */
  function Difference(indexes: seq<nat>, i: nat): nat
    requires i < |indexes|
  {
    (indexes[i] - (if i == 0 then 0 else indexes[i - 1] + 1)) % MOD64
  }

  method WriteIndexes(indexes: seq<nat>) returns (written: seq<nat>)
    ensures |written| == |indexes| && forall i | 0 <= i < |indexes| :: written[i] == Difference(indexes, i)
  {
    written := [];
    for i := 0 to |indexes|
      invariant |written| == i && forall j | 0 <= j < i :: written[j] == Difference(indexes, j)
    {
      var index := (indexes[i] - (if i == 0 then 0 else indexes[i - 1] + 1)) % MOD64;
      written := written + [index];
    }
  }

  /** Adds up differences; the running offset is a 16-bit number. `None` is the exception. */
  function Sums(read: seq<nat>, offset: nat): Option<seq<nat>> {
    if read == [] then Some([])
    else if read[0] > MAX16 || read[0] + offset > MAX16 then None
    else
      match Sums(read[1..], (read[0] + offset + 1) % 0x1_0000)
      case None => None
      case Some(rest) => Some([read[0] + offset] + rest)
  }

  /** The 16-bit offset before entry `i`. */
  function Offset(s: seq<nat>, offset: nat, i: nat): nat
    requires i <= |s|
  {
    if i == 0 then offset else (s[i - 1] + 1) % 0x1_0000
  }

  /** Entry `i` of `s` is the difference with its offset added, within 16 bits. */
  ghost predicate AddsAt(d: seq<nat>, offset: nat, s: seq<nat>, i: nat) {
    i < |s| && i < |d| && d[i] <= MAX16 && s[i] == d[i] + Offset(s, offset, i) <= MAX16
  }

  ghost predicate Adds(d: seq<nat>, offset: nat, s: seq<nat>, n: nat) {
    forall i {:trigger AddsAt(d, offset, s, i)} | 0 <= i < n :: AddsAt(d, offset, s, i)
  }

  /** Reading: first all entries, each checked to fit in 16 bits, then the offsets. */
  method ReadIndexes(read: seq<nat>) returns (r: Option<seq<nat>>)
    ensures r == Sums(read, 0)
  {
    var a := new nat[|read|];
    var i := 0;
    while i < |read|
      invariant i <= |read| && forall k | 0 <= k < i :: a[k] == read[k] <= MAX16
    {
      if read[i] > MAX16 {
        TooLarge(read, 0, i);
        return None;
      }
      a[i] := read[i];
      i := i + 1;
    }
    assert a[..] == read;
    var ok := AddOffsets(a);
    if !ok {
      return None;
    }
    SumsIs(read, 0, a[..]);
    r := Some(a[..]);
  }

  method AddOffsets(a: array<nat>) returns (ok: bool)
    requires Fits16(a[..])
    modifies a
    ensures if ok then Adds(old(a[..]), 0, a[..], a.Length) else Sums(old(a[..]), 0) == None
  {
    ghost var d, s := a[..], a[..];
    var offset: nat := 0;
    for j := 0 to a.Length
      invariant a[..] == s && |s| == |d| && Adds(d, 0, s, j) && offset == Offset(s, 0, j)
      invariant forall k | j <= k < a.Length :: s[k] == d[k]
    {
      assert a[j] == s[j] == d[j] <= MAX16;
      if a[j] + offset > MAX16 {
        SumsStuck(d, 0, s, j);
        return false;
      }
      AddsMore(d, s, j, a[j] + offset);
      a[j] := a[j] + offset;
      s := s[j := a[j]];
      offset := (a[j] + 1) % 0x1_0000;
    }
    ok := true;
  }

  lemma AddsMore(d: seq<nat>, s: seq<nat>, j: nat, x: nat)
    requires j < |s| == |d| && Adds(d, 0, s, j) && d[j] <= MAX16 && x == d[j] + Offset(s, 0, j) <= MAX16
    ensures Adds(d, 0, s[j := x], j + 1) && Offset(s[j := x], 0, j + 1) == (x + 1) % 0x1_0000
  {
    var t := s[j := x];
    forall i | 0 <= i < j + 1 ensures AddsAt(d, 0, t, i) {
      assert i < j ==> AddsAt(d, 0, s, i);
    }
  }

  lemma AddsNext(d: seq<nat>, offset: nat, s: seq<nat>, n: nat)
    requires 0 < n <= |s| && n <= |d| && Adds(d, offset, s, n)
    ensures Adds(d[1..], (s[0] + 1) % 0x1_0000, s[1..], n - 1) && d[0] <= MAX16 && s[0] == d[0] + offset <= MAX16
  {
    assert AddsAt(d, offset, s, 0);
    var next := (s[0] + 1) % 0x1_0000;
    forall i | 0 <= i < n - 1 ensures AddsAt(d[1..], next, s[1..], i) {
      assert AddsAt(d, offset, s, i + 1);
    }
  }

  lemma {:induction false} SumsIs(d: seq<nat>, offset: nat, s: seq<nat>)
    requires |s| == |d| && Adds(d, offset, s, |d|)
    ensures Sums(d, offset) == Some(s)
  {
    if d == [] {
      assert s == [];
    } else {
      AddsNext(d, offset, s, |d|);
      SumsIs(d[1..], (s[0] + 1) % 0x1_0000, s[1..]);
      assert [s[0]] + s[1..] == s;
    }
  }

  lemma {:induction false} SumsStuck(d: seq<nat>, offset: nat, s: seq<nat>, j: nat)
    requires j < |s| == |d| && Adds(d, offset, s, j) && d[j] + Offset(s, offset, j) > MAX16
    ensures Sums(d, offset) == None
  {
    if j > 0 {
      AddsNext(d, offset, s, j);
      SumsStuck(d[1..], (s[0] + 1) % 0x1_0000, s[1..], j - 1);
    }
  }

  lemma {:induction false} TooLarge(read: seq<nat>, offset: nat, i: nat)
    requires i < |read| && read[i] > MAX16
    ensures Sums(read, offset) == None
  {
    if i > 0 && read[0] <= MAX16 && read[0] + offset <= MAX16 {
      TooLarge(read[1..], (read[0] + offset + 1) % 0x1_0000, i - 1);
    }
  }

  // ----- round trips -----

  ghost predicate Rises(s: seq<nat>, i: nat) {
    0 < i < |s| && s[i - 1] < s[i]
  }

  ghost predicate Increasing(s: seq<nat>) {
    forall i {:trigger Rises(s, i)} | 0 < i < |s| :: Rises(s, i)
  }

  ghost predicate Fits16(s: seq<nat>) {
    forall i | 0 <= i < |s| :: s[i] <= MAX16
  }

  function Differences(s: seq<nat>): (d: seq<nat>)
    ensures |d| == |s| && forall i | 0 <= i < |s| :: d[i] == Difference(s, i)
  {
    seq(|s|, i requires 0 <= i < |s| => Difference(s, i))
  }

  lemma NegativeIsLarge(x: int)
    requires -0x1_0000 <= x < 0
    ensures x % MOD64 > MAX16
  {
    assert x % MOD64 == x + MOD64;
  }

  /** A list of 16-bit indexes survives the trip iff it is strictly increasing. */
  lemma ReadWritten(s: seq<nat>)
    requires Fits16(s)
    ensures Sums(Differences(s), 0) == Some(s) <==> Increasing(s)
  {
    if Increasing(s) {
      forall i | 0 <= i < |s| ensures AddsAt(Differences(s), 0, s, i) {
        assert i > 0 ==> Rises(s, i);
      }
      SumsIs(Differences(s), 0, s);
    } else {
      var i :| 0 < i < |s| && !Rises(s, i);
      var x: int := s[i];
      NegativeIsLarge(x - (s[i - 1] + 1));
      TooLarge(Differences(s), 0, i);
    }
  }

  /** What an accepted list adds up to. */
  lemma {:induction false} SumsMeans(d: seq<nat>, offset: nat, s: seq<nat>)
    requires Sums(d, offset) == Some(s)
    ensures |s| == |d| && Adds(d, offset, s, |d|)
  {
    if d != [] {
      var next := (d[0] + offset + 1) % 0x1_0000;
      SumsMeans(d[1..], next, s[1..]);
      forall i | 0 <= i < |d| ensures AddsAt(d, offset, s, i) {
        if i > 0 {
          assert AddsAt(d[1..], next, s[1..], i - 1);
        }
      }
    }
  }

  /** One more than the index that `k` differences lead to when no offset wraps. */
  function Total(d: seq<nat>, k: nat): nat
    requires k <= |d|
  {
    if k == 0 then 0 else Total(d, k - 1) + d[k - 1] + 1
  }

  lemma {:induction false} TotalGrows(d: seq<nat>, j: nat, k: nat)
    requires j <= k <= |d|
    ensures Total(d, j) <= Total(d, k)
  {
    if j < k {
      TotalGrows(d, j, k - 1);
    }
  }

  /** Until 65535 is met, the offset is the total. */
  lemma {:induction false} UntilWrap(d: seq<nat>, s: seq<nat>, k: nat)
    requires |s| == |d| && Adds(d, 0, s, |d|) && 0 < k <= |s| && forall i | 0 <= i < k - 1 :: s[i] != MAX16
    ensures s[k - 1] + 1 == Total(d, k)
  {
    assert AddsAt(d, 0, s, k - 1);
    if k > 1 {
      assert AddsAt(d, 0, s, k - 2);
      UntilWrap(d, s, k - 1);
    }
  }

  lemma NoWrap(x: nat, d: nat, y: nat)
    requires y == d + (x + 1) % 0x1_0000 && x <= MAX16 && x >= y
    ensures x == MAX16
  {
  }

  /** The offset wraps after index 65535: so a list is read as strictly increasing iff 65535 comes nowhere but last. */
  lemma NowhereButLast(d: seq<nat>, s: seq<nat>)
    requires |s| == |d| && Adds(d, 0, s, |d|)
    ensures Increasing(s) <==> forall i | 0 <= i < |s| - 1 :: s[i] != MAX16
  {
    if Increasing(s) {
      forall i | 0 <= i < |s| - 1 ensures s[i] != MAX16 {
        assert Rises(s, i + 1) && AddsAt(d, 0, s, i + 1);
      }
    } else {
      var i :| 0 < i < |s| && !Rises(s, i);
      assert AddsAt(d, 0, s, i) && AddsAt(d, 0, s, i - 1);
      NoWrap(s[i - 1], d[i], s[i]);
    }
  }

  lemma {:induction false} FirstWrap(s: seq<nat>, n: nat) returns (k: nat)
    requires n <= |s| && exists i :: 0 <= i < n && s[i] == MAX16
    ensures k < n && s[k] == MAX16 && forall i | 0 <= i < k :: s[i] != MAX16
  {
    if exists i :: 0 <= i < n - 1 && s[i] == MAX16 {
      k := FirstWrap(s, n - 1);
    } else {
      k := n - 1;
    }
  }

  /** Accepted differences give strictly increasing indexes iff all but the last add up to at most 65535. */
  lemma ReadIsIncreasing(d: seq<nat>, s: seq<nat>)
    requires Sums(d, 0) == Some(s)
    ensures Increasing(s) <==> d == [] || Total(d, |d| - 1) <= MAX16
  {
    SumsMeans(d, 0, s);
    NowhereButLast(d, s);
    if |d| > 1 {
      var n := |d| - 1;
      if exists i :: 0 <= i < n && s[i] == MAX16 {
        var k := FirstWrap(s, n);
        UntilWrap(d, s, k + 1);
        TotalGrows(d, k + 1, n);
      } else {
        UntilWrap(d, s, n);
        assert AddsAt(d, 0, s, n - 1) && s[n - 1] != MAX16;
      }
    }
  }

  /** Two differences that are accepted although the second index lies below the first. */
  lemma WrappedOffset()
    ensures Sums([0xffff, 5], 0) == Some([0xffff, 5]) && !Increasing([0xffff, 5])
  {
    var d: seq<nat> := [0xffff, 5];
    assert !Rises(d, 1);
    assert AddsAt(d, 0, d, 0) && AddsAt(d, 0, d, 1);
    SumsIs(d, 0, d);
  }
}
