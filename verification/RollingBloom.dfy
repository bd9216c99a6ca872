/**
 * The rolling Bloom filter (src/bloom.cpp:217-313). The hash is an unknown function of tweak, hash number and key;
 * the number of hash functions and of words come from the constructor's floating-point formula and are parameters.
 */
module RollingBloom {
  import opened Arith

  type Key = nat
  /** A 64-bit word as the set of its one bits. */
  type Word = set<nat>
  /** The 32-bit hash of a tweak, a hash number and a key. */
  type Hasher = (nat, nat, Key) -> nat

  const ALL: Word := set k | 0 <= k < 64

  // ----- words -----

  function Xor(x: Word, y: Word): Word {
    (x - y) + (y - x)
  }

  /** `-(uint64_t)b`: all bits equal to b. */
  function Spread(b: bool): Word {
    if b then ALL else {}
  }

  /** `(x & ~(1 << bit)) | (g << bit)`. */
  function Put(x: Word, bit: nat, g: bool): Word {
    x * (ALL - {bit}) + if g then {bit} else {}
  }

  function WipeMask(p1: Word, p2: Word, g: nat): Word {
    Xor(p1, Spread(g % 2 == 1)) + Xor(p2, Spread(g / 2 == 1))
  }

  /** The generation stored in a cell: two bits, one in each word of a pair. */
  function TagOf(p1: Word, p2: Word, k: nat): nat {
    (if k in p1 then 1 else 0) + if k in p2 then 2 else 0
  }

  /** The mask wipes exactly the cells that carry generation `g`, all 64 of them at once. */
  lemma WipedTag(p1: Word, p2: Word, g: nat, k: nat)
    requires 1 <= g <= 3 && k < 64
    ensures
      var mask := WipeMask(p1, p2, g);
      TagOf(p1 * mask, p2 * mask, k) == if TagOf(p1, p2, k) == g then 0 else TagOf(p1, p2, k)
  {
  }

  lemma PutTag(p1: Word, p2: Word, bit: nat, g: nat, k: nat)
    requires 1 <= g <= 3 && k < 64
    ensures TagOf(Put(p1, bit, g % 2 == 1), Put(p2, bit, g / 2 == 1), k) == if k == bit then g else TagOf(p1, p2, k)
  {
  }

  // ----- what the filter should hold -----

  datatype Shape = Shape(hash: Hasher, nTweak: nat, nHashFuncs: nat, size: nat) {
    predicate Ok() { size > 0 && size % 2 == 0 }

    /** The bit and the word pair that hash function `n` selects for a key. */
    function BitOf(n: nat, key: Key): (k: nat)
      ensures k < 64
    {
      hash(nTweak, n, key) % 64
    }

    function PairOf(n: nat, key: Key): (w: nat)
      requires Ok()
      ensures w < size / 2
    {
      ((hash(nTweak, n, key) / 64) % size) / 2
    }

    ghost predicate Touches(key: Key, upTo: nat, w: nat, k: nat)
      requires Ok()
    {
      exists n | 0 <= n < upTo :: PairOf(n, key) == w && BitOf(n, key) == k
    }

    /** The last of the keys that touches a cell, or -1. */
    ghost function LastTouch(keys: seq<Key>, w: nat, k: nat): (i: int)
      requires Ok()
      ensures -1 <= i < |keys|
      ensures i >= 0 ==> Touches(keys[i], nHashFuncs, w, k)
      ensures forall j | i < j < |keys| :: !Touches(keys[j], nHashFuncs, w, k)
    {
      if keys == [] then -1
      else if Touches(keys[|keys| - 1], nHashFuncs, w, k) then |keys| - 1
      else LastTouch(keys[..|keys| - 1], w, k)
    }
  }

  /** The generation after `n` insertions with `e` per generation, counted from 0. */
  function Generation(e: nat, n: nat): nat
    requires e > 0
  {
    if n == 0 then 0 else QuotientShrinks(n - 1, e); (n - 1) / e
  }

  function TagNumber(generation: nat): nat {
    1 + generation % 3
  }

  /** A cell last touched by insertion `i` shows that generation, until two generations later it has been wiped. */
  function TagAfter(e: nat, i: int, current: nat): nat
    requires e > 0
  {
    if i < 0 then 0 else
      QuotientShrinks(i, e);
      if i / e + 2 < current then 0 else TagNumber(i / e)
  }

  /** Entering a generation wipes what carries the number it reuses. */
  lemma NextGeneration(e: nat, i: int, current: nat)
    requires e > 0 && (i >= 0 ==> i / e <= current)
    ensures TagAfter(e, i, current + 1) ==
      if TagAfter(e, i, current) == TagNumber(current + 1) then 0 else TagAfter(e, i, current)
  {
  }

  lemma Rollover(e: nat, n: nat)
    requires e > 0
    ensures n > 0 && n % e == 0 ==> Generation(e, n + 1) == Generation(e, n) + 1
    ensures !(n > 0 && n % e == 0) ==> Generation(e, n + 1) == Generation(e, n)
    ensures (n % e) < e && Entries(e, n + 1) == (if n > 0 && n % e == 0 then 1 else Entries(e, n) + 1)
    ensures Entries(e, n) == e <==> n > 0 && n % e == 0
  {
    if n > 0 {
      var q, r := (n - 1) / e, (n - 1) % e;
      assert n - 1 == e * q + r;
      if r == e - 1 {
        assert e * (q + 1) == e * q + e;
        DivModUnique(n, e, q + 1, 0);
      } else {
        DivModUnique(n, e, q, r + 1);
      }
    } else {
      DivModUnique(0, e, 0, 0);
    }
  }

  /** How many of `n` insertions belong to the current generation. */
  function Entries(e: nat, n: nat): nat
    requires e > 0
  {
    if n == 0 then 0 else (n - 1) % e + 1
  }

  ghost function CellTag(data: seq<Word>, w: nat, k: nat): nat
    requires 2 * w + 1 < |data|
  {
    TagOf(data[2 * w], data[2 * w + 1], k)
  }

  /** What a cell must show in generation `current`. */
  ghost function Due(c: Shape, e: nat, keys: seq<Key>, current: nat, w: nat, k: nat): nat
    requires e > 0 && c.Ok()
  {
    TagAfter(e, c.LastTouch(keys, w, k), current)
  }

  ghost predicate Shows(data: seq<Word>, c: Shape, e: nat, keys: seq<Key>, current: nat)
    requires e > 0 && c.Ok() && c.size == |data|
  {
    forall w, k {:trigger CellTag(data, w, k)} | 0 <= w < |data| / 2 && 0 <= k < 64 ::
      CellTag(data, w, k) == Due(c, e, keys, current, w, k)
  }

  lemma GenerationBound(e: nat, i: nat, n: nat)
    requires e > 0 && i < n
    ensures i / e <= Generation(e, n)
  {
    QuotientAtMost(e, i / e, i % e + (n - 1 - i), (n - 1) / e, (n - 1) % e);
  }

  class RollingBloomFilter {
    const hash: Hasher
    const nHashFuncs: nat
    const nEntriesPerGeneration: nat
    const data: array<Word>
    var nEntriesThisGeneration: nat
    var nGeneration: nat
    var nTweak: nat
    /** The number of keys the filter was asked to remember. */
    ghost const nElements: nat
    /** Every key inserted since the last reset. */
    ghost var inserted: seq<Key>

    ghost function Cells(): Shape
      reads this
    {
      Shape(hash, nTweak, nHashFuncs, data.Length)
    }

    ghost predicate Counted()
      reads this
    {
      && 0 < nElements <= 2 * nEntriesPerGeneration <= nElements + 1
      && nEntriesThisGeneration == Entries(nEntriesPerGeneration, |inserted|)
      && nGeneration == TagNumber(Generation(nEntriesPerGeneration, |inserted|))
    }

    ghost predicate Valid()
      reads this, data
    {
      && Cells().Ok() && Counted()
      && Shows(data[..], Cells(), nEntriesPerGeneration, inserted, Generation(nEntriesPerGeneration, |inserted|))
    }

    constructor (hash: Hasher, nTweak: nat, nHashFuncs: nat, size: nat, nElements: nat)
      requires size > 0 && size % 2 == 0 && nElements > 0
      ensures Valid() && inserted == [] && fresh(data) && this.nElements == nElements
    {
      this.nElements := nElements;
      this.hash, this.nHashFuncs := hash, nHashFuncs;
      nEntriesPerGeneration := (nElements + 1) / 2;
      data := new Word[size](_ => {});
      this.nTweak, nEntriesThisGeneration, nGeneration := nTweak, 0, 1;
      inserted := [];
    }

    method Reset(tweak: nat)
      requires Valid()
      modifies this, data
      ensures Valid() && inserted == []
    {
      nTweak, nEntriesThisGeneration, nGeneration, inserted := tweak, 0, 1, [];
      forall i | 0 <= i < data.Length {
        data[i] := {};
      }
    }

    /** Wipes the cells of the generation number that is about to be reused, and no others. */
    method Wipe()
      requires Cells().Ok() && 1 <= nGeneration <= 3
      modifies data
      ensures forall w, k | 0 <= w < data.Length / 2 && 0 <= k < 64 ::
        var was := old(CellTag(data[..], w, k));
        CellTag(data[..], w, k) == if was == nGeneration then 0 else was
    {
      var nGenerationMask1, nGenerationMask2 := Spread(nGeneration % 2 == 1), Spread(nGeneration / 2 == 1);
      ghost var d := data[..];
      var p := 0;
      while p < data.Length
        invariant p % 2 == 0 && p <= data.Length
        invariant forall j | p <= j < data.Length :: data[j] == d[j]
        invariant forall w | 0 <= w < p / 2 :: Wiped(d, data[..], nGeneration, w)
      {
        ghost var before := data[..];
        var p1, p2 := data[p], data[p + 1];
        var mask := Xor(p1, nGenerationMask1) + Xor(p2, nGenerationMask2);
        data[p] := p1 * mask;
        data[p + 1] := p2 * mask;
        forall w | 0 <= w < p / 2 + 1 ensures Wiped(d, data[..], nGeneration, w) {
          if w < p / 2 {
            assert Wiped(d, before, nGeneration, w);
          }
        }
        p := p + 2;
      }
      forall w, k | 0 <= w < data.Length / 2 && 0 <= k < 64
        ensures CellTag(data[..], w, k) == if CellTag(d, w, k) == nGeneration then 0 else CellTag(d, w, k)
      {
        assert Wiped(d, data[..], nGeneration, w);
        WipedTag(d[2 * w], d[2 * w + 1], nGeneration, k);
      }
    }

    /** Enters the next generation when the current one is full. */
    method Advance()
      requires Valid()
      modifies this`nEntriesThisGeneration, this`nGeneration, data
      ensures nEntriesThisGeneration == Entries(nEntriesPerGeneration, |inserted| + 1)
      ensures nGeneration == TagNumber(Generation(nEntriesPerGeneration, |inserted| + 1))
      ensures Shows(data[..], Cells(), nEntriesPerGeneration, inserted, Generation(nEntriesPerGeneration, |inserted| + 1))
    {
      ghost var e, n := nEntriesPerGeneration, |inserted|;
      Rollover(e, n);
      if nEntriesThisGeneration == nEntriesPerGeneration {
        nEntriesThisGeneration := 0;
        nGeneration := nGeneration + 1;
        if nGeneration == 4 {
          nGeneration := 1;
        }
        ghost var d := data[..];
        Wipe();
        WipedShows(d, data[..], Cells(), e, inserted, nGeneration);
      }
      nEntriesThisGeneration := nEntriesThisGeneration + 1;
    }

    method Mark(key: Key)
      requires Cells().Ok() && 1 <= nGeneration <= 3
      modifies data
      ensures Marked(old(data[..]), data[..], Cells(), key, nHashFuncs, nGeneration)
    {
      ghost var d, c := data[..], Cells();
      for n := 0 to nHashFuncs
        invariant Marked(d, data[..], c, key, n, nGeneration)
      {
        var h := hash(nTweak, n, key);
        var bit, pos := h % 64, (h / 64) % data.Length;
        var even := pos - pos % 2;
        ghost var before := data[..];
        data[even] := Put(data[even], bit, nGeneration % 2 == 1);
        data[even + 1] := Put(data[even + 1], bit, nGeneration / 2 == 1);
        MarkOne(d, before, data[..], c, key, n, nGeneration);
      }
    }

    method Insert(key: Key)
      requires Valid()
      modifies this, data
      ensures Valid() && inserted == old(inserted) + [key] && nTweak == old(nTweak)
    {
      Advance();
      ghost var d := data[..];
      Mark(key);
      MarkedShows(d, data[..], Cells(), nEntriesPerGeneration, inserted, key);
      inserted := inserted + [key];
    }

    /**
     * Exactly the keys all of whose cells were touched within the window; in particular every key of the window, and so
     * each of the last `nElements` keys.
     */
    method Contains(key: Key) returns (found: bool)
      requires Valid()
      ensures found <==> Covered(Cells(), nEntriesPerGeneration, inserted, key)
      ensures key in inserted[WindowStart(nEntriesPerGeneration, |inserted|)..] ==> found
      ensures key in Last(inserted, nElements) ==> found
    {
      if key in Last(inserted, nElements) {
        LastInWindow(inserted, nElements, nEntriesPerGeneration, key);
      }
      TagsTell(data[..], Cells(), nEntriesPerGeneration, inserted, key);
      for n := 0 to nHashFuncs
        invariant forall m | 0 <= m < n :: CellTag(data[..], Cells().PairOf(m, key), Cells().BitOf(m, key)) != 0
      {
        var h := hash(nTweak, n, key);
        var bit, pos := h % 64, (h / 64) % data.Length;
        var even := pos - pos % 2;
        assert CellTag(data[..], Cells().PairOf(n, key), Cells().BitOf(n, key)) == TagOf(data[even], data[even + 1], bit);
        if bit !in data[even] + data[even + 1] {
          return false;
        }
      }
      return true;
    }
  }

  /** The first insertion that is still remembered: up to two full generations before the current one. */
  function WindowStart(e: nat, n: nat): (i: nat)
    requires e > 0
    ensures i <= n
  {
    var kept := Entries(e, n) + 2 * e;
    if n < kept then 0 else n - kept
  }

  /** The window holds the last `nElements` keys, and from 2e + 1 to 3e keys once that many were inserted. */
  lemma WindowIsWide(nElements: nat, n: nat)
    requires nElements > 0
    ensures
      var e := (nElements + 1) / 2;
      && (n <= 2 * e ==> WindowStart(e, n) == 0)
      && (n > 2 * e ==> nElements < 2 * e + 1 <= n - WindowStart(e, n) <= 3 * e)
  {
  }

  /** The last `n` entries, or all of them. */
  function Last(s: seq<Key>, n: nat): seq<Key> {
    s[if |s| <= n then 0 else |s| - n..]
  }

  lemma LastInWindow(s: seq<Key>, nElements: nat, e: nat, key: Key)
    requires 0 < nElements <= 2 * e <= nElements + 1 && key in Last(s, nElements)
    ensures key in s[WindowStart(e, |s|)..]
  {
    var a, b := if |s| <= nElements then 0 else |s| - nElements, WindowStart(e, |s|);
    assert e == (nElements + 1) / 2;
    WindowIsWide(nElements, |s|);
    var i :| 0 <= i < |s[a..]| && s[a..][i] == key;
    assert s[b..][i + (a - b)] == key;
  }

  /** Every cell of the key was touched by a key of the window. */
  ghost predicate Covered(c: Shape, e: nat, keys: seq<Key>, key: Key)
    requires e > 0 && c.Ok()
  {
    forall n | 0 <= n < c.nHashFuncs :: TouchedSince(c, keys, WindowStart(e, |keys|), c.PairOf(n, key), c.BitOf(n, key))
  }

  ghost predicate TouchedSince(c: Shape, keys: seq<Key>, start: nat, w: nat, k: nat)
    requires c.Ok()
  {
    exists i | start <= i < |keys| :: c.Touches(keys[i], c.nHashFuncs, w, k)
  }

  lemma WindowMeans(e: nat, i: nat, n: nat)
    requires e > 0 && i < n
    ensures i / e + 2 < Generation(e, n) <==> i < WindowStart(e, n)
  {
    var q, g, r := i / e, (n - 1) / e, (n - 1) % e;
    assert i == e * q + i % e && n - 1 == e * g + r;
    assert e * (q + 2) == e * q + 2 * e;
    if q + 2 < g {
      MulMono(e, q + 3, g);
      assert e * (q + 3) == e * q + 3 * e;
    } else {
      MulMono(e, g, q + 2);
    }
  }

  lemma TagMeans(c: Shape, e: nat, keys: seq<Key>, w: nat, k: nat)
    requires e > 0 && c.Ok()
    ensures Due(c, e, keys, Generation(e, |keys|), w, k) != 0 <==> TouchedSince(c, keys, WindowStart(e, |keys|), w, k)
  {
    var i := c.LastTouch(keys, w, k);
    if i >= 0 {
      WindowMeans(e, i, |keys|);
    }
  }

  lemma TagsTell(d: seq<Word>, c: Shape, e: nat, keys: seq<Key>, key: Key)
    requires e > 0 && c.Ok() && c.size == |d| && Shows(d, c, e, keys, Generation(e, |keys|))
    ensures (forall n | 0 <= n < c.nHashFuncs :: CellTag(d, c.PairOf(n, key), c.BitOf(n, key)) != 0) <==> Covered(c, e, keys, key)
    ensures key in keys[WindowStart(e, |keys|)..] ==> Covered(c, e, keys, key)
  {
    forall n | 0 <= n < c.nHashFuncs
      ensures CellTag(d, c.PairOf(n, key), c.BitOf(n, key)) != 0 <==>
              TouchedSince(c, keys, WindowStart(e, |keys|), c.PairOf(n, key), c.BitOf(n, key))
    {
      TagMeans(c, e, keys, c.PairOf(n, key), c.BitOf(n, key));
    }
    if key in keys[WindowStart(e, |keys|)..] {
      var i :| WindowStart(e, |keys|) <= i < |keys| && keys[i] == key;
      forall n | 0 <= n < c.nHashFuncs
        ensures TouchedSince(c, keys, WindowStart(e, |keys|), c.PairOf(n, key), c.BitOf(n, key))
      {
        assert c.Touches(keys[i], c.nHashFuncs, c.PairOf(n, key), c.BitOf(n, key));
      }
    }
  }

  lemma WipedShows(d: seq<Word>, d': seq<Word>, c: Shape, e: nat, keys: seq<Key>, g: nat)
    requires e > 0 && c.Ok() && c.size == |d| == |d'| && |keys| > 0
    requires Shows(d, c, e, keys, Generation(e, |keys|)) && g == TagNumber(Generation(e, |keys|) + 1)
    requires forall w, k | 0 <= w < |d| / 2 && 0 <= k < 64 ::
      CellTag(d', w, k) == if CellTag(d, w, k) == g then 0 else CellTag(d, w, k)
    ensures Shows(d', c, e, keys, Generation(e, |keys|) + 1)
  {
    forall w, k | 0 <= w < |d'| / 2 && 0 <= k < 64 ensures CellTag(d', w, k) == Due(c, e, keys, Generation(e, |keys|) + 1, w, k) {
      var i := c.LastTouch(keys, w, k);
      if i >= 0 {
        GenerationBound(e, i, |keys|);
      }
      NextGeneration(e, i, Generation(e, |keys|));
    }
  }

  /** The first `upTo` cells of a key carry the generation; all other cells are as before. */
  ghost predicate Marked(d: seq<Word>, d': seq<Word>, c: Shape, key: Key, upTo: nat, g: nat)
    requires c.Ok() && c.size == |d|
  {
    && |d'| == |d|
    && forall w, k {:trigger CellTag(d', w, k)} | 0 <= w < |d| / 2 && 0 <= k < 64 ::
         CellTag(d', w, k) == if c.Touches(key, upTo, w, k) then g else CellTag(d, w, k)
  }

  lemma MarkOne(d: seq<Word>, d': seq<Word>, d'': seq<Word>, c: Shape, key: Key, n: nat, g: nat)
    requires c.Ok() && c.size == |d| && 1 <= g <= 3 && Marked(d, d', c, key, n, g) && |d''| == |d|
    requires
      var p := c.PairOf(n, key);
      d'' == d'[2 * p := Put(d'[2 * p], c.BitOf(n, key), g % 2 == 1)][2 * p + 1 := Put(d'[2 * p + 1], c.BitOf(n, key), g / 2 == 1)]
    ensures Marked(d, d'', c, key, n + 1, g)
  {
    forall w, k | 0 <= w < |d| / 2 && 0 <= k < 64
      ensures CellTag(d'', w, k) == if c.Touches(key, n + 1, w, k) then g else CellTag(d, w, k)
    {
      PutTag(d'[2 * w], d'[2 * w + 1], c.BitOf(n, key), g, k);
      TouchesNext(c, key, n, w, k);
      assert CellTag(d', w, k) == if c.Touches(key, n, w, k) then g else CellTag(d, w, k);
    }
  }

  lemma TouchesNext(c: Shape, key: Key, n: nat, w: nat, k: nat)
    requires c.Ok()
    ensures c.Touches(key, n + 1, w, k) <==> c.Touches(key, n, w, k) || (c.PairOf(n, key) == w && c.BitOf(n, key) == k)
  {
  }

  lemma MarkedShows(d: seq<Word>, d': seq<Word>, c: Shape, e: nat, keys: seq<Key>, key: Key)
    requires e > 0 && c.Ok() && c.size == |d|
    requires Shows(d, c, e, keys, Generation(e, |keys| + 1))
    requires Marked(d, d', c, key, c.nHashFuncs, TagNumber(Generation(e, |keys| + 1)))
    ensures Shows(d', c, e, keys + [key], Generation(e, |keys| + 1))
  {
    forall w, k | 0 <= w < |d'| / 2 && 0 <= k < 64
      ensures CellTag(d', w, k) == Due(c, e, keys + [key], Generation(e, |keys| + 1), w, k)
    {
      assert (keys + [key])[..|keys|] == keys;
      assert CellTag(d, w, k) == Due(c, e, keys, Generation(e, |keys| + 1), w, k);
    }
  }

  ghost predicate Wiped(d: seq<Word>, d': seq<Word>, g: nat, w: nat) {
    && 2 * w + 1 < |d| == |d'|
    && var mask := WipeMask(d[2 * w], d[2 * w + 1], g);
    d'[2 * w] == d[2 * w] * mask && d'[2 * w + 1] == d[2 * w + 1] * mask
  }
}
