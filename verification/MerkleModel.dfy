/**
 * Partial Merkle trees (src/merkleblock.h:57-110, src/merkleblock.cpp:63-183) as pure functions.
 * A node is a height and a position; `n` transactions sit at height 0. The pair hash is a parameter.
 */
module MerkleModel {
  import opened Arith
  import opened Powers

  type Hash = nat
  type PairHash = (Hash, Hash) -> Hash

  const MAX_BLOCK_VTX := 400000

  ghost predicate Injective(hash: PairHash) {
    forall a, b, c, d {:trigger hash(a, b), hash(c, d)} :: hash(a, b) == hash(c, d) ==> a == c && b == d
  }

  ghost predicate Distinct(txids: seq<Hash>) {
    forall i, j | 0 <= i < j < |txids| :: txids[i] != txids[j]
  }

  // ----- the shape of the tree -----

  function Width(n: nat, height: nat): nat {
    (n + Pow2(height) - 1) / Pow2(height)
  }

  /** A position exists at a height iff its first transaction does. */
  lemma WidthMeans(n: nat, height: nat, pos: nat)
    ensures pos < Width(n, height) <==> pos * Pow2(height) < n
  {
    var p := Pow2(height);
    var x := n + p - 1;
    var q := x / p;
    assert x == p * q + x % p && p * pos == pos * p;
    if pos < q {
      MulMono(p, pos + 1, q);
      assert p * (pos + 1) == p * pos + p;
    } else {
      MulMono(p, q, pos);
    }
  }

  lemma Doubled(height: nat, pos: nat)
    requires height > 0
    ensures (pos * 2) * Pow2(height - 1) == pos * Pow2(height)
    ensures (pos * 2 + 1) * Pow2(height - 1) == pos * Pow2(height) + Pow2(height - 1)
    ensures (pos * 2 + 2) * Pow2(height - 1) == (pos + 1) * Pow2(height) == pos * Pow2(height) + Pow2(height)
  {
    var p := Pow2(height - 1);
    assert (pos * 2) * p == pos * (2 * p);
    assert (pos * 2 + 1) * p == (pos * 2) * p + p;
    assert (pos * 2 + 2) * p == (pos * 2) * p + 2 * p;
    assert (pos + 1) * (2 * p) == pos * (2 * p) + 2 * p;
  }

  /** The first child of a node exists; the second may not. */
  lemma Children(n: nat, height: nat, pos: nat)
    requires height > 0 && pos < Width(n, height)
    ensures pos * 2 < Width(n, height - 1)
    ensures pos * 2 + 1 < Width(n, height - 1) <==> pos * Pow2(height) + Pow2(height - 1) < n
  {
    WidthMeans(n, height, pos);
    WidthMeans(n, height - 1, pos * 2);
    WidthMeans(n, height - 1, pos * 2 + 1);
    Doubled(height, pos);
  }

  /** One level up there are half as many nodes, rounded up. */
  lemma WidthHalves(n: nat, height: nat)
    ensures Width(n, height + 1) == (Width(n, height) + 1) / 2
  {
    var w, v := Width(n, height), Width(n, height + 1);
    if v > 0 {
      Children(n, height + 1, v - 1);
    }
    if 2 * v < w {
      WidthMeans(n, height, 2 * v);
      Doubled(height + 1, v);
      WidthMeans(n, height + 1, v);
    }
  }

  /** The height the two `while` loops find: the least with at most one node. */
  function HeightFrom(n: nat, height: nat): (h: nat)
    ensures height <= h && Width(n, h) <= 1
    ensures forall k | height <= k < h :: Width(n, k) > 1
    decreases Width(n, height)
  {
    WidthHalves(n, height);
    if Width(n, height) <= 1 then height else HeightFrom(n, height + 1)
  }

  function TreeHeight(n: nat): nat {
    HeightFrom(n, 0)
  }

  function First(height: nat, pos: nat): nat {
    pos * Pow2(height)
  }

  /** One past the last transaction under a node. */
  function End(n: nat, height: nat, pos: nat): nat {
    var e := (pos + 1) * Pow2(height);
    if e < n then e else n
  }

  /** A node covers one transaction, or what its children cover, one after the other. */
  lemma Covered(n: nat, height: nat, pos: nat)
    requires pos < Width(n, height)
    ensures First(height, pos) < End(n, height, pos) <= n
    ensures height == 0 ==> First(0, pos) == pos && End(n, 0, pos) == pos + 1
    ensures height > 0 ==> pos * 2 < Width(n, height - 1) && First(height - 1, pos * 2) == First(height, pos)
    ensures height > 0 && pos * 2 + 1 < Width(n, height - 1) ==>
      End(n, height - 1, pos * 2) == First(height - 1, pos * 2 + 1) && End(n, height - 1, pos * 2 + 1) == End(n, height, pos)
    ensures height > 0 && pos * 2 + 1 >= Width(n, height - 1) ==>
      End(n, height - 1, pos * 2) == End(n, height, pos) == n
  {
    WidthMeans(n, height, pos);
    assert (pos + 1) * Pow2(height) == pos * Pow2(height) + Pow2(height);
    if height > 0 {
      Children(n, height, pos);
      Doubled(height, pos);
    }
  }

  function CalcHash(hash: PairHash, txids: seq<Hash>, height: nat, pos: nat): Hash
    requires pos < Width(|txids|, height)
  {
    if height == 0 then
      WidthMeans(|txids|, 0, pos);
      txids[pos]
    else
      Children(|txids|, height, pos);
      var left := CalcHash(hash, txids, height - 1, pos * 2);
      var right := if pos * 2 + 1 < Width(|txids|, height - 1) then CalcHash(hash, txids, height - 1, pos * 2 + 1) else left;
      hash(left, right)
  }

  function Root(hash: PairHash, txids: seq<Hash>): Hash
    requires |txids| > 0
  {
    var h := TreeHeight(|txids|);
    WidthMeans(|txids|, h, 0);
    CalcHash(hash, txids, h, 0)
  }

  /** Nodes of one level have different hashes. */
  lemma {:induction false} HashesDiffer(hash: PairHash, txids: seq<Hash>, height: nat, p: nat, q: nat)
    requires Injective(hash) && Distinct(txids) && p < q < Width(|txids|, height)
    ensures CalcHash(hash, txids, height, p) != CalcHash(hash, txids, height, q)
  {
    if height == 0 {
      WidthMeans(|txids|, 0, q);
    } else {
      Children(|txids|, height, p);
      Children(|txids|, height, q);
      HashesDiffer(hash, txids, height - 1, p * 2, q * 2);
    }
  }

  // ----- building -----

  predicate AnyMatch(match_: seq<bool>, lo: nat, hi: nat)
    requires hi <= |match_|
  {
    exists p | lo <= p < hi :: match_[p]
  }

  datatype Encoded = Encoded(bits: seq<bool>, hashes: seq<Hash>)

  function Join(a: Encoded, b: Encoded): Encoded {
    Encoded(a.bits + b.bits, a.hashes + b.hashes)
  }

  const ENTERED := Encoded([true], [])

  predicate ParentOfMatch(match_: seq<bool>, height: nat, pos: nat)
    requires pos < Width(|match_|, height)
  {
    AnyMatch(match_, First(height, pos), End(|match_|, height, pos))
  }

  function Built(hash: PairHash, txids: seq<Hash>, match_: seq<bool>, height: nat, pos: nat): Encoded
    requires |match_| == |txids| && pos < Width(|txids|, height)
  {
    var fParentOfMatch := ParentOfMatch(match_, height, pos);
    if height == 0 || !fParentOfMatch then
      Encoded([fParentOfMatch], [CalcHash(hash, txids, height, pos)])
    else
      Children(|txids|, height, pos);
      var l := Join(ENTERED, Built(hash, txids, match_, height - 1, pos * 2));
      if pos * 2 + 1 < Width(|txids|, height - 1)
      then Join(l, Built(hash, txids, match_, height - 1, pos * 2 + 1))
      else l
  }

  // ----- extracting -----

  datatype Cursor = Cursor(fBad: bool, nBitsUsed: nat, nHashUsed: nat, vMatch: seq<Hash>, vnIndex: seq<nat>)

  function Bad(c: Cursor): Cursor {
    c.(fBad := true)
  }

  function Take(e: Encoded, height: nat, pos: nat, c: Cursor, fParentOfMatch: bool): (Hash, Cursor) {
    if c.nHashUsed >= |e.hashes| then
      (0, Bad(c))
    else
      var h := e.hashes[c.nHashUsed];
      var c' := c.(nHashUsed := c.nHashUsed + 1);
      (h, if height == 0 && fParentOfMatch then c'.(vMatch := c.vMatch + [h], vnIndex := c.vnIndex + [pos]) else c')
  }

  function Extracted(hash: PairHash, n: nat, e: Encoded, height: nat, pos: nat, c: Cursor): (Hash, Cursor)
    decreases height
  {
    if c.nBitsUsed >= |e.bits| then
      (0, Bad(c))
    else
      var fParentOfMatch := e.bits[c.nBitsUsed];
      var c0 := c.(nBitsUsed := c.nBitsUsed + 1);
      if height == 0 || !fParentOfMatch then
        Take(e, height, pos, c0, fParentOfMatch)
      else
        var (left, c1) := Extracted(hash, n, e, height - 1, pos * 2, c0);
        if pos * 2 + 1 < Width(n, height - 1) then
          var (right, c2) := Extracted(hash, n, e, height - 1, pos * 2 + 1, c1);
          (hash(left, right), if right == left then Bad(c2) else c2)
        else
          (hash(left, left), c1)
  }
}
