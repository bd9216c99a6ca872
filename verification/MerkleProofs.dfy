/** Soundness, round trip and size of partial Merkle trees. */
module MerkleProofs {
  import opened Arith
  import opened Slices
  import opened MerkleModel

  // ----- soundness -----

  /** Every reported txid sits at its reported index. */
  ghost predicate Located(txids: seq<Hash>, vMatch: seq<Hash>, vnIndex: seq<nat>) {
    |vMatch| == |vnIndex| && forall k | 0 <= k < |vMatch| :: vnIndex[k] < |txids| && txids[vnIndex[k]] == vMatch[k]
  }

  ghost predicate Reported(txids: seq<Hash>, c: Cursor) {
    Located(txids, c.vMatch, c.vnIndex)
  }

  /** Whatever bits and hashes were supplied: if a node's hash comes out right, so does all that was reported below it. */
  lemma {:induction false} NodeIsSound(hash: PairHash, txids: seq<Hash>, e: Encoded, height: nat, pos: nat, c: Cursor)
    requires Injective(hash) && pos < Width(|txids|, height) && Reported(txids, c)
    requires Extracted(hash, |txids|, e, height, pos, c).0 == CalcHash(hash, txids, height, pos)
    ensures Reported(txids, Extracted(hash, |txids|, e, height, pos, c).1)
    decreases height, 1
  {
    var n := |txids|;
    if c.nBitsUsed < |e.bits| {
      var c0 := c.(nBitsUsed := c.nBitsUsed + 1);
      if height == 0 || !e.bits[c.nBitsUsed] {
        TakeIsSound(txids, e, height, pos, c0, e.bits[c.nBitsUsed]);
      } else if pos * 2 + 1 < Width(n, height - 1) {
        ChildrenAreSound(hash, txids, e, height, pos, c);
      } else {
        Children(n, height, pos);
        var (left, c1) := Extracted(hash, n, e, height - 1, pos * 2, c0);
        var a := CalcHash(hash, txids, height - 1, pos * 2);
        assert hash(left, left) == hash(a, a);
        NodeIsSound(hash, txids, e, height - 1, pos * 2, c0);
      }
    }
  }

  lemma {:induction false} ChildrenAreSound(hash: PairHash, txids: seq<Hash>, e: Encoded, height: nat, pos: nat, c: Cursor)
    requires Injective(hash) && pos < Width(|txids|, height) && Reported(txids, c)
    requires c.nBitsUsed < |e.bits| && e.bits[c.nBitsUsed] && height > 0 && pos * 2 + 1 < Width(|txids|, height - 1)
    requires Extracted(hash, |txids|, e, height, pos, c).0 == CalcHash(hash, txids, height, pos)
    ensures Reported(txids, Extracted(hash, |txids|, e, height, pos, c).1)
    decreases height, 0
  {
    BothRight(hash, txids, e, height, pos, c);
    var n, c0 := |txids|, c.(nBitsUsed := c.nBitsUsed + 1);
    var c1 := Extracted(hash, n, e, height - 1, pos * 2, c0).1;
    NodeIsSound(hash, txids, e, height - 1, pos * 2, c0);
    NodeIsSound(hash, txids, e, height - 1, pos * 2 + 1, c1);
    StillReported(txids, Extracted(hash, n, e, height - 1, pos * 2 + 1, c1).1, Extracted(hash, n, e, height, pos, c).1);
  }

  /** An injective hash that comes out right had the right hashes put in. */
  lemma BothRight(hash: PairHash, txids: seq<Hash>, e: Encoded, height: nat, pos: nat, c: Cursor)
    requires Injective(hash) && pos < Width(|txids|, height)
    requires c.nBitsUsed < |e.bits| && e.bits[c.nBitsUsed] && height > 0 && pos * 2 + 1 < Width(|txids|, height - 1)
    requires Extracted(hash, |txids|, e, height, pos, c).0 == CalcHash(hash, txids, height, pos)
    ensures
      var n, c0 := |txids|, c.(nBitsUsed := c.nBitsUsed + 1);
      var (left, c1) := Extracted(hash, n, e, height - 1, pos * 2, c0);
      var (right, c2) := Extracted(hash, n, e, height - 1, pos * 2 + 1, c1);
      && left == CalcHash(hash, txids, height - 1, pos * 2) && right == CalcHash(hash, txids, height - 1, pos * 2 + 1)
      && var out := Extracted(hash, n, e, height, pos, c).1;
      out.vMatch == c2.vMatch && out.vnIndex == c2.vnIndex
  {
    var n, c0 := |txids|, c.(nBitsUsed := c.nBitsUsed + 1);
    var (left, c1) := Extracted(hash, n, e, height - 1, pos * 2, c0);
    var (right, c2) := Extracted(hash, n, e, height - 1, pos * 2 + 1, c1);
    assert hash(left, right) == hash(CalcHash(hash, txids, height - 1, pos * 2), CalcHash(hash, txids, height - 1, pos * 2 + 1));
  }

  lemma StillReported(txids: seq<Hash>, c: Cursor, c': Cursor)
    requires Reported(txids, c) && c'.vMatch == c.vMatch && c'.vnIndex == c.vnIndex
    ensures Reported(txids, c')
  {
  }

  lemma TakeIsSound(txids: seq<Hash>, e: Encoded, height: nat, pos: nat, c: Cursor, fParentOfMatch: bool)
    requires pos < Width(|txids|, height) && Reported(txids, c)
    requires height == 0 ==> (WidthMeans(|txids|, 0, pos); Take(e, height, pos, c, fParentOfMatch).0 == txids[pos])
    ensures Reported(txids, Take(e, height, pos, c, fParentOfMatch).1)
  {
    WidthMeans(|txids|, height, pos);
  }

  // ----- what a mask selects -----

  function MatchedIndexes(match_: seq<bool>, lo: nat, hi: nat): seq<nat>
    requires hi <= |match_|
  {
    if lo >= hi then [] else MatchedIndexes(match_, lo, hi - 1) + if match_[hi - 1] then [hi - 1] else []
  }

  function MatchedTxids(txids: seq<Hash>, match_: seq<bool>, lo: nat, hi: nat): seq<Hash>
    requires hi <= |match_| == |txids|
  {
    if lo >= hi then [] else MatchedTxids(txids, match_, lo, hi - 1) + if match_[hi - 1] then [txids[hi - 1]] else []
  }

  /** Every matched index is listed, ascending, with its txid. */
  lemma {:induction false} MatchedMeans(txids: seq<Hash>, match_: seq<bool>, lo: nat, hi: nat)
    requires hi <= |match_| == |txids|
    ensures
      var ix, ids := MatchedIndexes(match_, lo, hi), MatchedTxids(txids, match_, lo, hi);
      && |ix| == |ids|
      && (forall k | 0 <= k < |ix| :: lo <= ix[k] < hi && match_[ix[k]] && ids[k] == txids[ix[k]])
      && (forall j, k | 0 <= j < k < |ix| :: ix[j] < ix[k])
      && (forall p | lo <= p < hi && match_[p] :: p in ix)
  {
    if lo < hi {
      var ix, most := MatchedIndexes(match_, lo, hi), MatchedIndexes(match_, lo, hi - 1);
      MatchedMeans(txids, match_, lo, hi - 1);
      assert ix == if match_[hi - 1] then most + [hi - 1] else most;
      forall p | lo <= p < hi && match_[p] ensures p in ix {
        assert if p < hi - 1 then p in most else ix[|ix| - 1] == p;
      }
    }
  }

  lemma {:induction false} MatchedSplit(txids: seq<Hash>, match_: seq<bool>, lo: nat, mid: nat, hi: nat)
    requires lo <= mid <= hi <= |match_| == |txids|
    ensures MatchedIndexes(match_, lo, hi) == MatchedIndexes(match_, lo, mid) + MatchedIndexes(match_, mid, hi)
    ensures MatchedTxids(txids, match_, lo, hi) == MatchedTxids(txids, match_, lo, mid) + MatchedTxids(txids, match_, mid, hi)
  {
    if mid < hi {
      MatchedSplit(txids, match_, lo, mid, hi - 1);
    }
  }

  lemma {:induction false} NoneMatched(txids: seq<Hash>, match_: seq<bool>, lo: nat, hi: nat)
    requires hi <= |match_| == |txids|
    ensures AnyMatch(match_, lo, hi) <==> |MatchedIndexes(match_, lo, hi)| > 0
    ensures |MatchedIndexes(match_, lo, hi)| == |MatchedTxids(txids, match_, lo, hi)|
  {
    if lo < hi {
      NoneMatched(txids, match_, lo, hi - 1);
      assert AnyMatch(match_, lo, hi) <==> AnyMatch(match_, lo, hi - 1) || match_[hi - 1];
    }
  }

  function Found(txids: seq<Hash>, match_: seq<bool>, height: nat, pos: nat): (seq<Hash>, seq<nat>)
    requires |match_| == |txids| && pos < Width(|txids|, height)
  {
    var lo, hi := First(height, pos), End(|txids|, height, pos);
    (MatchedTxids(txids, match_, lo, hi), MatchedIndexes(match_, lo, hi))
  }

  /** What lies under a node is what lies under its children. */
  lemma FoundBelow(txids: seq<Hash>, match_: seq<bool>, height: nat, pos: nat)
    requires |match_| == |txids| && height > 0 && pos < Width(|txids|, height)
    ensures pos * 2 < Width(|txids|, height - 1)
    ensures
      var l, all := Found(txids, match_, height - 1, pos * 2), Found(txids, match_, height, pos);
      if pos * 2 + 1 < Width(|txids|, height - 1) then
        var r := Found(txids, match_, height - 1, pos * 2 + 1);
        all == (l.0 + r.0, l.1 + r.1)
      else
        all == l
  {
    var n := |txids|;
    Covered(n, height, pos);
    if pos * 2 + 1 < Width(n, height - 1) {
      Covered(n, height - 1, pos * 2 + 1);
      Covered(n, height - 1, pos * 2);
      MatchedSplit(txids, match_, First(height, pos), End(n, height - 1, pos * 2), End(n, height, pos));
    }
  }

  // ----- round trip -----

  ghost predicate Stored(e: Encoded, c: Cursor, b: Encoded) {
    At(e.bits, c.nBitsUsed, b.bits) && At(e.hashes, c.nHashUsed, b.hashes)
  }

  function Past(c: Cursor, b: Encoded, ids: seq<Hash>, ix: seq<nat>): Cursor {
    Cursor(c.fBad, c.nBitsUsed + |b.bits|, c.nHashUsed + |b.hashes|, c.vMatch + ids, c.vnIndex + ix)
  }

  lemma StoredSplit(e: Encoded, c: Cursor, a: Encoded, b: Encoded, ids: seq<Hash>, ix: seq<nat>)
    requires Stored(e, c, Join(a, b))
    ensures Stored(e, c, a) && Stored(e, Past(c, a, ids, ix), b)
  {
    AtSplit(e.bits, c.nBitsUsed, a.bits, b.bits);
    AtSplit(e.hashes, c.nHashUsed, a.hashes, b.hashes);
  }

  lemma PastJoin(c: Cursor, a: Encoded, b: Encoded, ids: seq<Hash>, ix: seq<nat>, ids': seq<Hash>, ix': seq<nat>)
    ensures Past(Past(c, a, ids, ix), b, ids', ix') == Past(c, Join(a, b), ids + ids', ix + ix')
  {
  }

  ghost predicate ReadsAs(hash: PairHash, n: nat, e: Encoded, height: nat, pos: nat, c: Cursor, h: Hash, b: Encoded, f: (seq<Hash>, seq<nat>)) {
    Extracted(hash, n, e, height, pos, c) == (h, Past(c, b, f.0, f.1))
  }

  lemma ReadsHash(hash: PairHash, n: nat, e: Encoded, height: nat, pos: nat, c: Cursor, fMatch: bool, h: Hash)
    requires height == 0 || !fMatch
    requires Stored(e, c, Encoded([fMatch], [h]))
    ensures ReadsAs(hash, n, e, height, pos, c, h, Encoded([fMatch], [h]), if fMatch then ([h], [pos]) else ([], []))
  {
    assert e.bits[c.nBitsUsed..c.nBitsUsed + 1][0] == fMatch;
    assert e.hashes[c.nHashUsed..c.nHashUsed + 1][0] == h;
    assert c.vMatch + [] == c.vMatch && c.vnIndex + [] == c.vnIndex;
  }

  lemma ReadsBoth(hash: PairHash, n: nat, e: Encoded, height: nat, pos: nat, c: Cursor,
                  a: Hash, l: Encoded, fl: (seq<Hash>, seq<nat>), b: Hash, r: Encoded, fr: (seq<Hash>, seq<nat>))
    requires height > 0 && a != b && pos * 2 + 1 < Width(n, height - 1)
    requires Stored(e, c, Join(Join(ENTERED, l), r))
    requires ReadsAs(hash, n, e, height - 1, pos * 2, Past(c, ENTERED, [], []), a, l, fl)
    requires ReadsAs(hash, n, e, height - 1, pos * 2 + 1, Past(c, Join(ENTERED, l), fl.0, fl.1), b, r, fr)
    ensures ReadsAs(hash, n, e, height, pos, c, hash(a, b), Join(Join(ENTERED, l), r), (fl.0 + fr.0, fl.1 + fr.1))
  {
    PastJoin(c, ENTERED, l, [], [], fl.0, fl.1);
    assert [] + fl.0 == fl.0 && [] + fl.1 == fl.1;
    PastJoin(c, Join(ENTERED, l), r, fl.0, fl.1, fr.0, fr.1);
    StoredSplit(e, c, Join(ENTERED, l), r, [], []);
    StoredSplit(e, c, ENTERED, l, [], []);
    assert e.bits[c.nBitsUsed..c.nBitsUsed + 1][0];
    assert c.(nBitsUsed := c.nBitsUsed + 1) == Past(c, ENTERED, [], []);
  }

  lemma ReadsOne(hash: PairHash, n: nat, e: Encoded, height: nat, pos: nat, c: Cursor, a: Hash, l: Encoded, fl: (seq<Hash>, seq<nat>))
    requires height > 0 && pos * 2 + 1 >= Width(n, height - 1)
    requires Stored(e, c, Join(ENTERED, l))
    requires ReadsAs(hash, n, e, height - 1, pos * 2, Past(c, ENTERED, [], []), a, l, fl)
    ensures ReadsAs(hash, n, e, height, pos, c, hash(a, a), Join(ENTERED, l), fl)
  {
    PastJoin(c, ENTERED, l, [], [], fl.0, fl.1);
    assert [] + fl.0 == fl.0 && [] + fl.1 == fl.1;
    StoredSplit(e, c, ENTERED, l, [], []);
    assert e.bits[c.nBitsUsed..c.nBitsUsed + 1][0];
    assert c.(nBitsUsed := c.nBitsUsed + 1) == Past(c, ENTERED, [], []);
  }

  lemma FoundAtLeaf(txids: seq<Hash>, match_: seq<bool>, height: nat, pos: nat)
    requires |match_| == |txids| && pos < Width(|txids|, height)
    requires height == 0 || !ParentOfMatch(match_, height, pos)
    ensures Found(txids, match_, height, pos) ==
      if ParentOfMatch(match_, height, pos) then WidthMeans(|txids|, height, pos); ([txids[pos]], [pos]) else ([], [])
  {
    var lo, hi := First(height, pos), End(|txids|, height, pos);
    Covered(|txids|, height, pos);
    NoneMatched(txids, match_, lo, hi);
    if height == 0 && ParentOfMatch(match_, height, pos) {
      assert MatchedIndexes(match_, lo, lo) == [] && MatchedTxids(txids, match_, lo, lo) == [];
      assert match_[pos];
      assert MatchedIndexes(match_, lo, hi) == MatchedIndexes(match_, lo, lo) + [pos] == [pos];
      assert MatchedTxids(txids, match_, lo, hi) == MatchedTxids(txids, match_, lo, lo) + [txids[pos]] == [txids[pos]];
    } else {
      assert MatchedIndexes(match_, lo, hi) == [] && MatchedTxids(txids, match_, lo, hi) == [];
    }
  }

  /** How a node that is entered unfolds. */
  lemma Unfolded(hash: PairHash, txids: seq<Hash>, match_: seq<bool>, height: nat, pos: nat)
    requires |match_| == |txids| && height > 0 && pos < Width(|txids|, height) && ParentOfMatch(match_, height, pos)
    ensures pos * 2 < Width(|txids|, height - 1)
    ensures
      var a, l := CalcHash(hash, txids, height - 1, pos * 2), Built(hash, txids, match_, height - 1, pos * 2);
      var h, e := CalcHash(hash, txids, height, pos), Built(hash, txids, match_, height, pos);
      if pos * 2 + 1 < Width(|txids|, height - 1) then
        var b, r := CalcHash(hash, txids, height - 1, pos * 2 + 1), Built(hash, txids, match_, height - 1, pos * 2 + 1);
        h == hash(a, b) && e == Join(Join(ENTERED, l), r)
      else
        h == hash(a, a) && e == Join(ENTERED, l)
  {
    Children(|txids|, height, pos);
  }

  lemma StoredBoth(e: Encoded, c: Cursor, l: Encoded, r: Encoded, fl: (seq<Hash>, seq<nat>))
    requires Stored(e, c, Join(Join(ENTERED, l), r))
    ensures Stored(e, Past(c, ENTERED, [], []), l) && Stored(e, Past(c, Join(ENTERED, l), fl.0, fl.1), r)
  {
    StoredSplit(e, c, Join(ENTERED, l), r, fl.0, fl.1);
    StoredSplit(e, c, ENTERED, l, [], []);
  }

  /** The decoder, placed where the encoder wrote a node, returns its hash and reports exactly its matches. */
  lemma {:induction false} Reads(hash: PairHash, txids: seq<Hash>, match_: seq<bool>, e: Encoded, height: nat, pos: nat, c: Cursor)
    requires Injective(hash) && Distinct(txids) && |match_| == |txids| && pos < Width(|txids|, height)
    requires Stored(e, c, Built(hash, txids, match_, height, pos))
    ensures ReadsAs(hash, |txids|, e, height, pos, c, CalcHash(hash, txids, height, pos),
                    Built(hash, txids, match_, height, pos), Found(txids, match_, height, pos))
    decreases height, 1
  {
    if height == 0 || !ParentOfMatch(match_, height, pos) {
      FoundAtLeaf(txids, match_, height, pos);
      ReadsHash(hash, |txids|, e, height, pos, c, ParentOfMatch(match_, height, pos), CalcHash(hash, txids, height, pos));
    } else if pos * 2 + 1 < Width(|txids|, height - 1) {
      ReadsChildren(hash, txids, match_, e, height, pos, c);
    } else {
      Unfolded(hash, txids, match_, height, pos);
      FoundBelow(txids, match_, height, pos);
      var l := Built(hash, txids, match_, height - 1, pos * 2);
      StoredSplit(e, c, ENTERED, l, [], []);
      Reads(hash, txids, match_, e, height - 1, pos * 2, Past(c, ENTERED, [], []));
      ReadsOne(hash, |txids|, e, height, pos, c, CalcHash(hash, txids, height - 1, pos * 2), l,
               Found(txids, match_, height - 1, pos * 2));
    }
  }

  lemma {:induction false} ReadsChildren(hash: PairHash, txids: seq<Hash>, match_: seq<bool>, e: Encoded, height: nat, pos: nat, c: Cursor)
    requires Injective(hash) && Distinct(txids) && |match_| == |txids| && pos < Width(|txids|, height)
    requires height > 0 && ParentOfMatch(match_, height, pos) && pos * 2 + 1 < Width(|txids|, height - 1)
    requires Stored(e, c, Built(hash, txids, match_, height, pos))
    ensures ReadsAs(hash, |txids|, e, height, pos, c, CalcHash(hash, txids, height, pos),
                    Built(hash, txids, match_, height, pos), Found(txids, match_, height, pos))
    decreases height, 0
  {
    Unfolded(hash, txids, match_, height, pos);
    FoundBelow(txids, match_, height, pos);
    var k, p, q := height - 1, pos * 2, pos * 2 + 1;
    var a, l := CalcHash(hash, txids, k, p), Built(hash, txids, match_, k, p);
    var b, r := CalcHash(hash, txids, k, q), Built(hash, txids, match_, k, q);
    var fl, fr := Found(txids, match_, k, p), Found(txids, match_, k, q);
    StoredBoth(e, c, l, r, fl);
    Reads(hash, txids, match_, e, k, p, Past(c, ENTERED, [], []));
    Reads(hash, txids, match_, e, k, q, Past(c, Join(ENTERED, l), fl.0, fl.1));
    HashesDiffer(hash, txids, k, p, q);
    ReadsBoth(hash, |txids|, e, height, pos, c, a, l, fl, b, r, fr);
  }

  // ----- size -----

  lemma CountsAdd(ml: nat, mr: nat, height: nat, nl: nat, nr: nat)
    requires height > 0 && ml + mr > 0 && nl <= 1 + ml * (height - 1) && nr <= 1 + mr * (height - 1)
    ensures nl + nr <= 1 + (ml + mr) * height
  {
    assert (ml + mr) * height == ml * (height - 1) + mr * (height - 1) + ml + mr;
  }

  /** At least one hash, and at most one per transaction. */
  lemma {:induction false} HashCount(hash: PairHash, txids: seq<Hash>, match_: seq<bool>, height: nat, pos: nat)
    requires |match_| == |txids| && pos < Width(|txids|, height)
    ensures 1 <= |Built(hash, txids, match_, height, pos).hashes| <= End(|txids|, height, pos) - First(height, pos)
  {
    Covered(|txids|, height, pos);
    if height > 0 && ParentOfMatch(match_, height, pos) {
      var less, left, right := height - 1, pos * 2, pos * 2 + 1;
      Unfolded(hash, txids, match_, height, pos);
      HashCount(hash, txids, match_, less, left);
      if right < Width(|txids|, less) {
        HashCount(hash, txids, match_, less, right);
      }
    }
  }

  /** At most 1 + matches * height hashes. */
  lemma {:induction false} HashBound(hash: PairHash, txids: seq<Hash>, match_: seq<bool>, height: nat, pos: nat)
    requires |match_| == |txids| && pos < Width(|txids|, height)
    ensures |Built(hash, txids, match_, height, pos).hashes| <= 1 + |Found(txids, match_, height, pos).1| * height
  {
    var m := |Found(txids, match_, height, pos).1|;
    if height == 0 || !ParentOfMatch(match_, height, pos) {
      MulMono(m, 0, height);
    } else {
      Unfolded(hash, txids, match_, height, pos);
      FoundBelow(txids, match_, height, pos);
      HashBound(hash, txids, match_, height - 1, pos * 2);
      if pos * 2 + 1 < Width(|txids|, height - 1) {
        HashBound(hash, txids, match_, height - 1, pos * 2 + 1);
        NoneMatched(txids, match_, First(height, pos), End(|txids|, height, pos));
        var l, r := Built(hash, txids, match_, height - 1, pos * 2), Built(hash, txids, match_, height - 1, pos * 2 + 1);
        var fl, fr := Found(txids, match_, height - 1, pos * 2), Found(txids, match_, height - 1, pos * 2 + 1);
        CountsAdd(|fl.1|, |fr.1|, height, |l.hashes|, |r.hashes|);
      } else {
        MulMono(m, height - 1, height);
      }
    }
  }

  /** The last node of a level. */
  function LastNode(n: nat, height: nat): nat
    requires n > 0
  {
    WidthMeans(n, height, 0);
    Width(n, height) - 1
  }

  /** How many levels up to `height` have a last node that has one child and a match below it. */
  function Singles(match_: seq<bool>, height: nat): nat
    requires |match_| > 0
  {
    if height == 0 then 0
    else Singles(match_, height - 1) +
         if Width(|match_|, height - 1) % 2 == 1 && ParentOfMatch(match_, height, LastNode(|match_|, height)) then 1 else 0
  }

  lemma LastBelow(n: nat, height: nat, pos: nat)
    requires n > 0 && height > 0 && pos < Width(n, height)
    ensures pos * 2 + 1 >= Width(n, height - 1) <==> pos == LastNode(n, height) && Width(n, height - 1) % 2 == 1
    ensures pos * 2 + 1 >= Width(n, height - 1) ==> pos * 2 == LastNode(n, height - 1)
    ensures pos * 2 + 1 < Width(n, height - 1) ==>
      (pos * 2 + 1 == LastNode(n, height - 1) <==> pos == LastNode(n, height) && Width(n, height - 1) % 2 == 0)
    ensures pos * 2 + 1 < Width(n, height - 1) ==>
      (pos == LastNode(n, height) ==> pos * 2 + 1 == LastNode(n, height - 1))
  {
    WidthHalves(n, height - 1);
  }

  /** Last nodes are nested, so no match below one means none below those under it. */
  lemma {:induction false} NoSingles(match_: seq<bool>, height: nat)
    requires |match_| > 0 && !ParentOfMatch(match_, height, LastNode(|match_|, height))
    ensures Singles(match_, height) == 0
  {
    if height > 0 {
      var n, pos := |match_|, LastNode(|match_|, height);
      LastBelow(n, height, pos);
      Covered(n, height, pos);
      NoSingles(match_, height - 1);
    }
  }

  /** The exact number of flag bits: 2N - 1, plus one for each single-child node that was entered. */
  lemma {:induction false} BitCount(hash: PairHash, txids: seq<Hash>, match_: seq<bool>, height: nat, pos: nat)
    requires |match_| == |txids| > 0 && pos < Width(|txids|, height)
    ensures
      var b := Built(hash, txids, match_, height, pos);
      |b.bits| == 2 * |b.hashes| - 1 + if pos == LastNode(|txids|, height) then Singles(match_, height) else 0
  {
    var n := |txids|;
    if !ParentOfMatch(match_, height, pos) {
      if pos == LastNode(n, height) {
        NoSingles(match_, height);
      }
    } else if height > 0 {
      Unfolded(hash, txids, match_, height, pos);
      LastBelow(n, height, pos);
      BitCount(hash, txids, match_, height - 1, pos * 2);
      if pos * 2 + 1 < Width(n, height - 1) {
        BitCount(hash, txids, match_, height - 1, pos * 2 + 1);
      }
    }
  }

  lemma {:induction false} SinglesAtMost(match_: seq<bool>, height: nat)
    requires |match_| > 0
    ensures Singles(match_, height) <= height
  {
    if height > 0 {
      SinglesAtMost(match_, height - 1);
    }
  }
}
