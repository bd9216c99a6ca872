/** The class `CPartialMerkleTree` (src/merkleblock.h:57-110, src/merkleblock.cpp:80-183). */
module MerkleBlock {
  import opened Powers
  import opened MerkleModel
  import opened MerkleProofs

  // ----- flag bits as bytes -----

  /** `1 << k`. */
  function Bit(k: nat): bv8
    requires k < 8
  {
    match k
    case 0 => 1
    case 1 => 2
    case 2 => 4
    case 3 => 8
    case 4 => 16
    case 5 => 32
    case 6 => 64
    case _ => 128
  }

  predicate TestBit(b: bv8, k: nat)
    requires k < 8
  {
    b & Bit(k) != 0
  }

  lemma SetOneBit(b: bv8, k: nat, j: nat)
    requires k < 8 && j < 8
    ensures TestBit(b | Bit(k), j) == (TestBit(b, j) || j == k)
  {
  }

  ghost predicate Packs(bytes: seq<bv8>, bits: seq<bool>) {
    && |bytes| == (|bits| + 7) / 8
    && forall p | 0 <= p < 8 * |bytes| :: TestBit(bytes[p / 8], p % 8) == (p < |bits| && bits[p])
  }

  method PackBits(vBits: seq<bool>) returns (vBytes: seq<bv8>)
    ensures Packs(vBytes, vBits)
  {
    var a := new bv8[(|vBits| + 7) / 8](_ => 0);
    for p := 0 to |vBits|
      invariant forall q | 0 <= q < 8 * a.Length :: TestBit(a[q / 8], q % 8) == (q < p && vBits[q])
    {
      ghost var was := a[..];
      var shifted: bv8 := if vBits[p] then Bit(p % 8) else 0;
      a[p / 8] := a[p / 8] | shifted;
      forall q | 0 <= q < 8 * a.Length ensures TestBit(a[q / 8], q % 8) == (q < p + 1 && vBits[q]) {
        SetOneBit(was[p / 8], p % 8, q % 8);
        assert TestBit(was[q / 8], q % 8) == (q < p && vBits[q]);
      }
    }
    vBytes := a[..];
  }

  method UnpackBits(vBytes: seq<bv8>) returns (vBits: seq<bool>)
    ensures |vBits| == 8 * |vBytes|
    ensures forall p | 0 <= p < |vBits| :: vBits[p] == TestBit(vBytes[p / 8], p % 8)
  {
    vBits := [];
    for p := 0 to 8 * |vBytes|
      invariant |vBits| == p
      invariant forall q | 0 <= q < p :: vBits[q] == TestBit(vBytes[q / 8], q % 8)
    {
      vBits := vBits + [TestBit(vBytes[p / 8], p % 8)];
    }
  }

  /** Reading packed bits back gives the same bits, padded with zeros to a whole byte. */
  lemma UnpackPacked(bits: seq<bool>, bytes: seq<bv8>, bits': seq<bool>)
    requires Packs(bytes, bits) && |bits'| == 8 * |bytes|
    requires forall p | 0 <= p < |bits'| :: bits'[p] == TestBit(bytes[p / 8], p % 8)
    ensures Padded(bits', bits)
  {
    forall p | 0 <= p < |bits| ensures bits'[p] == bits[p] {
      assert TestBit(bytes[p / 8], p % 8) == (p < |bits| && bits[p]);
    }
    assert bits'[..|bits|] == bits;
  }

  ghost predicate Padded(bits': seq<bool>, bits: seq<bool>) {
    bits <= bits' && (|bits'| + 7) / 8 == (|bits| + 7) / 8
  }

  // ----- extraction as a function -----

  datatype Extraction = Extraction(root: Hash, vMatch: seq<Hash>, vnIndex: seq<nat>)

  function Finished(e: Encoded, root: Hash, c: Cursor): Extraction {
    Extraction(if c.fBad || (c.nBitsUsed + 7) / 8 != (|e.bits| + 7) / 8 || c.nHashUsed != |e.hashes| then 0 else root,
               c.vMatch, c.vnIndex)
  }

  function ExtractResult(hash: PairHash, n: nat, e: Encoded, fBad: bool, vnIndex: seq<nat>): Extraction {
    if n == 0 || n > MAX_BLOCK_VTX || |e.hashes| > n || |e.bits| < |e.hashes| then Extraction(0, [], vnIndex)
    else
      var (root, c) := Extracted(hash, n, e, TreeHeight(n), 0, Cursor(fBad, 0, 0, [], vnIndex));
      Finished(e, root, c)
  }

  /** A result other than zero is that of the traversal from the root. */
  lemma FromRoot(hash: PairHash, txids: seq<Hash>, x: Extraction, e: Encoded, fBad: bool)
    returns (h: nat, start: Cursor)
    requires |txids| > 0 && x == ExtractResult(hash, |txids|, e, fBad, []) && x.root == Root(hash, txids) != 0
    ensures 0 < Width(|txids|, h) && x.root == CalcHash(hash, txids, h, 0) && Reported(txids, start)
    ensures var (root, c) := Extracted(hash, |txids|, e, h, 0, start); x == Extraction(root, c.vMatch, c.vnIndex)
  {
    h, start := TreeHeight(|txids|), Cursor(fBad, 0, 0, [], []);
    WidthMeans(|txids|, h, 0);
  }

  /** For arbitrary bits and hashes: if the true root comes out, every reported txid sits at its reported index. */
  lemma ExtractIsSound(hash: PairHash, txids: seq<Hash>, x: Extraction, e: Encoded, fBad: bool)
    requires Injective(hash) && |txids| > 0
    requires x == ExtractResult(hash, |txids|, e, fBad, []) && x.root == Root(hash, txids) != 0
    ensures Located(txids, x.vMatch, x.vnIndex)
  {
    var h, start := FromRoot(hash, txids, x, e, fBad);
    NodeIsSound(hash, txids, e, h, 0, start);
  }

  function Tree(hash: PairHash, txids: seq<Hash>, match_: seq<bool>): Encoded
    requires |match_| == |txids| > 0
  {
    WidthMeans(|txids|, TreeHeight(|txids|), 0);
    Built(hash, txids, match_, TreeHeight(|txids|), 0)
  }

  /** The height is the rounded-up logarithm of the number of transactions. */
  lemma HeightIsLog(n: nat)
    requires n > 0
    ensures n <= Pow2(TreeHeight(n)) && (TreeHeight(n) > 0 ==> Pow2(TreeHeight(n) - 1) < n)
    ensures Width(n, TreeHeight(n)) == 1
  {
    var h := TreeHeight(n);
    WidthMeans(n, h, 1);
    WidthMeans(n, h, 0);
    if h > 0 {
      WidthMeans(n, h - 1, 1);
    }
  }

  lemma RootCoversAll(n: nat)
    requires n > 0
    ensures First(TreeHeight(n), 0) == 0 && End(n, TreeHeight(n), 0) == n && LastNode(n, TreeHeight(n)) == 0
  {
    HeightIsLog(n);
  }

  lemma TreeSize(hash: PairHash, txids: seq<Hash>, match_: seq<bool>)
    requires |match_| == |txids| > 0
    ensures
      var t, h := Tree(hash, txids, match_), TreeHeight(|txids|);
      && 1 <= |t.hashes| <= |txids|
      && |t.hashes| <= 1 + |MatchedIndexes(match_, 0, |txids|)| * h
      && |t.bits| == 2 * |t.hashes| - 1 + Singles(match_, h) <= 2 * |t.hashes| - 1 + h
      && (|t.bits| <= 2 * |t.hashes| - 1 <==> Singles(match_, h) == 0)
  {
    var h := TreeHeight(|txids|);
    WidthMeans(|txids|, h, 0);
    RootCoversAll(|txids|);
    HashCount(hash, txids, match_, h, 0);
    HashBound(hash, txids, match_, h, 0);
    BitCount(hash, txids, match_, h, 0);
    SinglesAtMost(match_, h);
  }

  lemma {:induction false} SinglesMono(match_: seq<bool>, low: nat, high: nat)
    requires |match_| > 0 && low <= high
    ensures Singles(match_, low) <= Singles(match_, high)
  {
    if low < high {
      SinglesMono(match_, low, high - 1);
    }
  }

  /** The documented 2N - 1 bits are too few for every odd number of transactions whose last one is matched. */
  lemma DocumentedBitBoundFails(hash: PairHash, txids: seq<Hash>, match_: seq<bool>)
    requires |match_| == |txids| >= 3 && |txids| % 2 == 1 && match_[|txids| - 1]
    ensures var t := Tree(hash, txids, match_); |t.bits| > 2 * |t.hashes| - 1
  {
    var n := |txids|;
    TreeSize(hash, txids, match_);
    LastBelow(n, 1, LastNode(n, 1));
    Covered(n, 1, LastNode(n, 1));
    assert Width(n, 0) == n;
    Covered(n, 0, n - 1);
    assert ParentOfMatch(match_, 1, LastNode(n, 1));
    assert Singles(match_, 1) == Singles(match_, 0) + 1;
    SinglesMono(match_, 1, TreeHeight(n));
  }

  /** Bytes of a length prefix. */
  function PrefixSize(n: nat): nat {
    if n < 253 then 1 else if n <= 0xFFFF then 3 else if n <= 0xFFFF_FFFF then 5 else 9
  }

  /** Bytes of a stored tree: the transaction count, the hashes and the packed bits, the last two with their lengths. */
  function StoredSize(e: Encoded): nat {
    var nBytes := (|e.bits| + 7) / 8;
    4 + PrefixSize(|e.hashes|) + 32 * |e.hashes| + PrefixSize(nBytes) + nBytes
  }

  /** The documented limit, 10 + ceil(32.25 * N). */
  function DocumentedSize(hashes: nat): nat {
    10 + (129 * hashes + 3) / 4
  }

  /** Bits the documented size has room for beyond 2N - 1, by rounding up and by short length prefixes. */
  function Room(hashes: nat, nBytes: nat): int {
    2 + 2 * ((4 - hashes % 4) % 4) + 8 * (6 - PrefixSize(hashes) - PrefixSize(nBytes))
  }

  /** The documented size holds iff the single-child nodes entered fit in that room. */
  lemma SizeGuarantee(hash: PairHash, txids: seq<Hash>, match_: seq<bool>)
    requires |match_| == |txids| > 0
    ensures
      var t := Tree(hash, txids, match_);
      StoredSize(t) <= DocumentedSize(|t.hashes|) <==> Singles(match_, TreeHeight(|txids|)) < Room(|t.hashes|, (|t.bits| + 7) / 8)
  {
    TreeSize(hash, txids, match_);
    var t := Tree(hash, txids, match_);
    RoomIs(|t.hashes|, Singles(match_, TreeHeight(|txids|)), (|t.bits| + 7) / 8);
  }

  lemma RoomIs(n: nat, singles: nat, nBytes: nat)
    requires n > 0 && nBytes == (2 * n - 1 + singles + 7) / 8
    ensures 4 + PrefixSize(n) + 32 * n + PrefixSize(nBytes) + nBytes <= DocumentedSize(n) <==> singles < Room(n, nBytes)
  {
    assert 4 * ((129 * n + 3) / 4) == 129 * n + (4 - n % 4) % 4;
  }

  ghost predicate AllTrue(match_: seq<bool>) {
    forall i | 0 <= i < |match_| :: match_[i]
  }

  lemma AllParents(match_: seq<bool>, height: nat, pos: nat)
    requires AllTrue(match_) && pos < Width(|match_|, height)
    ensures ParentOfMatch(match_, height, pos)
  {
    Covered(|match_|, height, pos);
    assert match_[First(height, pos)];
  }

  /** When everything is matched, every hash is a transaction's. */
  lemma {:induction false} AllMatched(hash: PairHash, txids: seq<Hash>, match_: seq<bool>, height: nat, pos: nat)
    requires |match_| == |txids| && pos < Width(|txids|, height) && AllTrue(match_)
    ensures |Built(hash, txids, match_, height, pos).hashes| == End(|txids|, height, pos) - First(height, pos)
  {
    Covered(|txids|, height, pos);
    if height > 0 {
      AllParents(match_, height, pos);
      Unfolded(hash, txids, match_, height, pos);
      AllMatched(hash, txids, match_, height - 1, pos * 2);
      if pos * 2 + 1 < Width(|txids|, height - 1) {
        AllMatched(hash, txids, match_, height - 1, pos * 2 + 1);
      }
    }
  }

  /** One level with an odd number of nodes below it. */
  lemma OneMore(match_: seq<bool>, height: nat)
    requires |match_| > 0 && AllTrue(match_) && height > 0 && Width(|match_|, height - 1) % 2 == 1
    ensures Singles(match_, height) == Singles(match_, height - 1) + 1
  {
    AllParents(match_, height, LastNode(|match_|, height));
  }

  lemma AllHashes(hash: PairHash, txids: seq<Hash>, match_: seq<bool>)
    requires |match_| == |txids| > 0 && AllTrue(match_)
    ensures |Tree(hash, txids, match_).hashes| == |txids|
  {
    var h := TreeHeight(|txids|);
    RootCoversAll(|txids|);
    WidthMeans(|txids|, h, 0);
    AllMatched(hash, txids, match_, h, 0);
  }

  lemma NoRoom(n: nat, singles: nat, nBytes: nat)
    requires n >= 1012 && n % 4 == 0 && singles >= 2 && nBytes == (2 * n - 1 + singles + 7) / 8
    ensures singles >= Room(n, nBytes)
  {
    assert nBytes >= 253;
  }

  /** Blocks of 1012, 1016, 1020, ... transactions, all matched, take more than the documented size if two nodes have one child. */
  lemma DocumentedSizeFails(hash: PairHash, txids: seq<Hash>, match_: seq<bool>)
    requires |match_| == |txids| >= 1012 && |txids| % 4 == 0 && AllTrue(match_)
    requires Singles(match_, TreeHeight(|txids|)) >= 2
    ensures var t := Tree(hash, txids, match_); StoredSize(t) > DocumentedSize(|t.hashes|)
  {
    AllHashes(hash, txids, match_);
    SizeGuarantee(hash, txids, match_);
    TreeSize(hash, txids, match_);
    NoRoom(|txids|, Singles(match_, TreeHeight(|txids|)), (|Tree(hash, txids, match_).bits| + 7) / 8);
  }

  /** One level up: half the nodes, and one more single child if their number was odd. */
  lemma LevelUp(match_: seq<bool>, k: nat, w: nat, c: nat, k': nat)
    requires |match_| > 0 && AllTrue(match_) && k' == k + 1 && Width(|match_|, k) == w && Singles(match_, k) == c
    ensures Width(|match_|, k') == (w + 1) / 2 && Singles(match_, k') == c + w % 2
  {
    WidthHalves(|match_|, k);
    if w % 2 == 1 {
      OneMore(match_, k');
    }
  }

  lemma LowLevels(match_: seq<bool>)
    requires |match_| == 1012 && AllTrue(match_)
    ensures Width(1012, 0) > 1 && Width(1012, 1) > 1 && Width(1012, 2) > 1 && Width(1012, 3) > 1 && Width(1012, 4) > 1
    ensures Width(1012, 5) == 32 && Singles(match_, 5) == 2
  {
    LevelUp(match_, 0, 1012, 0, 1);
    LevelUp(match_, 1, 506, 0, 2);
    LevelUp(match_, 2, 253, 0, 3);
    LevelUp(match_, 3, 127, 1, 4);
    LevelUp(match_, 4, 64, 2, 5);
  }

  lemma HighLevels(match_: seq<bool>)
    requires |match_| == 1012 && AllTrue(match_) && Width(1012, 5) == 32 && Singles(match_, 5) == 2
    ensures Width(1012, 6) > 1 && Width(1012, 7) > 1 && Width(1012, 8) > 1 && Width(1012, 9) > 1
    ensures Width(1012, 10) == 1 && Singles(match_, 10) == 2
  {
    LevelUp(match_, 5, 32, 2, 6);
    LevelUp(match_, 6, 16, 2, 7);
    LevelUp(match_, 7, 8, 2, 8);
    LevelUp(match_, 8, 4, 2, 9);
    LevelUp(match_, 9, 2, 2, 10);
  }

  /** With 1012 transactions there are two single children, the 253rd and the 127th of their levels. */
  lemma SinglesOf1012(match_: seq<bool>)
    requires |match_| == 1012 && AllTrue(match_)
    ensures TreeHeight(1012) == 10 && Singles(match_, TreeHeight(1012)) == 2
  {
    LowLevels(match_);
    HighLevels(match_);
  }

  /** So they take 32648 bytes where 32647 are documented. */
  lemma SizeOf1012(hash: PairHash, txids: seq<Hash>, match_: seq<bool>)
    requires |match_| == |txids| == 1012 && AllTrue(match_)
    ensures var t := Tree(hash, txids, match_); StoredSize(t) == 32648 && DocumentedSize(|t.hashes|) == 32647
  {
    SinglesOf1012(match_);
    AllHashes(hash, txids, match_);
    TreeSize(hash, txids, match_);
  }

  /** Extracting from what was built, with bits padded to whole bytes, gives the root and exactly the matches. */
  lemma RoundTrip(hash: PairHash, txids: seq<Hash>, match_: seq<bool>, bits: seq<bool>)
    requires Injective(hash) && Distinct(txids) && |match_| == |txids| && 0 < |txids| <= MAX_BLOCK_VTX
    requires Padded(bits, Tree(hash, txids, match_).bits)
    ensures
      var n, e := |txids|, Encoded(bits, Tree(hash, txids, match_).hashes);
      ExtractResult(hash, n, e, false, []) ==
        Extraction(Root(hash, txids), MatchedTxids(txids, match_, 0, n), MatchedIndexes(match_, 0, n))
  {
    var n, t := |txids|, Tree(hash, txids, match_);
    var h, e := TreeHeight(n), Encoded(bits, t.hashes);
    WidthMeans(n, h, 0);
    RootCoversAll(n);
    TreeSize(hash, txids, match_);
    assert bits[0..|t.bits|] == t.bits && t.hashes[0..|t.hashes|] == t.hashes;
    Reads(hash, txids, match_, e, h, 0, START);
    FinishedWell(hash, n, e, t, Root(hash, txids), Found(txids, match_, h, 0));
  }

  const START := Cursor(false, 0, 0, [], [])

  lemma FinishedWell(hash: PairHash, n: nat, e: Encoded, t: Encoded, root: Hash, f: (seq<Hash>, seq<nat>))
    requires 0 < n <= MAX_BLOCK_VTX && Padded(e.bits, t.bits) && e.hashes == t.hashes && |t.hashes| <= n && |t.hashes| <= |t.bits|
    requires ReadsAs(hash, n, e, TreeHeight(n), 0, START, root, t, f)
    ensures ExtractResult(hash, n, e, false, []) == Extraction(root, f.0, f.1)
  {
    assert [] + f.0 == f.0 && [] + f.1 == f.1;
  }

  lemma JoinAssoc(a: Encoded, b: Encoded, c: Encoded)
    ensures Join(Join(a, b), c) == Join(a, Join(b, c))
  {
  }

  class PartialMerkleTree {
    const hash: PairHash
    var nTransactions: nat
    var vBits: seq<bool>
    var vHash: seq<Hash>
    var fBad: bool

    ghost function Stored(): Encoded
      reads this
    {
      Encoded(vBits, vHash)
    }

    constructor (hash: PairHash, vTxid: seq<Hash>, vMatch: seq<bool>)
      requires |vMatch| == |vTxid| > 0
      ensures this.hash == hash && nTransactions == |vTxid| && !fBad && Stored() == Tree(hash, vTxid, vMatch)
    {
      this.hash := hash;
      nTransactions, fBad, vBits, vHash := |vTxid|, false, [], [];
      new;
      var nHeight := CalcHeight();
      WidthMeans(|vTxid|, nHeight, 0);
      TraverseAndBuild(nHeight, 0, vTxid, vMatch);
    }

    constructor Unserialize(hash: PairHash, nTransactions: nat, vHash: seq<Hash>, vBytes: seq<bv8>)
      ensures this.hash == hash && this.nTransactions == nTransactions && this.vHash == vHash && !fBad
      ensures |vBits| == 8 * |vBytes| && forall p | 0 <= p < |vBits| :: vBits[p] == TestBit(vBytes[p / 8], p % 8)
    {
      this.hash := hash;
      this.nTransactions, this.vHash, fBad := nTransactions, vHash, false;
      new;
      vBits := UnpackBits(vBytes);
    }

    method Serialize() returns (n: nat, hashes: seq<Hash>, vBytes: seq<bv8>)
      ensures n == nTransactions && hashes == vHash && Packs(vBytes, vBits)
    {
      n, hashes := nTransactions, vHash;
      vBytes := PackBits(vBits);
    }

    method CalcHeight() returns (nHeight: nat)
      ensures nHeight == TreeHeight(nTransactions)
    {
      nHeight := 0;
      while Width(nTransactions, nHeight) > 1
        invariant HeightFrom(nTransactions, nHeight) == TreeHeight(nTransactions)
        decreases Width(nTransactions, nHeight)
      {
        WidthHalves(nTransactions, nHeight);
        nHeight := nHeight + 1;
      }
    }

    method AnyMatchBelow(height: nat, pos: nat, vMatch: seq<bool>) returns (fParentOfMatch: bool)
      requires |vMatch| == nTransactions && pos < Width(nTransactions, height)
      ensures fParentOfMatch == ParentOfMatch(vMatch, height, pos)
    {
      fParentOfMatch := false;
      var p, end := pos * Pow2(height), (pos + 1) * Pow2(height);
      Covered(nTransactions, height, pos);
      while p < end && p < nTransactions
        invariant First(height, pos) <= p <= End(nTransactions, height, pos)
        invariant fParentOfMatch == AnyMatch(vMatch, First(height, pos), p)
      {
        fParentOfMatch := fParentOfMatch || vMatch[p];
        p := p + 1;
      }
    }

    method TraverseAndBuild(height: nat, pos: nat, vTxid: seq<Hash>, vMatch: seq<bool>)
      requires |vMatch| == |vTxid| == nTransactions && pos < Width(nTransactions, height)
      modifies this`vBits, this`vHash
      ensures Stored() == Join(old(Stored()), Built(hash, vTxid, vMatch, height, pos))
      decreases height, 1
    {
      var fParentOfMatch := AnyMatchBelow(height, pos, vMatch);
      vBits := vBits + [fParentOfMatch];
      if height == 0 || !fParentOfMatch {
        vHash := vHash + [CalcHash(hash, vTxid, height, pos)];
      } else {
        assert Stored() == Join(old(Stored()), ENTERED);
        BuildChildren(height, pos, vTxid, vMatch, old(Stored()));
      }
    }

    /** The recursive calls of `TraverseAndBuild`; `e` is what was stored before this node. */
    method BuildChildren(height: nat, pos: nat, vTxid: seq<Hash>, vMatch: seq<bool>, ghost e: Encoded)
      requires |vMatch| == |vTxid| == nTransactions && pos < Width(nTransactions, height)
      requires height > 0 && ParentOfMatch(vMatch, height, pos) && Stored() == Join(e, ENTERED)
      modifies this`vBits, this`vHash
      ensures Stored() == Join(e, Built(hash, vTxid, vMatch, height, pos))
      decreases height, 0
    {
      Unfolded(hash, vTxid, vMatch, height, pos);
      ghost var l := Built(hash, vTxid, vMatch, height - 1, pos * 2);
      TraverseAndBuild(height - 1, pos * 2, vTxid, vMatch);
      JoinAssoc(e, ENTERED, l);
      if pos * 2 + 1 < Width(nTransactions, height - 1) {
        TraverseAndBuild(height - 1, pos * 2 + 1, vTxid, vMatch);
        JoinAssoc(e, Join(ENTERED, l), Built(hash, vTxid, vMatch, height - 1, pos * 2 + 1));
      }
    }

    method TraverseAndExtract(height: nat, pos: nat, nBits0: nat, nHash0: nat, vMatch0: seq<Hash>, vnIndex0: seq<nat>)
      returns (h: Hash, nBitsUsed: nat, nHashUsed: nat, vMatch: seq<Hash>, vnIndex: seq<nat>)
      modifies this`fBad
      ensures (h, Cursor(fBad, nBitsUsed, nHashUsed, vMatch, vnIndex)) ==
              Extracted(hash, nTransactions, Stored(), height, pos, Cursor(old(fBad), nBits0, nHash0, vMatch0, vnIndex0))
      decreases height
    {
      nBitsUsed, nHashUsed, vMatch, vnIndex := nBits0, nHash0, vMatch0, vnIndex0;
      if nBitsUsed >= |vBits| {
        fBad := true;
        return 0, nBitsUsed, nHashUsed, vMatch, vnIndex;
      }
      var fParentOfMatch := vBits[nBitsUsed];
      nBitsUsed := nBitsUsed + 1;
      if height == 0 || !fParentOfMatch {
        if nHashUsed >= |vHash| {
          fBad := true;
          return 0, nBitsUsed, nHashUsed, vMatch, vnIndex;
        }
        h := vHash[nHashUsed];
        nHashUsed := nHashUsed + 1;
        if height == 0 && fParentOfMatch {
          vMatch, vnIndex := vMatch + [h], vnIndex + [pos];
        }
      } else {
        var left, right;
        left, nBitsUsed, nHashUsed, vMatch, vnIndex :=
          TraverseAndExtract(height - 1, pos * 2, nBitsUsed, nHashUsed, vMatch, vnIndex);
        if pos * 2 + 1 < Width(nTransactions, height - 1) {
          right, nBitsUsed, nHashUsed, vMatch, vnIndex :=
            TraverseAndExtract(height - 1, pos * 2 + 1, nBitsUsed, nHashUsed, vMatch, vnIndex);
          if right == left {
            fBad := true;
          }
        } else {
          right := left;
        }
        h := hash(left, right);
      }
    }

    method ExtractMatches(vnIndex0: seq<nat>) returns (root: Hash, vMatch: seq<Hash>, vnIndex: seq<nat>)
      modifies this`fBad
      ensures Extraction(root, vMatch, vnIndex) == ExtractResult(hash, nTransactions, Stored(), old(fBad), vnIndex0)
    {
      vMatch, vnIndex := [], vnIndex0;
      if nTransactions == 0 || nTransactions > MAX_BLOCK_VTX {
        return 0, vMatch, vnIndex;
      }
      if |vHash| > nTransactions {
        return 0, vMatch, vnIndex;
      }
      if |vBits| < |vHash| {
        return 0, vMatch, vnIndex;
      }
      var nHeight := CalcHeight();
      var hashMerkleRoot, nBitsUsed, nHashUsed;
      hashMerkleRoot, nBitsUsed, nHashUsed, vMatch, vnIndex := TraverseAndExtract(nHeight, 0, 0, 0, vMatch, vnIndex);
      if fBad {
        return 0, vMatch, vnIndex;
      }
      if (nBitsUsed + 7) / 8 != (|vBits| + 7) / 8 {
        return 0, vMatch, vnIndex;
      }
      if nHashUsed != |vHash| {
        return 0, vMatch, vnIndex;
      }
      root := hashMerkleRoot;
    }
  }

  /** The whole trip: build, pack the flag bits, unpack them, extract. */
  method Transfer(hash: PairHash, vTxid: seq<Hash>, vMatch: seq<bool>)
    returns (root: Hash, matched: seq<Hash>, indexes: seq<nat>)
    requires Injective(hash) && Distinct(vTxid) && |vMatch| == |vTxid| && 0 < |vTxid| <= MAX_BLOCK_VTX
    ensures root == Root(hash, vTxid)
    ensures matched == MatchedTxids(vTxid, vMatch, 0, |vTxid|) && indexes == MatchedIndexes(vMatch, 0, |vTxid|)
  {
    var sent := new PartialMerkleTree(hash, vTxid, vMatch);
    var n, hashes, vBytes := sent.Serialize();
    var got := new PartialMerkleTree.Unserialize(hash, n, hashes, vBytes);
    UnpackPacked(sent.vBits, vBytes, got.vBits);
    RoundTrip(hash, vTxid, vMatch, got.vBits);
    root, matched, indexes := got.ExtractMatches([]);
  }
}
