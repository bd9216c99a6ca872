/** The block index and the active chain (src/chain.h:447-475, src/chain.cpp). A hash is a number. */
module Chain {
  import opened Powers
  import opened SkipBound
  import opened SkipHeight

  class BlockIndex {
    const hash: nat
    var pprev: BlockIndex?
    var pskip: BlockIndex?
    var nHeight: nat

    /** A new entry, linked as `AddToBlockIndex` links it. */
    constructor (hash: nat, pprev: BlockIndex?)
      ensures this.hash == hash && this.pprev == pprev && pskip == null
      ensures nHeight == if pprev == null then 0 else pprev.nHeight + 1
    {
      this.hash := hash;
      this.pprev, pskip := pprev, null;
      nHeight := if pprev == null then 0 else pprev.nHeight + 1;
    }

    /** One round of `GetAncestor`: follow the skip pointer, or else the parent link. */
    method Follow(height: nat, ghost s: set<BlockIndex>) returns (pindexWalk: BlockIndex, heightWalk: nat)
      requires this in s && Skips(s) && height < nHeight
      ensures pindexWalk in s && height <= pindexWalk.nHeight == heightWalk < nHeight
      ensures Ancestor(s, pindexWalk, height) == Ancestor(s, this, height)
      ensures heightWalk == if pskip == null then nHeight - 1 else Next(nHeight, height)
    {
      SkipGoesBack(nHeight);
      var heightSkip := GetSkipHeight(nHeight);
      var heightSkipPrev := GetSkipHeight(nHeight - 1);
      if pskip != null &&
         (heightSkip == height || (heightSkip > height && !(heightSkipPrev < heightSkip - 2 && heightSkipPrev >= height))) {
        AncestorOfAncestor(s, this, heightSkip, height);
        pindexWalk := pskip;
        heightWalk := heightSkip;
      } else {
        assert pprev != null;
        pindexWalk := pprev;
        heightWalk := nHeight - 1;
      }
    }

    /** `links` counts the rounds of the loop. */
    method GetAncestor(height: int, ghost s: set<BlockIndex>) returns (r: BlockIndex?, ghost links: nat)
      requires this in s && Skips(s)
      ensures r == if 0 <= height <= nHeight then Ancestor(s, this, height) else null
      ensures 0 <= height <= nHeight && Built(s, nHeight) ==> links == Links(nHeight, height)
    {
      if height > nHeight || height < 0 {
        return null, 0;
      }
      links := 0;
      var pindexWalk: BlockIndex := this;
      var heightWalk := nHeight;
      while heightWalk > height
        invariant pindexWalk in s && pindexWalk.nHeight == heightWalk && height <= heightWalk <= nHeight
        invariant Ancestor(s, pindexWalk, height) == Ancestor(s, this, height)
        invariant Built(s, nHeight) ==> links + Links(heightWalk, height) == Links(nHeight, height)
        decreases heightWalk
      {
        pindexWalk, heightWalk := pindexWalk.Follow(height, s);
        links := links + 1;
      }
      r := pindexWalk;
    }

    method BuildSkip(ghost s: set<BlockIndex>)
      requires this in s && Skips(s)
      modifies this`pskip
      ensures Skips(s)
      ensures pskip == if pprev == null then old(pskip) else SkipTarget(s, this)
    {
      if pprev != null {
        SkipGoesBack(nHeight);
        ghost var links;
        pskip, links := pprev.GetAncestor(GetSkipHeight(nHeight), s);
      }
    }
  }

  /** Parent links go one height down, and only the genesis block has none. */
  ghost predicate Tree(s: set<BlockIndex>)
    reads s`pprev, s`nHeight
  {
    forall b | b in s ::
      if b.nHeight == 0 then b.pprev == null else b.pprev != null && b.pprev in s && b.pprev.nHeight == b.nHeight - 1
  }

  /** Following parent links down to a height. */
  ghost function Ancestor(s: set<BlockIndex>, b: BlockIndex, height: nat): (a: BlockIndex)
    requires Tree(s) && b in s && height <= b.nHeight
    reads s`pprev, s`nHeight
    ensures a in s && a.nHeight == height
    decreases b.nHeight
  {
    if height == b.nHeight then b else Ancestor(s, b.pprev, height)
  }

  /** Every skip pointer agrees with the parent links. */
  ghost predicate Skips(s: set<BlockIndex>)
    reads s
  {
    && Tree(s)
    && forall b | b in s && b.pskip != null :: b.nHeight > 0 && b.pskip == SkipTarget(s, b)
  }

  /** Every block above the genesis block, up to a height, has its skip pointer. */
  ghost predicate Built(s: set<BlockIndex>, height: nat)
    reads s`pskip, s`nHeight
  {
    forall b | b in s && 0 < b.nHeight <= height :: b.pskip != null
  }

  ghost function SkipTarget(s: set<BlockIndex>, b: BlockIndex): BlockIndex
    requires Tree(s) && b in s && b.nHeight > 0
    reads s`pprev, s`nHeight
  {
    SkipGoesBack(b.nHeight);
    Ancestor(s, b, GetSkipHeight(b.nHeight))
  }

  lemma {:induction false} AncestorOfAncestor(s: set<BlockIndex>, b: BlockIndex, mid: nat, low: nat)
    requires Tree(s) && b in s && low <= mid <= b.nHeight
    ensures Ancestor(s, Ancestor(s, b, mid), low) == Ancestor(s, b, low)
    decreases b.nHeight
  {
    if mid < b.nHeight {
      AncestorOfAncestor(s, b.pprev, mid, low);
    }
  }

  lemma {:induction false} AncestorGrows(s: set<BlockIndex>, s': set<BlockIndex>, b: BlockIndex, height: nat)
    requires s <= s' && Tree(s) && Tree(s') && b in s && height <= b.nHeight
    ensures Ancestor(s', b, height) == Ancestor(s, b, height)
    decreases b.nHeight
  {
    if height < b.nHeight {
      AncestorGrows(s, s', b.pprev, height);
    }
  }

  /** One step of building a block tree: link a new entry and give it its skip pointer. */
  method AddToBlockIndex(hash: nat, pprev: BlockIndex?, ghost s: set<BlockIndex>) returns (b: BlockIndex)
    requires Skips(s) && (pprev != null ==> pprev in s)
    ensures fresh(b) && b.hash == hash && b.pprev == pprev && Skips(s + {b})
    ensures b.nHeight > 0 ==> b.pskip == SkipTarget(s + {b}, b)
    ensures forall h: nat {:trigger Built(s, h)} :: Built(s, h) ==> Built(s + {b}, h)
    ensures forall a | a in s :: a.pprev == old(a.pprev) && a.nHeight == old(a.nHeight) && a.pskip == old(a.pskip)
  {
    b := new BlockIndex(hash, pprev);
    ghost var s' := s + {b};
    assert Tree(s');
    forall a | a in s && a.pskip != null ensures a.pskip == SkipTarget(s', a) {
      SkipGoesBack(a.nHeight);
      AncestorGrows(s, s', a, GetSkipHeight(a.nHeight));
    }
    b.BuildSkip(s');
  }

  // ----- the active chain -----

  ghost predicate LinkAt(s: set<BlockIndex>, chain: seq<BlockIndex?>, i: nat)
    requires i < |chain|
    reads s`pprev, s`nHeight
  {
    chain[i] != null && chain[i] in s && chain[i].nHeight == i && (i > 0 ==> chain[i].pprev == chain[i - 1])
  }

  /** The chain is the whole ancestry of its tip. */
  ghost predicate Ancestry(s: set<BlockIndex>, chain: seq<BlockIndex?>)
    reads s`pprev, s`nHeight
  {
    && Tree(s)
    && forall i {:trigger LinkAt(s, chain, i)} | 0 <= i < |chain| :: LinkAt(s, chain, i)
  }

  lemma {:induction false} ChainIsAncestry(s: set<BlockIndex>, chain: seq<BlockIndex?>, k: nat, i: nat)
    requires Ancestry(s, chain) && i <= k < |chain|
    ensures LinkAt(s, chain, k) && chain[i] == Ancestor(s, chain[k], i)
  {
    assert LinkAt(s, chain, k);
    if i < k {
      ChainIsAncestry(s, chain, k - 1, i);
    }
  }

  class Chain {
    var vChain: seq<BlockIndex?>

    function At(nHeight: int): BlockIndex?
      reads this
    {
      if nHeight < 0 || nHeight >= |vChain| then null else vChain[nHeight]
    }

    function Tip(): BlockIndex?
      reads this
    {
      if |vChain| > 0 then vChain[|vChain| - 1] else null
    }

    function Height(): int
      reads this
    {
      |vChain| - 1
    }

    predicate Contains(pindex: BlockIndex)
      reads this, pindex
    {
      At(pindex.nHeight) == pindex
    }

    /** After `SetTip` the chain is exactly the ancestry of the new tip, although the loop stops at the first match. */
    method SetTip(pindex0: BlockIndex?, ghost s: set<BlockIndex>)
      requires Ancestry(s, vChain) && (pindex0 != null ==> pindex0 in s)
      modifies this
      ensures Ancestry(s, vChain) && Tip() == pindex0
      ensures |vChain| == if pindex0 == null then 0 else pindex0.nHeight + 1
    {
      if pindex0 == null {
        vChain := [];
        return;
      }
      ghost var was := vChain;
      var pindex: BlockIndex? := pindex0;
      vChain := Resized(vChain, pindex.nHeight + 1);
      while pindex != null && vChain[pindex.nHeight] != pindex
        invariant |vChain| == pindex0.nHeight + 1
        invariant pindex != null ==> pindex in s && pindex.nHeight < |vChain|
        invariant Replaced(s, was, vChain, pindex, pindex0)
        decreases if pindex == null then 0 else pindex.nHeight + 1
      {
        ReplaceOne(s, was, vChain, pindex, pindex0);
        vChain := vChain[pindex.nHeight := pindex];
        pindex := pindex.pprev;
      }
      ReplaceDone(s, was, vChain, pindex, pindex0);
    }

    /** The highest block that is both in the chain and an ancestor of `pindex0`. */
    method FindFork(pindex0: BlockIndex?, ghost s: set<BlockIndex>) returns (fork: BlockIndex?)
      requires Ancestry(s, vChain) && Skips(s) && (pindex0 != null ==> pindex0 in s)
      ensures fork != null ==> pindex0 != null && IsCommon(s, vChain, pindex0, fork)
      ensures pindex0 != null ==> forall c | c in s && IsCommon(s, vChain, pindex0, c) :: fork != null && c.nHeight <= fork.nHeight
    {
      if pindex0 == null {
        return null;
      }
      fork := pindex0;
      if fork.nHeight > Height() {
        ghost var links;
        fork, links := fork.GetAncestor(Height(), s);
      }
      while fork != null && !Contains(fork)
        invariant OnPath(s, pindex0, fork)
        invariant forall c | c in s && IsCommon(s, vChain, pindex0, c) :: fork != null && c.nHeight <= fork.nHeight
        decreases if fork == null then 0 else fork.nHeight + 1
      {
        PathDown(s, pindex0, fork);
        NotCommon(s, vChain, pindex0, fork);
        fork := fork.pprev;
      }
    }

    method StepBack(pindex: BlockIndex, nHeight: nat, ghost s: set<BlockIndex>) returns (r: BlockIndex)
      requires Ancestry(s, vChain) && Skips(s) && pindex in s && nHeight <= pindex.nHeight
      ensures r == Ancestor(s, pindex, nHeight)
    {
      if Contains(pindex) {
        ChainIsAncestry(s, vChain, pindex.nHeight, nHeight);
        r := At(nHeight);
      } else {
        ghost var links;
        r, links := pindex.GetAncestor(nHeight, s);
      }
    }

    /** A locator: the start, ten single steps back, then doubling steps, and last the genesis block. */
    method GetLocator(pindex0: BlockIndex?, ghost s: set<BlockIndex>) returns (vHave: seq<nat>, ghost blocks: seq<BlockIndex>)
      requires Ancestry(s, vChain) && Skips(s) && (pindex0 != null ==> pindex0 in s)
      ensures |vHave| == |blocks| && forall i | 0 <= i < |blocks| :: vHave[i] == blocks[i].hash
      ensures
        var start := if pindex0 == null then Tip() else pindex0;
        if start == null then blocks == [] else LocatorOf(s, start, blocks)
    {
      vHave, blocks := [], [];
      var nStep := 1;
      var pindex := if pindex0 == null then Tip() else pindex0;
      if pindex == null {
        return;
      }
      ghost var start: BlockIndex := pindex;
      if pindex0 == null {
        assert LinkAt(s, vChain, |vChain| - 1);
      }
      while true
        invariant pindex != null && |vHave| == |blocks| && forall i | 0 <= i < |blocks| :: vHave[i] == blocks[i].hash
        invariant start in s && Locating(s, start, blocks, pindex) && nStep == StepAt(|blocks|)
        decreases pindex.nHeight
      {
        LocateOne(s, start, blocks, pindex);
        vHave, blocks := vHave + [pindex.hash], blocks + [pindex];
        if pindex.nHeight == 0 {
          return;
        }
        var nHeight := if pindex.nHeight - nStep > 0 then pindex.nHeight - nStep else 0;
        LocateNext(s, start, blocks, pindex, nHeight);
        pindex := StepBack(pindex, nHeight, s);
        if |vHave| > 10 {
          nStep := nStep * 2;
        }
      }
    }
  }

  /** The blocks listed so far, and the next one. */
  ghost predicate Locating(s: set<BlockIndex>, start: BlockIndex, blocks: seq<BlockIndex>, next: BlockIndex)
    requires Tree(s) && start in s
    reads s`pprev, s`nHeight, next
  {
    && next in s && Located(s, start, |blocks|, next)
    && (forall i {:trigger Located(s, start, i, blocks[i])} | 0 <= i < |blocks| :: Located(s, start, i, blocks[i]) && blocks[i].nHeight > 0)
  }

  ghost predicate Located(s: set<BlockIndex>, start: BlockIndex, i: nat, b: BlockIndex)
    requires Tree(s) && start in s
    reads s`pprev, s`nHeight
  {
    b in s && b.nHeight == LocatorHeight(start.nHeight, i) && b == Ancestor(s, start, b.nHeight)
  }

  /** A finished locator: strictly descending ancestors at the given heights, from the start to the genesis block. */
  ghost predicate LocatorOf(s: set<BlockIndex>, start: BlockIndex, blocks: seq<BlockIndex>)
    requires Tree(s)
    reads s`pprev, s`nHeight
  {
    && start in s && |blocks| > 0
    && (forall i {:trigger Located(s, start, i, blocks[i])} | 0 <= i < |blocks| :: Located(s, start, i, blocks[i]))
    && (forall i | 0 <= i < |blocks| :: blocks[i] in s && (blocks[i].nHeight == 0 <==> i == |blocks| - 1))
  }

  lemma LocateOne(s: set<BlockIndex>, start: BlockIndex, blocks: seq<BlockIndex>, next: BlockIndex)
    requires Tree(s) && start in s && Locating(s, start, blocks, next)
    ensures next.nHeight == 0 ==> LocatorOf(s, start, blocks + [next])
  {
    var all := blocks + [next];
    forall i | 0 <= i < |all| ensures Located(s, start, i, all[i]) && (all[i].nHeight == 0 ==> i == |blocks|) {
      if i < |blocks| {
        assert Located(s, start, i, blocks[i]);
      }
    }
  }

  lemma LocateNext(s: set<BlockIndex>, start: BlockIndex, blocks: seq<BlockIndex>, b: BlockIndex, nHeight: nat)
    requires Tree(s) && start in s && |blocks| > 0 && blocks[|blocks| - 1] == b && Locating(s, start, blocks[..|blocks| - 1], b)
    requires b.nHeight > 0
    requires nHeight == if b.nHeight - StepAt(|blocks| - 1) > 0 then b.nHeight - StepAt(|blocks| - 1) else 0
    ensures nHeight < b.nHeight && Locating(s, start, blocks, Ancestor(s, b, nHeight))
  {
    var n := |blocks| - 1;
    BackStep(n);
    AncestorOfAncestor(s, start, b.nHeight, nHeight);
    forall i | 0 <= i < |blocks| ensures Located(s, start, i, blocks[i]) && blocks[i].nHeight > 0 {
      if i < n {
        assert Located(s, start, i, blocks[..n][i]);
      }
    }
  }

  lemma EntryHeight(s: set<BlockIndex>, start: BlockIndex, blocks: seq<BlockIndex>, i: nat)
    requires Tree(s) && LocatorOf(s, start, blocks) && i < |blocks|
    ensures blocks[i].nHeight == LocatorHeight(start.nHeight, i)
  {
    assert Located(s, start, i, blocks[i]);
  }

  /** A locator has at most 12 + k entries when 2^k reaches the height of its start, and its heights strictly descend. */
  lemma LocatorLength(s: set<BlockIndex>, start: BlockIndex, blocks: seq<BlockIndex>, k: nat)
    requires Tree(s) && LocatorOf(s, start, blocks) && Pow2(k) >= start.nHeight
    ensures |blocks| <= 12 + k
    ensures forall i | 0 < i < |blocks| :: blocks[i].nHeight < blocks[i - 1].nHeight
    ensures blocks[0] == start && blocks[|blocks| - 1].nHeight == 0
  {
    assert Located(s, start, 0, blocks[0]);
    LocatorIsShort(start.nHeight, k);
    if |blocks| > 12 + k {
      EntryHeight(s, start, blocks, 11 + k);
    }
    forall i | 0 < i < |blocks| ensures blocks[i].nHeight < blocks[i - 1].nHeight {
      assert Located(s, start, i - 1, blocks[i - 1]) && Located(s, start, i, blocks[i]);
      LocatorDescends(start.nHeight, i - 1);
    }
  }

  /** `b` is an ancestor of `top`, or there is none left. */
  ghost predicate OnPath(s: set<BlockIndex>, top: BlockIndex, b: BlockIndex?)
    requires Tree(s) && top in s
    reads s`pprev, s`nHeight, b
  {
    b != null ==> b in s && b.nHeight <= top.nHeight && b == Ancestor(s, top, b.nHeight)
  }

  ghost predicate IsCommon(s: set<BlockIndex>, chain: seq<BlockIndex?>, top: BlockIndex, c: BlockIndex)
    requires Tree(s) && top in s
    reads s`pprev, s`nHeight, c
  {
    OnPath(s, top, c) && c.nHeight < |chain| && chain[c.nHeight] == c
  }

  lemma PathDown(s: set<BlockIndex>, top: BlockIndex, b: BlockIndex)
    requires Tree(s) && top in s && OnPath(s, top, b)
    ensures OnPath(s, top, b.pprev)
  {
    if b.pprev != null {
      AncestorOfAncestor(s, top, b.nHeight, b.nHeight - 1);
    }
  }

  lemma NotCommon(s: set<BlockIndex>, chain: seq<BlockIndex?>, top: BlockIndex, b: BlockIndex)
    requires Tree(s) && top in s && OnPath(s, top, b) && !IsCommon(s, chain, top, b)
    ensures forall c | c in s && IsCommon(s, chain, top, c) :: c.nHeight != b.nHeight
  {
  }

  function Resized(chain: seq<BlockIndex?>, size: nat): (r: seq<BlockIndex?>)
    ensures |r| == size && forall i | 0 <= i < size :: r[i] == if i < |chain| then chain[i] else null
  {
    seq(size, i requires 0 <= i => if i < |chain| then chain[i] else null)
  }

  ghost function Above(pindex: BlockIndex?): nat
    reads pindex
  {
    if pindex == null then 0 else pindex.nHeight + 1
  }

  /** In the middle of `SetTip`: above `pindex` the new ancestry, below it what was there before. */
  ghost predicate Replaced(s: set<BlockIndex>, was: seq<BlockIndex?>, chain: seq<BlockIndex?>, pindex: BlockIndex?, tip: BlockIndex)
    requires Tree(s) && tip in s && (pindex != null ==> pindex in s)
    reads s`pprev, s`nHeight, pindex
  {
    var n := Above(pindex);
    && (if n < |chain| then chain[n] != null && chain[n] in s && chain[n].nHeight == n && chain[n].pprev == pindex
                            && chain[|chain| - 1] == tip
        else n == |chain| && pindex == tip)
    && (forall i {:trigger LinkAt(s, chain, i)} | n < i < |chain| :: LinkAt(s, chain, i))
    && (forall i | 0 <= i < n && i < |chain| :: chain[i] == if i < |was| then was[i] else null)
  }

  lemma ReplaceOne(s: set<BlockIndex>, was: seq<BlockIndex?>, chain: seq<BlockIndex?>, pindex: BlockIndex, tip: BlockIndex)
    requires Tree(s) && tip in s && pindex in s && pindex.nHeight < |chain|
    requires Replaced(s, was, chain, pindex, tip)
    ensures Replaced(s, was, chain[pindex.nHeight := pindex], pindex.pprev, tip)
  {
    var n := pindex.nHeight;
    var chain' := chain[n := pindex];
    forall i | n < i < |chain'| ensures LinkAt(s, chain', i) {
      if i > n + 1 {
        assert LinkAt(s, chain, i);
      }
    }
  }

  lemma ReplaceDone(s: set<BlockIndex>, was: seq<BlockIndex?>, chain: seq<BlockIndex?>, pindex: BlockIndex?, tip: BlockIndex)
    requires Ancestry(s, was) && tip in s && (pindex != null ==> pindex in s && pindex.nHeight < |chain|)
    requires Replaced(s, was, chain, pindex, tip) && |chain| > 0
    requires pindex != null ==> chain[pindex.nHeight] == pindex
    ensures Ancestry(s, chain) && chain[|chain| - 1] == tip
  {
    var n := Above(pindex);
    forall i | 0 <= i < |chain| ensures LinkAt(s, chain, i) {
      if i > n {
        assert LinkAt(s, chain, i);
      } else if i < n {
        SameBelow(s, was, chain, n, i);
      }
    }
  }

  /** A block found at its own height in the old chain has its whole ancestry below it there. */
  lemma SameBelow(s: set<BlockIndex>, was: seq<BlockIndex?>, chain: seq<BlockIndex?>, n: nat, i: nat)
    requires Ancestry(s, was) && i < n <= |chain| && chain[n - 1] != null
    requires forall j | 0 <= j < n :: chain[j] == if j < |was| then was[j] else null
    ensures LinkAt(s, chain, i)
  {
    assert n - 1 < |was|;
    assert LinkAt(s, was, i);
    assert chain[i] == was[i] && (i > 0 ==> chain[i - 1] == was[i - 1]);
  }
}
