/** A block under construction as a value: its order, its counters and its limits (src/miner.cpp:394-418). */
module BlockModel {
  import opened Arith
  import opened Mempool
  import opened PackageTotals

  datatype Limits = Limits(nBlockMaxWeight: nat, nBlockMaxSize: nat, nMaxSigOps: nat)

  /** The block without its coinbase; `counted` are the transactions whose serialized size was counted. */
  datatype Block = Block(vtx: seq<Tx>, inBlock: set<Tx>, nBlockWeight: nat, nBlockSize: nat, nBlockSigOpsCost: nat,
                         nBlockTx: nat, counted: set<Tx>)

  /** Space for the coinbase is reserved. */
  const EMPTY_BLOCK := Block([], {}, 4000, 1000, 400, 0, {})

  ghost predicate ValidBlock(p: Pool, b: Block) {
    && Ordered(p, b.vtx) && b.inBlock == Members(b.vtx) && b.nBlockTx == |b.vtx|
    && b.nBlockWeight == 4000 + Sum(p, Weight, b.inBlock)
    && b.nBlockSigOpsCost == 400 + Sum(p, SigOps, b.inBlock)
    && b.counted <= b.inBlock && b.nBlockSize == 1000 + Sum(p, Serialized, b.counted)
  }

  /** Beyond the space reserved for the coinbase, no limit is reached. */
  predicate Within(b: Block, l: Limits) {
    && (b.inBlock != {} ==> b.nBlockWeight < l.nBlockMaxWeight && b.nBlockSigOpsCost < l.nMaxSigOps)
    && (b.counted != {} ==> b.nBlockSize < l.nBlockMaxSize)
  }

  /** `AddToBlock`. */
  function Added(p: Pool, b: Block, t: Tx, fNeedSizeAccounting: bool): Block
    requires t in p
  {
    Block(b.vtx + [t], b.inBlock + {t}, b.nBlockWeight + p[t].nTxWeight,
          if fNeedSizeAccounting then b.nBlockSize + p[t].nSerSize else b.nBlockSize,
          b.nBlockSigOpsCost + p[t].nSigOpCost, b.nBlockTx + 1,
          if fNeedSizeAccounting then b.counted + {t} else b.counted)
  }

  lemma SumAdd(p: Pool, m: Measure, s: set<Tx>, t: Tx)
    requires t !in s
    ensures Sum(p, m, s + {t}) == Sum(p, m, s) + Val(p, m, t)
  {
    SumRemove(p, m, s + {t}, t);
    assert s + {t} - {t} == s;
  }

  lemma AddedValid(p: Pool, b: Block, t: Tx, fNeedSizeAccounting: bool)
    requires ValidBlock(p, b) && t in p && t !in b.inBlock && p[t].ancestors <= b.inBlock
    ensures ValidBlock(p, Added(p, b, t, fNeedSizeAccounting))
  {
    OrderedAppend(p, b.vtx, t);
    SumAdd(p, Weight, b.inBlock, t);
    SumAdd(p, SigOps, b.inBlock, t);
    SumAdd(p, Serialized, b.counted, t);
  }

  function AddedAll(p: Pool, b: Block, ts: seq<Tx>, fNeedSizeAccounting: bool): Block
    requires forall t | t in ts :: t in p
  {
    if ts == [] then b
    else Added(p, AddedAll(p, b, ts[..|ts| - 1], fNeedSizeAccounting), ts[|ts| - 1], fNeedSizeAccounting)
  }

  predicate Before(p: Pool, a: Tx, b: Tx) {
    && a in p && b in p
    && (p[a].nCountWithAncestors < p[b].nCountWithAncestors || (p[a].nCountWithAncestors == p[b].nCountWithAncestors && a <= b))
  }

  /** A package in the order of `SortForBlock`. */
  ghost predicate Sorted(p: Pool, ts: seq<Tx>, package: set<Tx>) {
    && Members(ts) == package && package <= p.Keys
    && (forall i, j | 0 <= i < j < |ts| :: ts[i] != ts[j])
    && (forall i, j | 0 <= i < j < |ts| :: Before(p, ts[i], ts[j]))
  }

  /** In sorted order every transaction's ancestors are already in the block or earlier in the package. */
  lemma NextFits(p: Pool, ts: seq<Tx>, i: nat, base: set<Tx>, package: set<Tx>)
    requires WellFormed(p) && i < |ts| && Sorted(p, ts, package) && package !! base
    requires forall t | t in package :: p[t].ancestors <= base + package
    ensures ts[i] in package && ts[i] !in base + Members(ts[..i])
    ensures p[ts[i]].ancestors <= base + Members(ts[..i])
  {
    var t := ts[i];
    assert t in Members(ts);
    forall a | a in p[t].ancestors && a !in base ensures a in ts[..i] {
      assert a in package;
      assert a in Members(ts);
      var j :| 0 <= j < |ts| && ts[j] == a;
      AncestorCount(p, a, t);
      assert !(i < j && Before(p, ts[i], ts[j]));
    }
  }

  lemma {:induction false} AddedContents(p: Pool, b: Block, ts: seq<Tx>, fNeedSizeAccounting: bool)
    requires forall t | t in ts :: t in p
    ensures
      var r := AddedAll(p, b, ts, fNeedSizeAccounting);
      && r.vtx == b.vtx + ts && r.inBlock == b.inBlock + Members(ts)
      && r.counted == if fNeedSizeAccounting then b.counted + Members(ts) else b.counted
  {
    if ts != [] {
      var init, last := ts[..|ts| - 1], ts[|ts| - 1];
      AddedContents(p, b, init, fNeedSizeAccounting);
      assert ts == init + [last];
      assert b.vtx + init + [last] == b.vtx + (init + [last]);
      assert Members(ts) == Members(init) + {last};
    }
  }

  lemma {:induction false} AddedPrefix(p: Pool, b: Block, ts: seq<Tx>, i: nat, package: set<Tx>, fNeedSizeAccounting: bool)
    requires WellFormed(p) && ValidBlock(p, b) && Sorted(p, ts, package) && package !! b.inBlock && i <= |ts|
    requires forall t | t in package :: p[t].ancestors <= b.inBlock + package
    ensures forall t | t in ts[..i] :: t in p
    ensures ValidBlock(p, AddedAll(p, b, ts[..i], fNeedSizeAccounting))
  {
    forall t | t in ts[..i] ensures t in p { assert t in Members(ts); }
    if i > 0 {
      AddedPrefix(p, b, ts, i - 1, package, fNeedSizeAccounting);
      NextFits(p, ts, i - 1, b.inBlock, package);
      AddedContents(p, b, ts[..i - 1], fNeedSizeAccounting);
      assert ts[..i][..i - 1] == ts[..i - 1];
      AddedValid(p, AddedAll(p, b, ts[..i - 1], fNeedSizeAccounting), ts[i - 1], fNeedSizeAccounting);
    }
  }

  lemma BlockClosed(p: Pool, b: Block)
    requires ValidBlock(p, b)
    ensures b.inBlock <= p.Keys
    ensures forall d | d in b.inBlock && d in p :: p[d].ancestors <= b.inBlock
  {
    forall d | d in b.inBlock && d in p ensures p[d].ancestors <= b.inBlock {
      ClosedUnderAncestors(p, b.vtx, d);
    }
  }

  lemma MissingClosed(p: Pool, b: Block, iter: Tx)
    requires WellFormed(p) && ValidBlock(p, b) && iter in p
    ensures Missing(p, iter, b.inBlock) <= p.Keys
    ensures forall t | t in Missing(p, iter, b.inBlock) :: p[t].ancestors <= b.inBlock + Missing(p, iter, b.inBlock)
  {
    assert EntryOk(p, iter);
    forall t | t in Missing(p, iter, b.inBlock) ensures p[t].ancestors <= b.inBlock + Missing(p, iter, b.inBlock) {
      assert EntryOk(p, t);
    }
  }

  /** A package whose totals cover it and pass `TestPackage` leaves the block valid and within its limits. */
  lemma PackageFits(p: Pool, b: Block, l: Limits, iter: Tx, totals: ModEntry, ts: seq<Tx>, fNeedSizeAccounting: bool)
    requires WellFormed(p) && ValidBlock(p, b) && Within(b, l) && CoveredBy(p, totals, iter, b.inBlock)
    requires b.nBlockWeight + 4 * totals.nSizeWithAncestors < l.nBlockMaxWeight
    requires b.nBlockSigOpsCost + totals.nSigOpCostWithAncestors < l.nMaxSigOps
    requires fNeedSizeAccounting ==> b.nBlockSize + Sum(p, Serialized, Missing(p, iter, b.inBlock)) < l.nBlockMaxSize
    requires Sorted(p, ts, Missing(p, iter, b.inBlock))
    ensures forall t | t in ts :: t in p
    ensures
      var r := AddedAll(p, b, ts, fNeedSizeAccounting);
      var package := Missing(p, iter, b.inBlock);
      && ValidBlock(p, r) && Within(r, l) && r.inBlock == b.inBlock + package && r.vtx == b.vtx + ts
      && r.counted == if fNeedSizeAccounting then b.counted + package else b.counted
  {
    var package := Missing(p, iter, b.inBlock);
    MissingClosed(p, b, iter);
    AddedPrefix(p, b, ts, |ts|, package, fNeedSizeAccounting);
    assert ts[..|ts|] == ts;
    AddedContents(p, b, ts, fNeedSizeAccounting);
    SumUnion(p, Weight, b.inBlock, package);
    SumUnion(p, SigOps, b.inBlock, package);
    SumUnion(p, Serialized, b.counted, package);
    SumWeight(p, package);
  }

  /** A transaction whose parents are all in the block has all its ancestors there. */
  lemma ParentsSuffice(p: Pool, b: Block, t: Tx)
    requires WellFormed(p) && ValidBlock(p, b) && t in p && p[t].parents <= b.inBlock
    ensures p[t].ancestors <= b.inBlock
  {
    assert EntryOk(p, t);
    BlockClosed(p, b);
    forall a | a in p[t].ancestors ensures a in b.inBlock {
      if a !in p[t].parents {
        var q :| q in p[t].parents && q in p && a in p[q].ancestors;
      }
    }
  }

  lemma AddedWithin(p: Pool, b: Block, l: Limits, t: Tx, fNeedSizeAccounting: bool)
    requires t in p && Within(b, l)
    requires b.nBlockWeight + p[t].nTxWeight < l.nBlockMaxWeight && b.nBlockSigOpsCost + p[t].nSigOpCost < l.nMaxSigOps
    requires fNeedSizeAccounting ==> b.nBlockSize + p[t].nSerSize < l.nBlockMaxSize
    ensures Within(Added(p, b, t, fNeedSizeAccounting), l)
  {
  }

  /** What a finished selection guarantees, spelled out. */
  lemma FinishedBlock(p: Pool, b: Block, l: Limits)
    requires WellFormed(p) && ValidBlock(p, b) && Within(b, l)
    ensures forall i, j | 0 <= i < j < |b.vtx| :: b.vtx[i] != b.vtx[j]
    ensures forall i | 0 <= i < |b.vtx| :: b.vtx[i] in p
    ensures forall i, q | 0 <= i < |b.vtx| && q in p[b.vtx[i]].parents :: q in b.vtx[..i]
    ensures b.vtx != [] ==> 4000 + Sum(p, Weight, Members(b.vtx)) < l.nBlockMaxWeight
    ensures b.vtx != [] ==> 400 + Sum(p, SigOps, Members(b.vtx)) < l.nMaxSigOps
    ensures b.vtx != [] && b.counted == b.inBlock ==> 1000 + Sum(p, Serialized, Members(b.vtx)) < l.nBlockMaxSize
  {
    forall i, q | 0 <= i < |b.vtx| && q in p[b.vtx[i]].parents ensures q in b.vtx[..i] {
      assert EntryOk(p, b.vtx[i]);
    }
    if b.vtx != [] {
      assert b.vtx[0] in Members(b.vtx);
    }
  }

  /** Every transaction of the block had its serialized size counted. */
  ghost predicate FullyCounted(b: Block) {
    b.counted == b.inBlock
  }

  /** The block grew at its end, by at least one transaction of the pool. */
  ghost predicate Grown(p: Pool, b: Block, b': Block) {
    b.vtx <= b'.vtx && |p.Keys - b'.inBlock| < |p.Keys - b.inBlock|
  }

  lemma Shrinks(all: set<Tx>, before: set<Tx>, after: set<Tx>, t: Tx)
    requires before <= after && t in all && t !in before && t in after
    ensures |all - after| < |all - before|
  {
    SubsetSize(all - after, all - before - {t});
  }

  /** Adding one transaction that passes the tests of the priority phase. */
  lemma AddedOne(p: Pool, b: Block, l: Limits, t: Tx)
    requires WellFormed(p) && ValidBlock(p, b) && Within(b, l) && FullyCounted(b)
    requires t in p && t !in b.inBlock && p[t].parents <= b.inBlock
    requires b.nBlockWeight + p[t].nTxWeight < l.nBlockMaxWeight && b.nBlockSigOpsCost + p[t].nSigOpCost < l.nMaxSigOps
    requires b.nBlockSize + p[t].nSerSize < l.nBlockMaxSize
    ensures
      var b' := Added(p, b, t, true);
      ValidBlock(p, b') && Within(b', l) && FullyCounted(b') && Grown(p, b, b')
  {
    ParentsSuffice(p, b, t);
    AddedValid(p, b, t, true);
    AddedWithin(p, b, l, t, true);
    Shrinks(p.Keys, b.inBlock, b.inBlock + {t}, t);
  }

  /** The queue, the waiting set and what already left them are apart from each other. */
  ghost predicate Queued(p: Pool, vec: set<Tx>, wait: set<Tx>, gone: set<Tx>) {
    vec <= p.Keys && wait <= p.Keys && vec !! wait && vec !! gone && wait !! gone
  }

  /** One transaction leaves the queue; the children that waited for it come back once it is in the block. */
  method Requeue(p: Pool, vec0: set<Tx>, wait0: set<Tx>, iter: Tx, added: bool, dependent: bool, ghost gone: set<Tx>)
    returns (vec: set<Tx>, wait: set<Tx>)
    requires Queued(p, vec0, wait0, gone) && iter in vec0
    ensures Queued(p, vec, wait, if added then gone + {iter} else gone)
    ensures !added ==> |vec| < |vec0|
    ensures forall c | c in vec0 + wait0 && c != iter :: c in vec + wait
    ensures iter in vec + wait <==> dependent && !added
    ensures added ==> forall c | c in wait :: iter !in p[c].parents
  {
    vec, wait := vec0 - {iter}, wait0;
    if added {
      var ready := set c | c in wait && iter in p[c].parents;
      vec, wait := vec + ready, wait - ready;
    } else if dependent {
      wait := wait + {iter};
    }
  }
}
