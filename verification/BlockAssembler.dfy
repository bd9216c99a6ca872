/**
 * Transaction selection for a new block (src/miner.cpp). Priorities and scores are not modelled:
 * wherever the source compares them, any outcome is possible.
 */
module BlockAssembler {
  import opened Mempool
  import opened PackageTotals
  import opened BlockModel
  import opened Refusals

  class BlockAssembler {
    const pool: Pool
    const fIncludeWitness: bool
    const nBlockMaxWeight: nat
    const nBlockMaxSize: nat
    const nMaxSigOps: nat
    const minFee: int -> int // `blockMinFeeRate.GetFee`
    var fNeedSizeAccounting: bool

    var vtx: seq<Tx>
    var inBlock: set<Tx>
    var nBlockWeight: nat
    var nBlockSize: nat
    var nBlockSigOpsCost: nat
    var nBlockTx: nat
    var lastFewTxs: nat
    var blockFinished: bool
    ghost var counted: set<Tx>

    ghost function Model(): Block
      reads this
    {
      Block(vtx, inBlock, nBlockWeight, nBlockSize, nBlockSigOpsCost, nBlockTx, counted)
    }

    ghost function Bounds(): Limits {
      Limits(nBlockMaxWeight, nBlockMaxSize, nMaxSigOps)
    }

    ghost function Policy(): Rules
      reads this`fNeedSizeAccounting
    {
      Rules(Bounds(), fIncludeWitness, fNeedSizeAccounting)
    }

    ghost predicate Valid()
      reads this
    {
      WellFormed(pool) && ValidBlock(pool, Model()) && Within(Model(), Bounds())
    }

    /** Every transaction of the order that is not in the block was refused while the block was put together. */
    ghost predicate AccountedFor(order: seq<Tx>)
      reads this
    {
      forall t | t in order && t !in inBlock :: LeftOut(pool, Policy(), vtx, t)
    }

    /** `resetBlock`. The limits are any numbers; the source clamps the weight to at least 4000 and the size to at least 1000. */
    constructor (pool: Pool, fIncludeWitness: bool, nBlockMaxWeight: nat, nBlockMaxSize: nat, nMaxSigOps: nat,
                 minFee: int -> int, fNeedSizeAccounting: bool)
      requires WellFormed(pool)
      ensures Valid() && Model() == EMPTY_BLOCK && this.pool == pool && this.fNeedSizeAccounting == fNeedSizeAccounting
      ensures Bounds() == Limits(nBlockMaxWeight, nBlockMaxSize, nMaxSigOps) && this.minFee == minFee
    {
      this.pool, this.fIncludeWitness := pool, fIncludeWitness;
      this.nBlockMaxWeight, this.nBlockMaxSize, this.nMaxSigOps := nBlockMaxWeight, nBlockMaxSize, nMaxSigOps;
      this.minFee, this.fNeedSizeAccounting := minFee, fNeedSizeAccounting;
      vtx, inBlock := [], {};
      nBlockSize, nBlockWeight, nBlockSigOpsCost, nBlockTx := 1000, 4000, 400, 0;
      lastFewTxs, blockFinished := 0, false;
      counted := {};
    }

    method AddToBlock(t: Tx)
      requires t in pool
      modifies this`vtx, this`inBlock, this`nBlockWeight, this`nBlockSize, this`nBlockSigOpsCost, this`nBlockTx, this`counted
      ensures Model() == Added(pool, old(Model()), t, fNeedSizeAccounting)
    {
      vtx := vtx + [t];
      if fNeedSizeAccounting {
        nBlockSize := nBlockSize + pool[t].nSerSize;
        counted := counted + {t};
      }
      nBlockWeight := nBlockWeight + pool[t].nTxWeight;
      nBlockTx := nBlockTx + 1;
      nBlockSigOpsCost := nBlockSigOpsCost + pool[t].nSigOpCost;
      inBlock := inBlock + {t};
    }

    method TestPackage(packageSize: int, packageSigOpsCost: int) returns (r: bool)
      ensures r <==> nBlockWeight + 4 * packageSize < nBlockMaxWeight && nBlockSigOpsCost + packageSigOpsCost < nMaxSigOps
    {
      if nBlockWeight + 4 * packageSize >= nBlockMaxWeight {
        return false;
      }
      if nBlockSigOpsCost + packageSigOpsCost >= nMaxSigOps {
        return false;
      }
      return true;
    }

    /** Transactions in any order; the size check is cumulative. */
    method TestPackageTransactions(package: set<Tx>) returns (r: bool)
      requires package <= pool.Keys
      ensures r <==>
        && (forall t | t in package :: pool[t].fFinal && (fIncludeWitness || !pool[t].fWitness))
        && (fNeedSizeAccounting && package != {} ==> nBlockSize + Sum(pool, Serialized, package) < nBlockMaxSize)
    {
      var nPotentialBlockSize := nBlockSize;
      var rest := package;
      while rest != {}
        invariant rest <= package
        invariant forall t | t in package - rest :: pool[t].fFinal && (fIncludeWitness || !pool[t].fWitness)
        invariant fNeedSizeAccounting ==> nPotentialBlockSize == nBlockSize + Sum(pool, Serialized, package - rest)
        invariant fNeedSizeAccounting && package - rest != {} ==> nPotentialBlockSize < nBlockMaxSize
        decreases rest
      {
        var t :| t in rest;
        if !pool[t].fFinal {
          return false;
        }
        if !fIncludeWitness && pool[t].fWitness {
          return false;
        }
        assert package - (rest - {t}) == (package - rest) + {t};
        SumAdd(pool, Serialized, package - rest, t);
        if fNeedSizeAccounting {
          if nPotentialBlockSize + pool[t].nSerSize >= nBlockMaxSize {
            SumSubset(pool, Serialized, (package - rest) + {t}, package);
            return false;
          }
          nPotentialBlockSize := nPotentialBlockSize + pool[t].nSerSize;
        }
        rest := rest - {t};
      }
      assert package - rest == package;
      return true;
    }

    /** By ancestor count, ties broken by txid: the standard library's sort, as selection. */
    method SortForBlock(package: set<Tx>) returns (sorted: seq<Tx>)
      requires package <= pool.Keys
      ensures Sorted(pool, sorted, package)
    {
      sorted := [];
      var rest := package;
      while rest != {}
        invariant rest <= package && Members(sorted) == package - rest
        invariant forall i, j | 0 <= i < j < |sorted| :: sorted[i] != sorted[j]
        invariant forall i, j | 0 <= i < j < |sorted| :: Before(pool, sorted[i], sorted[j])
        invariant forall i, t | 0 <= i < |sorted| && t in rest :: Before(pool, sorted[i], t)
        decreases rest
      {
        var t := First(pool, rest);
        assert t !in sorted by { assert t !in Members(sorted); }
        assert Members(sorted + [t]) == Members(sorted) + {t};
        sorted := sorted + [t];
        rest := rest - {t};
      }
    }

    /** Add a sorted package and take it out of the table. */
    method AddPackage(sorted: seq<Tx>, mod0: ModMap) returns (mod: ModMap)
      requires forall t | t in sorted :: t in pool
      modifies this`vtx, this`inBlock, this`nBlockWeight, this`nBlockSize, this`nBlockSigOpsCost, this`nBlockTx, this`counted
      ensures Model() == AddedAll(pool, old(Model()), sorted, fNeedSizeAccounting)
      ensures mod == mod0 - Members(sorted)
    {
      mod := mod0;
      for i := 0 to |sorted|
        invariant Model() == AddedAll(pool, old(Model()), sorted[..i], fNeedSizeAccounting)
        invariant mod == mod0 - Members(sorted[..i])
      {
        AddToBlock(sorted[i]);
        mod := mod - {sorted[i]};
        assert sorted[..i + 1][..i] == sorted[..i];
        assert Members(sorted[..i + 1]) == Members(sorted[..i]) + {sorted[i]};
      }
      assert sorted[..|sorted|] == sorted;
    }

    /** Descendants in any order. */
    method UpdateDescendants(it: Tx, added: set<Tx>, mod0: ModMap) returns (mod: ModMap)
      requires it in pool
      ensures mod == UpdateAll(pool, mod0, it, Descendants(pool, it) - added)
    {
      mod := mod0;
      var rest := Descendants(pool, it);
      ghost var done := {};
      while rest != {}
        invariant done + rest == Descendants(pool, it) && done !! rest
        invariant mod == UpdateAll(pool, mod0, it, done - added)
        decreases rest
      {
        var d :| d in rest;
        if d !in added {
          UpdateOne(pool, mod0, it, done - added, d);
          if d !in mod {
            mod := mod[d := Without(PoolTotals(pool, d), pool, it, pool[it].nFee + pool[it].feeDelta)];
          } else {
            mod := mod[d := Without(mod[d], pool, it, pool[it].nFee)];
          }
          assert done + {d} - added == (done - added) + {d};
        } else {
          assert done + {d} - added == done - added;
        }
        rest, done := rest - {d}, done + {d};
      }
    }

    /** `base` is what was in the block before `added`; entries of `out` may have missed some of it. */
    method UpdatePackagesForAdded(added: set<Tx>, mod0: ModMap, ghost hist0: map<Tx, History>, ghost base: set<Tx>, ghost out: set<Tx>)
        returns (mod: ModMap, ghost hist: map<Tx, History>)
      requires WellFormed(pool) && added <= pool.Keys && base !! added
      requires forall d | d in base && d in pool :: pool[d].ancestors <= base
      requires Covers(pool, mod0, base) && mod0.Keys !! added
      requires Recorded(pool, mod0, hist0, base, out) && base + added <= out
      ensures Covers(pool, mod, base + added) && Recorded(pool, mod, hist, base + added, out) && mod0.Keys <= mod.Keys
    {
      mod, hist := mod0, hist0;
      var rest := added;
      ghost var done := base;
      while rest != {}
        invariant rest <= added && done == base + (added - rest)
        invariant Covers(pool, mod, done) && mod.Keys !! added
        invariant Recorded(pool, mod, hist, done, out) && mod0.Keys <= mod.Keys
        decreases rest
      {
        var it :| it in rest;
        ghost var ds := Descendants(pool, it) - added;
        forall d | d in ds ensures d !in done {
          assert d in base ==> it in base;
        }
        UpdateCovers(pool, mod, it, ds, done, added);
        UpdateRecorded(pool, mod, hist, it, ds, done, added, out);
        hist := HistoryAll(mod, hist, it, ds);
        mod := UpdateDescendants(it, added, mod);
        rest, done := rest - {it}, done + {it};
      }
      assert base + (added - rest) == base + added;
    }

    method SkipMapTxEntry(t: Tx, mod: ModMap, failedTx: set<Tx>) returns (r: bool)
      ensures r <==> t in mod || t in inBlock || t in failedTx
    {
      r := t in mod || t in inBlock || t in failedTx;
    }

    /** Put the package of `iter` into the block: it fits, because its totals cover it. */
    method Include(iter: Tx, ancestors: set<Tx>, ghost totals: ModEntry, mod0: ModMap, ghost hist0: map<Tx, History>,
                   ghost refused: set<Tx>) returns (mod: ModMap, ghost hist: map<Tx, History>)
      requires Valid() && Covers(pool, mod0, inBlock) && CoveredBy(pool, totals, iter, inBlock)
      requires Recorded(pool, mod0, hist0, inBlock, inBlock + refused)
      requires ancestors == Missing(pool, iter, inBlock)
      requires nBlockWeight + 4 * totals.nSizeWithAncestors < nBlockMaxWeight
      requires nBlockSigOpsCost + totals.nSigOpCostWithAncestors < nMaxSigOps
      requires fNeedSizeAccounting ==> nBlockSize + Sum(pool, Serialized, ancestors) < nBlockMaxSize
      modifies this`vtx, this`inBlock, this`nBlockWeight, this`nBlockSize, this`nBlockSigOpsCost, this`nBlockTx, this`counted
      ensures Valid() && Covers(pool, mod, inBlock)
      ensures inBlock == old(inBlock) + ancestors && old(vtx) <= vtx
      ensures counted == if fNeedSizeAccounting then old(counted) + ancestors else old(counted)
      ensures Recorded(pool, mod, hist, inBlock, inBlock + refused) && mod0.Keys <= mod.Keys + inBlock
    {
      ghost var b := Model();
      MissingClosed(pool, b, iter);
      BlockClosed(pool, b);
      var sorted := SortForBlock(ancestors);
      PackageFits(pool, b, Bounds(), iter, totals, sorted, fNeedSizeAccounting);
      mod := AddPackage(sorted, mod0);
      EraseCovers(pool, mod0, ancestors, b.inBlock);
      ghost var out := inBlock + refused;
      EraseRecorded(pool, mod0, hist0, ancestors, b.inBlock, b.inBlock + refused, out);
      mod, hist := UpdatePackagesForAdded(ancestors, mod, hist0, b.inBlock, out);
    }

    /** The best modified entry or the next of the pool, whichever scores higher; and its totals. */
    method Choose(order: seq<Tx>, mi0: nat, mod: ModMap, ghost g: Progress)
        returns (iter: Tx, totals: ModEntry, fUsingModified: bool, mi: nat)
      requires Valid() && Covers(pool, mod, inBlock) && g.mod == mod && g.mi == mi0 <= |order| && (mi0 < |order| || mod != map[])
      requires mi0 < |order| ==> order[mi0] in pool && order[mi0] !in inBlock && order[mi0] !in mod && order[mi0] !in g.failedTx
      ensures Candidate(pool, Model(), g, order, iter, totals) && CoveredBy(pool, totals, iter, inBlock)
      ensures fUsingModified <==> iter in mod
      ensures mi == if fUsingModified then mi0 else mi0 + 1
    {
      fUsingModified, mi := false, mi0;
      if mi == |order| {
        iter :| iter in mod;
        fUsingModified := true;
      } else {
        iter := order[mi];
        var better := Better(mod);
        if better {
          iter :| iter in mod;
          fUsingModified := true;
        } else {
          mi := mi + 1;
        }
      }
      if fUsingModified {
        assert CoveredBy(pool, mod[iter], iter, inBlock);
        totals := mod[iter];
      } else {
        PoolCovers(pool, iter, inBlock);
        totals := PoolTotals(pool, iter);
      }
    }

    /** Both tests on the package of `iter`. */
    method TestBoth(iter: Tx, totals: ModEntry) returns (fits: bool, passes: bool)
      requires Valid() && CoveredBy(pool, totals, iter, inBlock)
      ensures passes ==>
        && fits && nBlockWeight + 4 * totals.nSizeWithAncestors < nBlockMaxWeight
        && nBlockSigOpsCost + totals.nSigOpCostWithAncestors < nMaxSigOps
        && (fNeedSizeAccounting ==> nBlockSize + Sum(pool, Serialized, Missing(pool, iter, inBlock)) < nBlockMaxSize)
      ensures !passes && SizeExact(pool, iter, inBlock, totals) ==> Refused(pool, Policy(), inBlock, iter)
    {
      passes := false;
      fits := TestPackage(totals.nSizeWithAncestors, totals.nSigOpCostWithAncestors);
      if fits {
        var ancestors := pool[iter].ancestors - inBlock + {iter};
        MissingClosed(pool, Model(), iter);
        assert ancestors == Missing(pool, iter, inBlock);
        passes := TestPackageTransactions(ancestors);
      }
      if !passes && SizeExact(pool, iter, inBlock, totals) {
        TestsRefuse(pool, Policy(), Model(), iter, totals);
      }
    }

    /** Test the package of `iter` and add it if it passes; a modified entry that fails is set aside. */
    method Consider(iter: Tx, totals: ModEntry, fUsingModified: bool, mod0: ModMap, failedTx0: set<Tx>,
                    ghost g0: Progress, ghost order: seq<Tx>, ghost full: bool)
        returns (mod: ModMap, failedTx: set<Tx>, ghost g: Progress, fits: bool, added: bool)
      requires Valid() && Covers(pool, mod0, inBlock) && CoveredBy(pool, totals, iter, inBlock) && Distinct(order)
      requires Tracked(pool, Policy(), Model(), g0, order) && Candidate(pool, Model(), g0, order, iter, totals)
      requires g0.mod == mod0 && g0.failedTx == failedTx0 && (fUsingModified <==> iter in mod0)
      requires full ==> fNeedSizeAccounting && FullyCounted(Model())
      modifies this`vtx, this`inBlock, this`nBlockWeight, this`nBlockSize, this`nBlockSigOpsCost, this`nBlockTx, this`counted
      ensures Valid() && Covers(pool, mod, inBlock) && (full ==> FullyCounted(Model()))
      ensures Tracked(pool, Policy(), Model(), g, order) && g.mod == mod && g.failedTx == failedTx
      ensures if added then fits && inBlock == old(inBlock) + Missing(pool, iter, old(inBlock)) && old(vtx) <= vtx && g.mi == g0.mi && g.tooBig == {}
              else Model() == old(Model()) && g == AfterRefusal(g0, iter, fits)
    {
      mod, failedTx := mod0, failedTx0;
      CandidateExact(pool, Policy(), Model(), g0, order, iter, totals);
      fits, added := TestBoth(iter, totals);
      if added {
        ghost var b, hist := Model(), g0.hist;
        mod, hist := Include(iter, Missing(pool, iter, inBlock), totals, mod, hist, g0.refused);
        g := g0.(mod := mod, hist := hist, tooBig := {});
        AddedTracked(pool, Policy(), b, Model(), g0, g, order);
      } else {
        if fUsingModified {
          EraseCovers(pool, mod, {iter}, inBlock);
          mod := mod - {iter};
          failedTx := failedTx + {iter};
        }
        g := AfterRefusal(g0, iter, fits);
        RefusedOne(pool, Policy(), Model(), g0, order, iter, totals, fits);
      }
    }

    /** The same with the walk over the pool at `mi`, past the candidate if that is where it came from. */
    method Attempt(iter: Tx, totals: ModEntry, fUsingModified: bool, mod0: ModMap, failedTx0: set<Tx>,
                   ghost g0: Progress, ghost order: seq<Tx>, ghost mi: nat, ghost full: bool)
        returns (mod: ModMap, failedTx: set<Tx>, ghost g: Progress, fits: bool, added: bool)
      requires Valid() && Covers(pool, mod0, inBlock) && CoveredBy(pool, totals, iter, inBlock) && Distinct(order)
      requires Tracked(pool, Policy(), Model(), g0, order) && Candidate(pool, Model(), g0, order, iter, totals)
      requires g0.mod == mod0 && g0.failedTx == failedTx0 && (fUsingModified <==> iter in mod0)
      requires mi == if fUsingModified then g0.mi else g0.mi + 1
      requires full ==> fNeedSizeAccounting && FullyCounted(Model())
      modifies this`vtx, this`inBlock, this`nBlockWeight, this`nBlockSize, this`nBlockSigOpsCost, this`nBlockTx, this`counted
      ensures Valid() && Covers(pool, mod, inBlock) && (full ==> FullyCounted(Model()))
      ensures if added then Grown(pool, old(Model()), Model()) else Model() == old(Model())
      ensures Tracked(pool, Policy(), Model(), g, order) && At(g, mi, mod, failedTx)
      ensures |g.tooBig| == if added then 0 else if fits then |g0.tooBig| else |g0.tooBig| + 1
      ensures !added ==> |mod| == if fUsingModified then |mod0| - 1 else |mod0|
    {
      NotTriedYet(pool, Policy(), Model(), g0, order, iter, totals);
      RefusalCounts(g0, iter, true);
      RefusalCounts(g0, iter, false);
      mod, failedTx, g, fits, added := Consider(iter, totals, fUsingModified, mod0, failedTx0, g0, order, full);
      if added {
        Shrinks(pool.Keys, old(inBlock), inBlock, iter);
        if !fUsingModified {
          Passed(pool, Policy(), Model(), g, order);
          g := g.(mi := mi);
        }
      }
    }

    /** A turn that does not skip: choose a package, and test it if it pays enough. */
    method Evaluate(order: seq<Tx>, mi0: nat, mod0: ModMap, failedTx0: set<Tx>, ghost g0: Progress, ghost full: bool)
        returns (mi: nat, mod: ModMap, failedTx: set<Tx>, ghost g: Progress, unpaid: bool, fits: bool, added: bool, ghost why: Ending)
      requires Valid() && Covers(pool, mod0, inBlock) && mi0 <= |order| && (mi0 < |order| || mod0 != map[]) && Distinct(order)
      requires Tracked(pool, Policy(), Model(), g0, order) && At(g0, mi0, mod0, failedTx0)
      requires mi0 < |order| ==> order[mi0] in pool && order[mi0] !in inBlock && order[mi0] !in mod0 && order[mi0] !in failedTx0
      requires full ==> fNeedSizeAccounting && FullyCounted(Model())
      modifies this`vtx, this`inBlock, this`nBlockWeight, this`nBlockSize, this`nBlockSigOpsCost, this`nBlockTx, this`counted
      ensures Valid() && Covers(pool, mod, inBlock) && mi <= |order| && (full ==> FullyCounted(Model()))
      ensures if added then Grown(pool, old(Model()), Model()) else Model() == old(Model())
      ensures Tracked(pool, Policy(), Model(), g, order)
      ensures if unpaid then Ended(pool, Policy(), minFee, Model(), g, order, why) && !added
              else why == Exhausted && At(g, mi, mod, failedTx) && |g.tooBig| == if added then 0 else if fits then |g0.tooBig| else |g0.tooBig| + 1
      ensures !unpaid && !added ==> |order| - mi + |mod| < |order| - mi0 + |mod0|
    {
      var iter, totals, fUsingModified;
      iter, totals, fUsingModified, mi := Choose(order, mi0, mod0, g0);
      assert iter !in inBlock;
      unpaid, why := totals.nModFeesWithAncestors < minFee(totals.nSizeWithAncestors), Exhausted;
      if unpaid {
        mod, failedTx, g, fits, added, why := mod0, failedTx0, g0, false, false, Unpaid(iter, totals);
        return;
      }
      mod, failedTx, g, fits, added := Attempt(iter, totals, fUsingModified, mod0, failedTx0, g0, order, mi, full);
    }

    /** One turn of the selection loop: something is added, or one candidate fewer is left. */
    method Round(order: seq<Tx>, mi0: nat, mod0: ModMap, failedTx0: set<Tx>, nFailed0: nat, ghost g0: Progress, ghost full: bool)
        returns (mi: nat, mod: ModMap, failedTx: set<Tx>, nFailed: nat, stop: bool, ghost g: Progress, ghost why: Ending)
      requires Valid() && Covers(pool, mod0, inBlock) && mi0 <= |order| && (mi0 < |order| || mod0 != map[]) && Distinct(order)
      requires Tracked(pool, Policy(), Model(), g0, order) && At(g0, mi0, mod0, failedTx0) && nFailed0 == |g0.tooBig|
      requires (forall t | t in order :: t in pool) && (full ==> fNeedSizeAccounting && FullyCounted(Model()))
      modifies this`vtx, this`inBlock, this`nBlockWeight, this`nBlockSize, this`nBlockSigOpsCost, this`nBlockTx, this`counted
      ensures Valid() && Covers(pool, mod, inBlock) && mi <= |order| && (full ==> FullyCounted(Model()))
      ensures Grown(pool, old(Model()), Model()) || (Model() == old(Model()) && (|order| - mi + |mod| < |order| - mi0 + |mod0| || stop))
      ensures Tracked(pool, Policy(), Model(), g, order)
      ensures if stop then Ended(pool, Policy(), minFee, Model(), g, order, why)
              else why == Exhausted && At(g, mi, mod, failedTx) && nFailed == |g.tooBig|
    {
      mi, mod, failedTx, nFailed, stop, g, why := mi0, mod0, failedTx0, nFailed0, false, g0, Exhausted;
      if mi < |order| {
        var skip := SkipMapTxEntry(order[mi], mod, failedTx);
        if skip {
          Passed(pool, Policy(), Model(), g, order);
          mi := mi + 1;
          g := g.(mi := mi);
          return;
        }
      }
      var fits, added;
      mi, mod, failedTx, g, stop, fits, added, why := Evaluate(order, mi, mod, failedTx, g, full);
      if added {
        nFailed := 0;
      } else if !stop && !fits {
        nFailed := nFailed + 1;
        if nFailed > 1000 && nBlockWeight > nBlockMaxWeight - 4000 {
          stop, why := true, NearlyFull;
        }
      }
    }

    /** Ends with the last state of the loop and the reason. */
    method SelectFrom(order: seq<Tx>, mod0: ModMap, ghost hist: map<Tx, History>, ghost full: bool)
        returns (ghost g: Progress, ghost why: Ending)
      requires Valid() && Covers(pool, mod0, inBlock) && Recorded(pool, mod0, hist, inBlock, inBlock)
      requires Distinct(order) && (forall t | t in order :: t in pool) && (full ==> fNeedSizeAccounting && FullyCounted(Model()))
      modifies this`vtx, this`inBlock, this`nBlockWeight, this`nBlockSize, this`nBlockSigOpsCost, this`nBlockTx, this`counted
      ensures Valid() && old(vtx) <= vtx && (full ==> FullyCounted(Model()))
      ensures Tracked(pool, Policy(), Model(), g, order) && Ended(pool, Policy(), minFee, Model(), g, order, why)
    {
      ghost var was := vtx;
      var mod, failedTx, mi: nat, nConsecutiveFailed: nat, stop := mod0, {}, 0, 0, false;
      g, why := Progress(mod0, {}, 0, {}, hist, {}), Exhausted;
      NothingPassed(pool, Policy(), Model(), mod, hist, order);
      while !stop && (mi < |order| || mod != map[])
        invariant Valid() && Covers(pool, mod, inBlock) && mi <= |order| && was <= vtx && (full ==> FullyCounted(Model()))
        invariant Tracked(pool, Policy(), Model(), g, order)
        invariant stop ==> Ended(pool, Policy(), minFee, Model(), g, order, why)
        invariant !stop ==> why == Exhausted && At(g, mi, mod, failedTx) && nConsecutiveFailed == |g.tooBig|
        decreases !stop, |pool.Keys - inBlock|, |order| - mi + |mod|
      {
        mi, mod, failedTx, nConsecutiveFailed, stop, g, why := Round(order, mi, mod, failedTx, nConsecutiveFailed, g, full);
      }
    }

    /** `order` is the pool in ancestor score order. */
    method AddPackageTxs(order: seq<Tx>) returns (ghost g: Progress, ghost why: Ending)
      requires Valid() && Distinct(order) && forall t | t in order :: t in pool
      modifies this`vtx, this`inBlock, this`nBlockWeight, this`nBlockSize, this`nBlockSigOpsCost, this`nBlockTx, this`counted
      ensures Valid() && old(vtx) <= vtx
      ensures fNeedSizeAccounting && old(FullyCounted(Model())) ==> FullyCounted(Model())
      ensures Tracked(pool, Policy(), Model(), g, order) && Ended(pool, Policy(), minFee, Model(), g, order, why)
      ensures why.Exhausted? ==> AccountedFor(order)
    {
      BlockClosed(pool, Model());
      var mod;
      ghost var hist;
      mod, hist := UpdatePackagesForAdded(inBlock, map[], map[], {}, inBlock);
      assert {} + inBlock == inBlock;
      g, why := SelectFrom(order, mod, hist, fNeedSizeAccounting && FullyCounted(Model()));
      if why.Exhausted? {
        AllPassed(pool, Policy(), Model(), g, order);
      }
    }

    /** Parents in any order. */
    method IsStillDependent(t: Tx) returns (r: bool)
      requires t in pool
      ensures r <==> !(pool[t].parents <= inBlock)
    {
      var rest := pool[t].parents;
      while rest != {}
        invariant rest <= pool[t].parents && pool[t].parents - rest <= inBlock
        decreases rest
      {
        var q :| q in rest;
        if q !in inBlock {
          return true;
        }
        rest := rest - {q};
      }
      return false;
    }

    /** The last few transactions before the block counts as full are limited. */
    method TestForBlock(t: Tx) returns (r: bool)
      requires t in pool
      modifies this`lastFewTxs, this`blockFinished
      ensures r <==>
        && nBlockWeight + pool[t].nTxWeight < nBlockMaxWeight
        && (fNeedSizeAccounting ==> nBlockSize + pool[t].nSerSize < nBlockMaxSize)
        && nBlockSigOpsCost + pool[t].nSigOpCost < nMaxSigOps
        && pool[t].fFinal
      ensures r ==> lastFewTxs == old(lastFewTxs) && blockFinished == old(blockFinished)
      ensures blockFinished && !old(blockFinished) ==>
        || nBlockWeight > nBlockMaxWeight - 400
        || (fNeedSizeAccounting && nBlockSize > nBlockMaxSize - 100)
        || nBlockSigOpsCost > nMaxSigOps - 8
        || lastFewTxs > 50
    {
      if nBlockWeight + pool[t].nTxWeight >= nBlockMaxWeight {
        if nBlockWeight > nBlockMaxWeight - 400 || lastFewTxs > 50 {
          blockFinished := true;
          return false;
        }
        if nBlockWeight > nBlockMaxWeight - 4000 {
          lastFewTxs := lastFewTxs + 1;
        }
        return false;
      }
      if fNeedSizeAccounting {
        if nBlockSize + pool[t].nSerSize >= nBlockMaxSize {
          if nBlockSize > nBlockMaxSize - 100 || lastFewTxs > 50 {
            blockFinished := true;
            return false;
          }
          if nBlockSize > nBlockMaxSize - 1000 {
            lastFewTxs := lastFewTxs + 1;
          }
          return false;
        }
      }
      if nBlockSigOpsCost + pool[t].nSigOpCost >= nMaxSigOps {
        if nBlockSigOpsCost > nMaxSigOps - 8 {
          blockFinished := true;
        }
        return false;
      }
      return pool[t].fFinal;
    }

    method AddIfFits(iter: Tx) returns (added: bool)
      requires Valid() && FullyCounted(Model()) && fNeedSizeAccounting && iter in pool && iter !in inBlock && pool[iter].parents <= inBlock
      modifies this`vtx, this`inBlock, this`nBlockWeight, this`nBlockSize, this`nBlockSigOpsCost, this`nBlockTx, this`counted
      modifies this`lastFewTxs, this`blockFinished
      ensures Valid() && FullyCounted(Model())
      ensures if added then inBlock == old(inBlock) + {iter} && Grown(pool, old(Model()), Model()) else Model() == old(Model())
    {
      ghost var b := Model();
      added := TestForBlock(iter);
      assert Model() == b;
      if added {
        AddedOne(pool, b, Bounds(), iter);
        AddToBlock(iter);
        assert Model() == Added(pool, b, iter, true);
      }
    }

    /** One transaction off the priority queue; it is added only if all its parents are in and it fits. */
    method TryPriority(iter: Tx) returns (added: bool, dependent: bool)
      requires Valid() && FullyCounted(Model()) && fNeedSizeAccounting && iter in pool && iter !in inBlock
      modifies this`vtx, this`inBlock, this`nBlockWeight, this`nBlockSize, this`nBlockSigOpsCost, this`nBlockTx, this`counted
      modifies this`lastFewTxs, this`blockFinished
      ensures Valid() && FullyCounted(Model())
      ensures added ==> inBlock == old(inBlock) + {iter} && Grown(pool, old(Model()), Model())
      ensures !added ==> Model() == old(Model())
    {
      added, dependent := false, false;
      if !fIncludeWitness && pool[iter].fWitness {
        return;
      }
      dependent := IsStillDependent(iter);
      if dependent {
        return;
      }
      added := AddIfFits(iter);
    }

    method PriorityLoop(nBlockPrioritySize: nat)
      requires Valid() && FullyCounted(Model()) && fNeedSizeAccounting && inBlock == {}
      modifies this`vtx, this`inBlock, this`nBlockWeight, this`nBlockSize, this`nBlockSigOpsCost, this`nBlockTx, this`counted
      modifies this`lastFewTxs, this`blockFinished
      ensures Valid() && FullyCounted(Model())
    {
      var vec, wait: set<Tx> := pool.Keys, {};
      while vec != {} && !blockFinished
        invariant Valid() && FullyCounted(Model()) && Queued(pool, vec, wait, inBlock)
        decreases |pool.Keys - inBlock|, |vec|
      {
        var iter :| iter in vec;
        ghost var before := inBlock;
        var added, dependent := TryPriority(iter);
        var unpaid := *; // whether the priority dropped below the free threshold
        if added && (nBlockSize >= nBlockPrioritySize || unpaid) {
          break;
        }
        vec, wait := Requeue(pool, vec, wait, iter, added, dependent, before);
      }
    }

    method AddPriorityTxs(nBlockPrioritySize: nat)
      requires Valid() && FullyCounted(Model()) && inBlock == {}
      modifies this
      ensures Valid() && FullyCounted(Model()) && fNeedSizeAccounting == old(fNeedSizeAccounting)
    {
      if nBlockPrioritySize == 0 {
        return;
      }
      var fSizeAccounting := fNeedSizeAccounting;
      fNeedSizeAccounting := true;
      PriorityLoop(nBlockPrioritySize);
      fNeedSizeAccounting := fSizeAccounting;
    }

    /** The selection part of `CreateNewBlock`: with `order` the pool, everything left out was refused unless it ended early. */
    method SelectTransactions(nBlockPrioritySize: nat, order: seq<Tx>) returns (ghost g: Progress, ghost why: Ending)
      requires Valid() && Model() == EMPTY_BLOCK && Distinct(order) && forall t | t in order :: t in pool
      modifies this
      ensures Valid() && (fNeedSizeAccounting ==> FullyCounted(Model()))
      ensures fNeedSizeAccounting == old(fNeedSizeAccounting)
      ensures Tracked(pool, Policy(), Model(), g, order) && Ended(pool, Policy(), minFee, Model(), g, order, why)
      ensures why.Exhausted? ==> AccountedFor(order)
    {
      AddPriorityTxs(nBlockPrioritySize);
      g, why := AddPackageTxs(order);
    }
  }

  /** The outcome of comparing scores, which are not modelled. */
  method Better(mod: ModMap) returns (r: bool)
    ensures r ==> mod != map[]
  {
    if * {
      return mod != map[];
    }
    return false;
  }

  lemma UpdateOne(p: Pool, mod: ModMap, it: Tx, ds: set<Tx>, d: Tx)
    requires it in p && d in p && d !in ds && forall x | x in ds :: x in p
    ensures
      var m := UpdateAll(p, mod, it, ds);
      && (d in m <==> d in mod) && (d in mod ==> m[d] == mod[d])
      && UpdateAll(p, mod, it, ds + {d}) == m[d := Updated(p, mod, it, d)]
  {
    var m := UpdateAll(p, mod, it, ds);
    var m1, m2 := UpdateAll(p, mod, it, ds + {d}), m[d := Updated(p, mod, it, d)];
    forall t ensures t in m1 <==> t in m2 {}
    forall t | t in m1 ensures m1[t] == m2[t] {}
    assert m1 == m2;
  }

  /** A least element of the order. */
  method First(p: Pool, s: set<Tx>) returns (t: Tx)
    requires s != {} && s <= p.Keys
    ensures t in s && forall u | u in s :: Before(p, t, u)
  {
    t :| t in s;
    var rest := s - {t};
    while rest != {}
      invariant t in s && rest <= s && forall u | u in s && u !in rest :: Before(p, t, u)
      decreases rest
    {
      var u :| u in rest;
      if !Before(p, t, u) {
        forall x | x in s && x !in rest ensures Before(p, u, x) {
          assert Before(p, t, x);
        }
        t := u;
      }
      rest := rest - {u};
    }
  }
}
