/** The side table `mapModifiedTx` of package totals that are partly up to date (src/miner.cpp:420-446). */
module PackageTotals {
  import opened Mempool

  /** `CTxMemPoolModifiedEntry`. */
  datatype ModEntry = ModEntry(nSizeWithAncestors: int, nModFeesWithAncestors: int, nSigOpCostWithAncestors: int)

  type ModMap = map<Tx, ModEntry>

  /** The totals are at least what the transaction still needs on top of `done`, and it is not done itself. */
  ghost predicate CoveredBy(p: Pool, e: ModEntry, t: Tx, done: set<Tx>) {
    && t in p && t !in done
    && e.nSizeWithAncestors >= Sum(p, Size, Missing(p, t, done))
    && e.nSigOpCostWithAncestors >= Sum(p, SigOps, Missing(p, t, done))
  }

  ghost predicate Covers(p: Pool, mod: ModMap, done: set<Tx>) {
    forall t {:trigger CoveredBy(p, mod[t], t, done)} | t in mod :: CoveredBy(p, mod[t], t, done)
  }

  /** `CTxMemPoolModifiedEntry(desc)`: the totals cached in the pool. */
  function PoolTotals(p: Pool, t: Tx): ModEntry
    requires t in p
  {
    ModEntry(p[t].nSizeWithAncestors, p[t].nModFeesWithAncestors, p[t].nSigOpCostWithAncestors)
  }

  /** An included ancestor is taken off. What it paid is up to the caller. */
  function Without(e: ModEntry, p: Pool, it: Tx, fee: int): ModEntry
    requires it in p
  {
    ModEntry(e.nSizeWithAncestors - p[it].nTxSize, e.nModFeesWithAncestors - fee, e.nSigOpCostWithAncestors - p[it].nSigOpCost)
  }

  function Descendants(p: Pool, it: Tx): set<Tx>
    requires it in p
  {
    (set d | d in p && it in p[d].ancestors) + {it}
  }

  /** An entry of the table loses the fee (`update_for_parent_inclusion`), one that is inserted loses the modified fee. */
  function Updated(p: Pool, mod: ModMap, it: Tx, d: Tx): ModEntry
    requires it in p && d in p
  {
    if d in mod then Without(mod[d], p, it, p[it].nFee) else Without(PoolTotals(p, d), p, it, p[it].nFee + p[it].feeDelta)
  }

  /** The table after the descendants `ds` of `it` have been updated. */
  function UpdateAll(p: Pool, mod: ModMap, it: Tx, ds: set<Tx>): ModMap
    requires it in p && forall d | d in ds :: d in p
  {
    map t | t in mod.Keys + ds :: if t in ds then Updated(p, mod, it, t) else mod[t]
  }

  /** The pool's own totals always cover. */
  lemma PoolCovers(p: Pool, t: Tx, done: set<Tx>)
    requires WellFormed(p) && t in p && t !in done
    ensures CoveredBy(p, PoolTotals(p, t), t, done)
  {
    assert EntryOk(p, t);
    SumSubset(p, Size, Missing(p, t, done), Package(p, t));
    SumSubset(p, SigOps, Missing(p, t, done), Package(p, t));
  }

  /** Subtracting an included ancestor keeps the totals covering. */
  lemma WithoutCovers(p: Pool, e: ModEntry, t: Tx, done: set<Tx>, it: Tx, fee: int)
    requires WellFormed(p) && CoveredBy(p, e, t, done) && it in p && it in p[t].ancestors && it !in done
    ensures CoveredBy(p, Without(e, p, it, fee), t, done + {it})
  {
    assert EntryOk(p, t);
    assert Missing(p, t, done + {it}) == Missing(p, t, done) - {it};
    SumRemove(p, Size, Missing(p, t, done), it);
    SumRemove(p, SigOps, Missing(p, t, done), it);
  }

  /** A transaction that does not descend from `it` needs what it needed before. */
  lemma UnrelatedCovers(p: Pool, e: ModEntry, t: Tx, done: set<Tx>, it: Tx)
    requires CoveredBy(p, e, t, done) && it !in p[t].ancestors && it != t
    ensures CoveredBy(p, e, t, done + {it})
  {
    assert Missing(p, t, done + {it}) == Missing(p, t, done);
  }

  /** Including `it`: its descendants outside `added` are updated, everything else stays covered. */
  lemma UpdateCovers(p: Pool, mod: ModMap, it: Tx, ds: set<Tx>, done: set<Tx>, added: set<Tx>)
    requires WellFormed(p) && Covers(p, mod, done) && it in p && it !in done
    requires ds == Descendants(p, it) - added && it in added
    requires mod.Keys !! added && ds !! done
    ensures Covers(p, UpdateAll(p, mod, it, ds), done + {it})
    ensures UpdateAll(p, mod, it, ds).Keys !! added
  {
    var mod' := UpdateAll(p, mod, it, ds);
    forall t | t in mod' ensures CoveredBy(p, mod'[t], t, done + {it}) {
      if t in ds {
        if t in mod {
          assert CoveredBy(p, mod[t], t, done);
        } else {
          PoolCovers(p, t, done);
        }
        WithoutCovers(p, if t in mod then mod[t] else PoolTotals(p, t), t, done, it,
                      if t in mod then p[it].nFee else p[it].nFee + p[it].feeDelta);
      } else {
        assert CoveredBy(p, mod[t], t, done);
        UnrelatedCovers(p, mod[t], t, done, it);
      }
    }
  }

  /** Dropping entries keeps the rest covered. */
  lemma EraseCovers(p: Pool, mod: ModMap, gone: set<Tx>, done: set<Tx>)
    requires Covers(p, mod, done)
    ensures Covers(p, mod - gone, done)
  {
    forall t | t in mod - gone ensures CoveredBy(p, (mod - gone)[t], t, done) {
      assert CoveredBy(p, mod[t], t, done);
    }
  }
}
