/** Why package selection leaves a transaction out of the block (src/miner.cpp:486-600). */
module Refusals {
  import opened Mempool
  import opened PackageTotals
  import opened BlockModel

  datatype Rules = Rules(limits: Limits, fIncludeWitness: bool, fNeedSizeAccounting: bool)

  /** The transaction with its ancestors does not go on top of `done`: no room, or one of them may not be in the block. */
  ghost predicate Refused(p: Pool, r: Rules, done: set<Tx>, t: Tx)
    requires t in p
  {
    var package := Missing(p, t, done);
    || 4000 + Sum(p, Weight, done) + 4 * Sum(p, Size, package) >= r.limits.nBlockMaxWeight
    || 400 + Sum(p, SigOps, done) + Sum(p, SigOps, package) >= r.limits.nMaxSigOps
    || (r.fNeedSizeAccounting && 1000 + Sum(p, Serialized, done) + Sum(p, Serialized, package) >= r.limits.nBlockMaxSize)
    || exists u | u in package && u in p :: !p[u].fFinal || (p[u].fWitness && !r.fIncludeWitness)
  }

  /** It was refused at some point while `vtx` was put together. */
  ghost predicate LeftOut(p: Pool, r: Rules, vtx: seq<Tx>, t: Tx) {
    t in p && exists k | 0 <= k <= |vtx| :: Refused(p, r, Members(vtx[..k]), t)
  }

  lemma LeftOutLater(p: Pool, r: Rules, vtx: seq<Tx>, vtx': seq<Tx>, t: Tx)
    requires LeftOut(p, r, vtx, t) && vtx <= vtx'
    ensures LeftOut(p, r, vtx', t)
  {
    var k :| 0 <= k <= |vtx| && Refused(p, r, Members(vtx[..k]), t);
    assert vtx'[..k] == vtx[..k];
  }

  lemma LeftOutNow(p: Pool, r: Rules, vtx: seq<Tx>, t: Tx)
    requires t in p && Refused(p, r, Members(vtx), t)
    ensures LeftOut(p, r, vtx, t)
  {
    assert vtx[..|vtx|] == vtx;
  }

  // ----- the totals of the table -----

  /** What happened to an entry of the table: which included ancestor inserted it, and which ones were taken off by now. */
  datatype History = History(via: Tx, seen: set<Tx>)

  /** The totals that history gives: the sums over what was not taken off, and a fee that drifts by every delta but the first. */
  ghost function Totals(p: Pool, t: Tx, h: History): ModEntry
    requires t in p
  {
    var rest := Package(p, t) - h.seen;
    ModEntry(Sum(p, Size, rest), Sum(p, ModifiedFee, rest) + Sum(p, FeeDelta, h.seen - {h.via}), Sum(p, SigOps, rest))
  }

  ghost predicate IsPast(p: Pool, t: Tx, h: History, done: set<Tx>)
    requires t in p
  {
    h.seen <= p[t].ancestors * done && h.via in h.seen
  }

  /** An entry has the totals of its history; unless it is one of `out`, nothing included was missed. */
  ghost predicate RecordedAt(p: Pool, mod: ModMap, hist: map<Tx, History>, t: Tx, done: set<Tx>, out: set<Tx>)
    requires t in p
  {
    if t in mod then
      && t in hist && IsPast(p, t, hist[t], done) && mod[t] == Totals(p, t, hist[t])
      && (t !in out ==> hist[t].seen == p[t].ancestors * done)
    else t !in out ==> p[t].ancestors !! done
  }

  ghost predicate Recorded(p: Pool, mod: ModMap, hist: map<Tx, History>, done: set<Tx>, out: set<Tx>) {
    forall t {:trigger RecordedAt(p, mod, hist, t, done, out)} | t in p :: RecordedAt(p, mod, hist, t, done, out)
  }

  /** The pool's totals are those of an entry from which nothing was taken off. */
  lemma PoolRecord(p: Pool, t: Tx)
    requires WellFormed(p) && t in p
    ensures PoolTotals(p, t) == Totals(p, t, History(t, {}))
  {
    assert EntryOk(p, t);
    assert Package(p, t) - {} == Package(p, t);
    assert {} - {t} == {};
  }

  /** Inserting an entry. */
  lemma InsertRecord(p: Pool, t: Tx, it: Tx)
    requires WellFormed(p) && t in p && it in p && it in p[t].ancestors
    ensures Without(PoolTotals(p, t), p, it, p[it].nFee + p[it].feeDelta) == Totals(p, t, History(it, {it}))
  {
    assert EntryOk(p, t);
    SumRemove(p, Size, Package(p, t), it);
    SumRemove(p, ModifiedFee, Package(p, t), it);
    SumRemove(p, SigOps, Package(p, t), it);
    assert {it} - {it} == {};
  }

  /** Taking one more ancestor off an entry. */
  lemma TakeRecord(p: Pool, t: Tx, h: History, it: Tx)
    requires t in p && it in p && it in p[t].ancestors && it !in h.seen && h.via in h.seen
    ensures Without(Totals(p, t, h), p, it, p[it].nFee) == Totals(p, t, History(h.via, h.seen + {it}))
  {
    var rest, drift := Package(p, t) - h.seen, h.seen - {h.via};
    assert Package(p, t) - (h.seen + {it}) == rest - {it};
    SumRemove(p, Size, rest, it);
    SumRemove(p, ModifiedFee, rest, it);
    SumRemove(p, SigOps, rest, it);
    assert h.seen + {it} - {h.via} == drift + {it};
    SumAdd(p, FeeDelta, drift, it);
  }

  ghost function NextHistory(mod: ModMap, hist: map<Tx, History>, it: Tx, t: Tx): History {
    if t in mod && t in hist then History(hist[t].via, hist[t].seen + {it}) else History(it, {it})
  }

  /** The histories after the descendants `ds` of `it` have been updated. */
  ghost function HistoryAll(mod: ModMap, hist: map<Tx, History>, it: Tx, ds: set<Tx>): map<Tx, History> {
    map t | t in hist.Keys + ds :: if t in ds then NextHistory(mod, hist, it, t) else hist[t]
  }

  /** Updating the descendants of `it` keeps the table what its histories say once `it` is in the block. */
  lemma UpdateRecorded(p: Pool, mod: ModMap, hist: map<Tx, History>, it: Tx, ds: set<Tx>, done: set<Tx>, added: set<Tx>, out: set<Tx>)
    requires WellFormed(p) && Recorded(p, mod, hist, done, out) && it in p && it !in done
    requires ds == Descendants(p, it) - added && it in added && added <= out && mod.Keys !! added
    ensures Recorded(p, UpdateAll(p, mod, it, ds), HistoryAll(mod, hist, it, ds), done + {it}, out)
  {
    var mod', hist' := UpdateAll(p, mod, it, ds), HistoryAll(mod, hist, it, ds);
    forall t | t in p ensures RecordedAt(p, mod', hist', t, done + {it}, out) {
      assert RecordedAt(p, mod, hist, t, done, out);
      if t in ds {
        UpdateOneRecord(p, mod, hist, it, t, done, out);
      } else {
        assert t in added || it !in p[t].ancestors;
      }
    }
  }

  lemma UpdateOneRecord(p: Pool, mod: ModMap, hist: map<Tx, History>, it: Tx, t: Tx, done: set<Tx>, out: set<Tx>)
    requires WellFormed(p) && t in p && RecordedAt(p, mod, hist, t, done, out) && it in p && it !in done && it in p[t].ancestors
    ensures
      var h := NextHistory(mod, hist, it, t);
      && IsPast(p, t, h, done + {it}) && Updated(p, mod, it, t) == Totals(p, t, h)
      && (t !in out ==> h.seen == p[t].ancestors * (done + {it}))
  {
    if t in mod {
      TakeRecord(p, t, hist[t], it);
    } else {
      InsertRecord(p, t, it);
    }
  }

  lemma EraseRecorded(p: Pool, mod: ModMap, hist: map<Tx, History>, gone: set<Tx>, done: set<Tx>, out: set<Tx>, out': set<Tx>)
    requires Recorded(p, mod, hist, done, out) && out <= out' && gone <= out'
    ensures Recorded(p, mod - gone, hist, done, out')
  {
    forall t | t in p ensures RecordedAt(p, mod - gone, hist, t, done, out') {
      assert RecordedAt(p, mod, hist, t, done, out);
    }
  }

  // ----- how far the totals are from the truth -----

  /** Nothing included was missed: size and sigops are exact, and the fee is iff the deltas of all but the inserting ancestor cancel. */
  lemma FeeExactIff(p: Pool, t: Tx, done: set<Tx>, h: History)
    requires t in p && t !in done && h.seen == p[t].ancestors * done
    ensures
      var package, e := Missing(p, t, done), Totals(p, t, h);
      && e.nSizeWithAncestors == Sum(p, Size, package) && e.nSigOpCostWithAncestors == Sum(p, SigOps, package)
      && e.nModFeesWithAncestors == Sum(p, ModifiedFee, package) + Sum(p, FeeDelta, h.seen - {h.via})
      && (e.nModFeesWithAncestors == Sum(p, ModifiedFee, package) <==> Sum(p, FeeDelta, h.seen - {h.via}) == 0)
  {
    assert Package(p, t) - h.seen == Missing(p, t, done);
  }

  lemma {:induction false} NoDeltas(p: Pool, s: set<Tx>)
    requires forall u | u in s && u in p :: p[u].feeDelta == 0
    ensures Sum(p, FeeDelta, s) == 0
    decreases s
  {
    if s != {} {
      var u :| u in s;
      SumRemove(p, FeeDelta, s, u);
      NoDeltas(p, s - {u});
    }
  }

  // ----- the selection loop -----

  /** The loop's variables; in addition all that was refused, the histories, and what was too big since the last addition. */
  datatype Progress = Progress(mod: ModMap, failedTx: set<Tx>, mi: nat, refused: set<Tx>, hist: map<Tx, History>, tooBig: set<Tx>)

  /** Every transaction passed so far is in the block, in the table or was refused. */
  ghost predicate Tracked(p: Pool, r: Rules, b: Block, g: Progress, order: seq<Tx>) {
    && g.mi <= |order| && g.failedTx <= g.refused && g.tooBig <= g.refused
    && Recorded(p, g.mod, g.hist, b.inBlock, b.inBlock + g.refused)
    && (forall t | t in g.refused :: LeftOut(p, r, b.vtx, t))
    && (forall t | t in order[..g.mi] :: t in b.inBlock || t in g.mod || t in g.refused)
    && (forall t | t in g.tooBig :: TriedAlready(b, g, order, t))
  }

  /** The transaction will not be considered again before something is added. */
  ghost predicate TriedAlready(b: Block, g: Progress, order: seq<Tx>, t: Tx)
    requires g.mi <= |order|
  {
    t !in b.inBlock && t !in g.mod && (t in g.failedTx || t !in order[g.mi..])
  }

  /** What the loop may evaluate next, and with which totals. */
  ghost predicate Candidate(p: Pool, b: Block, g: Progress, order: seq<Tx>, iter: Tx, totals: ModEntry) {
    && iter in p && iter !in b.inBlock
    && if iter in g.mod then totals == g.mod[iter]
       else g.mi < |order| && iter == order[g.mi] && iter !in g.failedTx && totals == PoolTotals(p, iter)
  }

  predicate At(g: Progress, mi: nat, mod: ModMap, failedTx: set<Tx>) {
    g.mi == mi && g.mod == mod && g.failedTx == failedTx
  }

  datatype Ending = Exhausted | NearlyFull | Unpaid(iter: Tx, totals: ModEntry)

  /** Why the loop ended where it did. */
  ghost predicate Ended(p: Pool, r: Rules, minFee: int -> int, b: Block, g: Progress, order: seq<Tx>, why: Ending) {
    match why
    case Exhausted => g.mi == |order| && g.mod == map[]
    case NearlyFull => |g.tooBig| > 1000 && b.nBlockWeight > r.limits.nBlockMaxWeight - 4000
    case Unpaid(iter, totals) =>
      Candidate(p, b, g, order, iter, totals) && totals.nModFeesWithAncestors < minFee(totals.nSizeWithAncestors)
  }

  ghost predicate Distinct(order: seq<Tx>) {
    forall i, j | 0 <= i < j < |order| :: order[i] != order[j]
  }

  lemma NothingPassed(p: Pool, r: Rules, b: Block, mod: ModMap, hist: map<Tx, History>, order: seq<Tx>)
    requires Recorded(p, mod, hist, b.inBlock, b.inBlock)
    ensures Tracked(p, r, b, Progress(mod, {}, 0, {}, hist, {}), order)
  {
    assert b.inBlock + {} == b.inBlock;
  }

  /** At the end of the order, with an empty table, everything not in the block was refused. */
  lemma AllPassed(p: Pool, r: Rules, b: Block, g: Progress, order: seq<Tx>)
    requires Tracked(p, r, b, g, order) && g.mi == |order| && g.mod == map[]
    ensures forall t | t in order && t !in b.inBlock :: LeftOut(p, r, b.vtx, t)
  {
    assert order[..|order|] == order;
  }

  /** The next of the pool is passed: it is accounted for. */
  lemma Passed(p: Pool, r: Rules, b: Block, g: Progress, order: seq<Tx>)
    requires Tracked(p, r, b, g, order) && g.mi < |order|
    requires order[g.mi] in b.inBlock || order[g.mi] in g.mod || order[g.mi] in g.refused
    ensures Tracked(p, r, b, g.(mi := g.mi + 1), order)
  {
    assert order[..g.mi + 1] == order[..g.mi] + [order[g.mi]];
    assert order[g.mi..] == [order[g.mi]] + order[g.mi + 1..];
    forall t | t in g.tooBig ensures TriedAlready(b, g.(mi := g.mi + 1), order, t) {
      assert TriedAlready(b, g, order, t);
    }
  }

  /** A candidate was not among those that were too big since the last addition. */
  lemma NotTriedYet(p: Pool, r: Rules, b: Block, g: Progress, order: seq<Tx>, iter: Tx, totals: ModEntry)
    requires Tracked(p, r, b, g, order) && Candidate(p, b, g, order, iter, totals)
    ensures iter !in g.tooBig
  {
    assert g.mi < |order| ==> order[g.mi] == order[g.mi..][0];
    assert iter in g.tooBig ==> TriedAlready(b, g, order, iter);
  }

  /** The state after a candidate was refused, out of the table or out of the order. */
  function AfterRefusal(g: Progress, iter: Tx, fits: bool): Progress {
    var tooBig := if fits then g.tooBig else g.tooBig + {iter};
    if iter in g.mod then
      g.(mod := g.mod - {iter}, failedTx := g.failedTx + {iter}, refused := g.refused + {iter}, tooBig := tooBig)
    else g.(mi := g.mi + 1, refused := g.refused + {iter}, tooBig := tooBig)
  }

  lemma RefusalCounts(g: Progress, iter: Tx, fits: bool)
    requires iter !in g.tooBig
    ensures
      var g' := AfterRefusal(g, iter, fits);
      && |g'.mod| == (if iter in g.mod then |g.mod| - 1 else |g.mod|)
      && |g'.tooBig| == if fits then |g.tooBig| else |g.tooBig| + 1
  {
    if iter in g.mod {
      assert (g.mod - {iter}).Keys == g.mod.Keys - {iter};
    }
  }

  lemma RefusedOne(p: Pool, r: Rules, b: Block, g: Progress, order: seq<Tx>, iter: Tx, totals: ModEntry, fits: bool)
    requires Tracked(p, r, b, g, order) && Candidate(p, b, g, order, iter, totals) && Distinct(order)
    requires b.inBlock == Members(b.vtx) && (iter in g.refused || Refused(p, r, b.inBlock, iter))
    ensures Tracked(p, r, b, AfterRefusal(g, iter, fits), order)
  {
    var g' := AfterRefusal(g, iter, fits);
    if iter !in g.refused {
      LeftOutNow(p, r, b.vtx, iter);
    }
    EraseRecorded(p, g.mod, g.hist, if iter in g.mod then {iter} else {}, b.inBlock, b.inBlock + g.refused, b.inBlock + g'.refused);
    assert g.mod - {} == g.mod;
    if iter !in g.mod {
      assert order[..g.mi + 1] == order[..g.mi] + [iter];
      assert order[g.mi..] == [iter] + order[g.mi + 1..];
    }
    forall t | t in g'.tooBig ensures TriedAlready(b, g', order, t) {
      assert t in g.tooBig ==> TriedAlready(b, g, order, t);
    }
  }

  /** A package went into the block and left the table. */
  lemma AddedTracked(p: Pool, r: Rules, b: Block, b': Block, g: Progress, g': Progress, order: seq<Tx>)
    requires Tracked(p, r, b, g, order) && g' == g.(mod := g'.mod, hist := g'.hist, tooBig := {})
    requires b.vtx <= b'.vtx && b.inBlock <= b'.inBlock && Recorded(p, g'.mod, g'.hist, b'.inBlock, b'.inBlock + g.refused)
    requires g.mod.Keys <= g'.mod.Keys + b'.inBlock
    ensures Tracked(p, r, b', g', order)
  {
    forall t | t in g.refused ensures LeftOut(p, r, b'.vtx, t) {
      LeftOutLater(p, r, b.vtx, b'.vtx, t);
    }
    forall t | t in order[..g.mi] ensures t in b'.inBlock || t in g'.mod || t in g.refused {
      assert t in g.mod ==> t in g'.mod.Keys + b'.inBlock;
    }
  }

  /** The totals of a candidate come from its history; if it was never refused, they miss nothing included. */
  lemma CandidateTotals(p: Pool, r: Rules, b: Block, g: Progress, order: seq<Tx>, iter: Tx, totals: ModEntry) returns (h: History)
    requires WellFormed(p) && Tracked(p, r, b, g, order) && Candidate(p, b, g, order, iter, totals)
    ensures totals == Totals(p, iter, h) && h.seen <= p[iter].ancestors * b.inBlock
    ensures h == if iter in g.mod && iter in g.hist then g.hist[iter] else History(iter, {})
    ensures iter !in g.refused ==> h.seen == p[iter].ancestors * b.inBlock
  {
    assert RecordedAt(p, g.mod, g.hist, iter, b.inBlock, b.inBlock + g.refused);
    if iter in g.mod {
      h := g.hist[iter];
    } else {
      h := History(iter, {});
      PoolRecord(p, iter);
    }
  }

  lemma CandidateExact(p: Pool, r: Rules, b: Block, g: Progress, order: seq<Tx>, iter: Tx, totals: ModEntry)
    requires WellFormed(p) && Tracked(p, r, b, g, order) && Candidate(p, b, g, order, iter, totals)
    ensures iter in g.refused || SizeExact(p, iter, b.inBlock, totals)
  {
    if iter !in g.refused {
      var h := CandidateTotals(p, r, b, g, order, iter, totals);
      FeeExactIff(p, iter, b.inBlock, h);
    }
  }

  /** Without fee deltas, selection that ended at a package never refused ended rightly: that package pays less than the minimum. */
  lemma UnpaidIsRight(p: Pool, r: Rules, minFee: int -> int, b: Block, g: Progress, order: seq<Tx>, iter: Tx, totals: ModEntry)
    requires WellFormed(p) && Tracked(p, r, b, g, order) && Ended(p, r, minFee, b, g, order, Unpaid(iter, totals))
    requires iter !in g.refused && forall u | u in p :: p[u].feeDelta == 0
    ensures var package := Missing(p, iter, b.inBlock); Sum(p, ModifiedFee, package) < minFee(Sum(p, Size, package))
  {
    var h := CandidateTotals(p, r, b, g, order, iter, totals);
    FeeExactIff(p, iter, b.inBlock, h);
    NoDeltas(p, h.seen - {h.via});
  }

  ghost predicate SizeExact(p: Pool, t: Tx, done: set<Tx>, e: ModEntry)
    requires t in p
  {
    && e.nSizeWithAncestors == Sum(p, Size, Missing(p, t, done))
    && e.nSigOpCostWithAncestors == Sum(p, SigOps, Missing(p, t, done))
  }

  /** A package that fails either test is refused, if its size and sigop totals are exact. */
  lemma TestsRefuse(p: Pool, r: Rules, b: Block, iter: Tx, totals: ModEntry)
    requires ValidBlock(p, b) && iter in p && SizeExact(p, iter, b.inBlock, totals)
    requires
      var package := Missing(p, iter, b.inBlock);
      || b.nBlockWeight + 4 * totals.nSizeWithAncestors >= r.limits.nBlockMaxWeight
      || b.nBlockSigOpsCost + totals.nSigOpCostWithAncestors >= r.limits.nMaxSigOps
      || (r.fNeedSizeAccounting && b.nBlockSize + Sum(p, Serialized, package) >= r.limits.nBlockMaxSize)
      || exists u | u in package && u in p :: !p[u].fFinal || (p[u].fWitness && !r.fIncludeWitness)
    ensures Refused(p, r, b.inBlock, iter)
  {
    SumSubset(p, Serialized, b.counted, b.inBlock);
  }

  // ----- an entry whose fee drifts -----

  /** Two transactions without parents, the second with its fee lowered by 1000, and a child of both; 200 bytes each. */
  function Family(): Pool {
    map[1 := TxEntry(200, 800, 200, 0, true, false, {}, {}, 1, 200, 0, 9000, 0, 9000),
        2 := TxEntry(200, 800, 200, 0, true, false, {}, {}, 1, 200, 0, 5000, -1000, 4000),
        3 := TxEntry(200, 800, 200, 0, true, false, {1, 2}, {1, 2}, 3, 600, 0, 200, 0, 13200)]
  }

  lemma SumOne(p: Pool, m: Measure, x: Tx)
    ensures Sum(p, m, {x}) == Val(p, m, x)
  {
    assert {} + {x} == {x};
    SumAdd(p, m, {}, x);
  }

  lemma SumThree(p: Pool, m: Measure, x: Tx, y: Tx, z: Tx)
    requires x != y && x != z && y != z
    ensures Sum(p, m, {x, y, z}) == Val(p, m, x) + Val(p, m, y) + Val(p, m, z)
  {
    SumOne(p, m, x);
    SumAdd(p, m, {x}, y);
    SumAdd(p, m, {x} + {y}, z);
    assert {x} + {y} + {z} == {x, y, z};
  }

  lemma ChildIsOk(p: Pool)
    requires p == Family()
    ensures EntryOk(p, 3)
  {
    assert Package(p, 3) == {1, 2, 3};
    SumThree(p, Size, 1, 2, 3);
    SumThree(p, SigOps, 1, 2, 3);
    SumThree(p, ModifiedFee, 1, 2, 3);
  }

  lemma ParentIsOk(p: Pool, t: Tx)
    requires p == Family() && (t == 1 || t == 2)
    ensures EntryOk(p, t)
  {
    assert Package(p, t) == {t};
    SumOne(p, Size, t);
    SumOne(p, SigOps, t);
    SumOne(p, ModifiedFee, t);
  }

  lemma FamilyIsWellFormed(p: Pool)
    requires p == Family()
    ensures WellFormed(p)
  {
    forall t | t in p ensures EntryOk(p, t) {
      if t == 3 {
        ChildIsOk(p);
      } else {
        ParentIsOk(p, t);
      }
    }
  }

  /** Once both parents are in the block, the child pays 200 for its 200 bytes, and its entry says -800. */
  lemma FeeDrifts(p: Pool, mod: ModMap)
    requires p == Family() && mod == UpdateAll(p, UpdateAll(p, map[], 1, {3}), 2, {3})
    ensures Descendants(p, 1) - {1} == Descendants(p, 2) - {2} == {3} && Missing(p, 3, {1, 2}) == {3}
    ensures mod.Keys == {3} && mod[3] == ModEntry(200, -800, 0)
    ensures Sum(p, Size, {3}) == 200 && Sum(p, ModifiedFee, {3}) == 200
  {
    SumOne(p, Size, 3);
    SumOne(p, ModifiedFee, 3);
  }

  lemma FamilyHistory(p: Pool, mod: ModMap, hist: map<Tx, History>)
    requires p == Family() && mod == UpdateAll(p, UpdateAll(p, map[], 1, {3}), 2, {3}) && hist == map[3 := History(1, {1, 2})]
    ensures Recorded(p, mod, hist, {1, 2}, {1, 2})
  {
    FamilyIsWellFormed(p);
    var mod1, hist1 := UpdateAll(p, map[], 1, {3}), HistoryAll(map[], map[], 1, {3});
    UpdateRecorded(p, map[], map[], 1, {3}, {}, {1}, {1, 2});
    assert {} + {1} == {1} && {1} + {2} == {1, 2};
    UpdateRecorded(p, mod1, hist1, 2, {3}, {1}, {2}, {1, 2});
    assert HistoryAll(mod1, hist1, 2, {3}) == hist;
  }

  /** So the loop ends at the child, which was never refused and pays the minimum. */
  lemma PaidChildEndsSelection(p: Pool, r: Rules, minFee: int -> int, b: Block, g: Progress)
    requires p == Family() && minFee(200) == 200 && b.vtx == [1, 2] && b.inBlock == {1, 2}
    requires g == Progress(UpdateAll(p, UpdateAll(p, map[], 1, {3}), 2, {3}), {}, 2, {}, map[3 := History(1, {1, 2})], {})
    ensures WellFormed(p) && Tracked(p, r, b, g, [1, 2, 3]) && 3 in g.mod && 3 !in g.refused
    ensures Ended(p, r, minFee, b, g, [1, 2, 3], Unpaid(3, g.mod[3]))
    ensures var package := Missing(p, 3, b.inBlock); Sum(p, ModifiedFee, package) == minFee(Sum(p, Size, package))
  {
    FamilyIsWellFormed(p);
    FeeDrifts(p, g.mod);
    FamilyHistory(p, g.mod, g.hist);
    assert {1, 2} + {} == {1, 2};
    assert [1, 2, 3][..2] == [1, 2];
  }
}
