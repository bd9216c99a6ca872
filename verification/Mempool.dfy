/** The memory pool as block assembly sees it: a finite DAG of transactions with cached ancestor totals. */
module Mempool {
  import opened Arith

  type Tx = nat

  datatype TxEntry = TxEntry(nTxSize: nat, nTxWeight: nat, nSerSize: nat, nSigOpCost: nat, fFinal: bool, fWitness: bool,
                             parents: set<Tx>, ancestors: set<Tx>,
                             nCountWithAncestors: nat, nSizeWithAncestors: nat, nSigOpCostWithAncestors: nat,
                             nFee: int, feeDelta: int, nModFeesWithAncestors: int)

  type Pool = map<Tx, TxEntry>

  /** The quantities that block limits are about, and the fee with the part a node's operator added to or took from it. */
  datatype Measure = Size | Weight | Serialized | SigOps | ModifiedFee | FeeDelta {
    predicate IsNatural() { this != ModifiedFee && this != FeeDelta }
  }

  function Val(p: Pool, m: Measure, t: Tx): (v: int)
    ensures m.IsNatural() ==> v >= 0
  {
    if t !in p then 0
    else match m
      case Size => p[t].nTxSize
      case Weight => p[t].nTxWeight
      case Serialized => p[t].nSerSize
      case SigOps => p[t].nSigOpCost
      case ModifiedFee => p[t].nFee + p[t].feeDelta
      case FeeDelta => p[t].feeDelta
  }

  ghost function Sum(p: Pool, m: Measure, s: set<Tx>): (v: int)
    ensures m.IsNatural() ==> v >= 0
  {
    if s == {} then 0 else var x :| x in s; Val(p, m, x) + Sum(p, m, s - {x})
  }

  lemma {:induction false} SumRemove(p: Pool, m: Measure, s: set<Tx>, x: Tx)
    requires x in s
    ensures Sum(p, m, s) == Val(p, m, x) + Sum(p, m, s - {x})
    decreases s
  {
    var y :| y in s && Sum(p, m, s) == Val(p, m, y) + Sum(p, m, s - {y});
    if y != x {
      SumRemove(p, m, s - {y}, x);
      SumRemove(p, m, s - {x}, y);
      assert s - {y} - {x} == s - {x} - {y};
    }
  }

  lemma {:induction false} SumUnion(p: Pool, m: Measure, s: set<Tx>, t: set<Tx>)
    requires s !! t
    ensures Sum(p, m, s + t) == Sum(p, m, s) + Sum(p, m, t)
    decreases t
  {
    if t == {} {
      assert s + t == s;
    } else {
      var x :| x in t;
      SumRemove(p, m, t, x);
      SumRemove(p, m, s + t, x);
      assert s + t - {x} == s + (t - {x});
      SumUnion(p, m, s, t - {x});
    }
  }

  lemma SumSubset(p: Pool, m: Measure, s: set<Tx>, t: set<Tx>)
    requires s <= t && m.IsNatural()
    ensures Sum(p, m, s) <= Sum(p, m, t)
  {
    SumUnion(p, m, s, t - s);
    assert s + (t - s) == t;
  }

  lemma {:induction false} SumWeight(p: Pool, s: set<Tx>)
    requires WellFormed(p)
    ensures Sum(p, Weight, s) <= 4 * Sum(p, Size, s)
    decreases s
  {
    if s != {} {
      var x :| x in s;
      SumRemove(p, Weight, s, x);
      SumRemove(p, Size, s, x);
      if x in p { assert EntryOk(p, x); }
      SumWeight(p, s - {x});
    }
  }

  /** The transaction and its in-pool ancestors. */
  function Package(p: Pool, t: Tx): set<Tx>
    requires t in p
  {
    p[t].ancestors + {t}
  }

  ghost predicate EntryOk(p: Pool, t: Tx) {
    && t in p
    && var e := p[t];
    && e.nTxWeight <= 4 * e.nTxSize
    && e.parents <= e.ancestors && t !in e.ancestors
    && (forall a | a in e.ancestors :: a in p && p[a].ancestors <= e.ancestors)
    && (forall a | a in e.ancestors :: a in e.parents || exists q :: q in e.parents && q in p && a in p[q].ancestors)
    && e.nCountWithAncestors == |Package(p, t)|
    && e.nSizeWithAncestors == Sum(p, Size, Package(p, t))
    && e.nSigOpCostWithAncestors == Sum(p, SigOps, Package(p, t))
    && e.nModFeesWithAncestors == Sum(p, ModifiedFee, Package(p, t))
  }

  /** What the pool maintains: ancestor sets are transitive and acyclic, and the cached totals are exact. */
  ghost predicate WellFormed(p: Pool) {
    forall t {:trigger EntryOk(p, t)} | t in p :: EntryOk(p, t)
  }

  /** An ancestor has fewer ancestors. */
  lemma AncestorCount(p: Pool, a: Tx, t: Tx)
    requires WellFormed(p) && t in p && a in p[t].ancestors
    ensures a in p && p[a].nCountWithAncestors < p[t].nCountWithAncestors
  {
    assert EntryOk(p, t);
    assert EntryOk(p, a);
    assert Package(p, a) <= Package(p, t) - {t};
    SubsetSize(Package(p, a), Package(p, t) - {t});
  }

  // ----- what a block under construction must satisfy -----

  /** `block` lists every transaction once, each after all its in-pool ancestors. */
  ghost predicate Ordered(p: Pool, block: seq<Tx>) {
    && (forall i | 0 <= i < |block| :: block[i] in p)
    && (forall i, j | 0 <= i < j < |block| :: block[i] != block[j])
    && (forall i, a | 0 <= i < |block| && a in p[block[i]].ancestors :: a in block[..i])
  }

  function Members(block: seq<Tx>): set<Tx> { set t | t in block }

  /** Everything the transaction still needs. */
  function Missing(p: Pool, t: Tx, inBlock: set<Tx>): set<Tx>
    requires t in p
  {
    Package(p, t) - inBlock
  }

  lemma ClosedUnderAncestors(p: Pool, block: seq<Tx>, t: Tx)
    requires Ordered(p, block) && t in block
    ensures t in p && p[t].ancestors <= Members(block)
  {
    var i :| 0 <= i < |block| && block[i] == t;
    forall a | a in p[t].ancestors ensures a in block {
      assert a in block[..i];
    }
  }

  /** Appending one transaction whose ancestors are all there. */
  lemma OrderedAppend(p: Pool, block: seq<Tx>, t: Tx)
    requires Ordered(p, block) && t in p && t !in block && p[t].ancestors <= Members(block)
    ensures Ordered(p, block + [t]) && Members(block + [t]) == Members(block) + {t}
  {
    var b := block + [t];
    forall i, a | 0 <= i < |b| && a in p[b[i]].ancestors ensures a in b[..i] {
      if i < |block| {
        assert b[..i] == block[..i];
      } else {
        assert b[..i] == block;
        assert a in Members(block);
      }
    }
    assert Members(b) == Members(block) + {t};
  }
}
